/** The article editor: the state updaters applied to the working article,
    the drag-and-drop reorder, and the editing session that holds them. */
module ArticleEditor {
  import opened Wrappers
  import opened Types

  // ---------------------------------------------------------------------------
  // Top-level fields

  /** The top-level article fields the editor's inputs write by name. */
  datatype Field = Title | Subtitle | Author | PublishDate | HeroImage

  function FieldValue(a: Article, f: Field): string
  {
    match f
    case Title => a.title
    case Subtitle => a.subtitle
    case Author => a.author
    case PublishDate => a.publishDate
    case HeroImage => a.heroImage
  }

  /** `{ ...prev, [name]: value }`. */
  function WithField(a: Article, f: Field, v: string): (r: Article)
    ensures FieldValue(r, f) == v
    ensures forall g :: g != f ==> FieldValue(r, g) == FieldValue(a, g)
    ensures r.id == a.id && r.content == a.content
  {
    match f
    case Title => a.(title := v)
    case Subtitle => a.(subtitle := v)
    case Author => a.(author := v)
    case PublishDate => a.(publishDate := v)
    case HeroImage => a.(heroImage := v)
  }

  // ---------------------------------------------------------------------------
  // Merging partial fields into blocks

  /** A `Partial<ContentBlock>`: the properties it sets, by name. */
  type Patch = map<Key, string>

  function Pick(p: Patch, k: Key, v: string): string
  {
    if k in p then p[k] else v
  }

  /** `{ ...block, ...patch }`: the patch's values overwrite the block's own
      properties, every other property is kept, and the variant stays. */
  function ApplyPatch(b: ContentBlock, p: Patch): (r: ContentBlock)
    ensures TypeOf(r) == TypeOf(b)
    ensures forall k :: Get(r, k) == if Get(b, k).Some? && k in p then Some(p[k]) else Get(b, k)
  {
    var id := Pick(p, Id, b.id);
    match b
    case TextBlock(_, c) => TextBlock(id, Pick(p, Content, c))
    case ImageBlock(_, s, c) => ImageBlock(id, Pick(p, Src, s), Pick(p, Caption, c))
    case AudioBlock(_, s, t) => AudioBlock(id, Pick(p, Src, s), Pick(p, Key.Title, t))
    case SponsorshipBlock(_, c, l, k) =>
      SponsorshipBlock(id, Pick(p, Company, c), Pick(p, LogoSrc, l), Pick(p, Link, k))
  }

  lemma ApplyPatchIdempotent(b: ContentBlock, p: Patch)
    ensures ApplyPatch(ApplyPatch(b, p), p) == ApplyPatch(b, p)
  {
    BlockExtensional(ApplyPatch(ApplyPatch(b, p), p), ApplyPatch(b, p));
  }

  predicate HasBlock(s: seq<ContentBlock>, id: string)
  {
    exists k :: 0 <= k < |s| && s[k].id == id
  }

  /** The `map` in handleContentChange. */
  function PatchMatching(s: seq<ContentBlock>, id: string, p: Patch): seq<ContentBlock>
  {
    seq(|s|, k requires 0 <= k < |s| => if s[k].id == id then ApplyPatch(s[k], p) else s[k])
  }

  /** handleContentChange's updater: with no block of that id the article is
      returned as it was, otherwise its content is the patched sequence. */
  function WithBlockChanged(a: Article, id: string, p: Patch): (r: Article)
    ensures |r.content| == |a.content|
    ensures forall k :: 0 <= k < |a.content| && a.content[k].id != id ==> r.content[k] == a.content[k]
    ensures forall k :: 0 <= k < |a.content| && a.content[k].id == id ==> r.content[k] == ApplyPatch(a.content[k], p)
    ensures r.(content := a.content) == a
    ensures !HasBlock(a.content, id) ==> r == a
  {
    if !HasBlock(a.content, id) then a
    else a.(content := PatchMatching(a.content, id, p))
  }

  /** Changing the same block twice with the same patch is the same as once. */
  lemma WithBlockChangedIdempotent(a: Article, id: string, p: Patch)
    ensures WithBlockChanged(WithBlockChanged(a, id, p), id, p) == WithBlockChanged(a, id, p)
  {
    var once := WithBlockChanged(a, id, p);
    var twice := WithBlockChanged(once, id, p);
    forall k | 0 <= k < |a.content|
      ensures twice.content[k] == once.content[k]
    {
      if a.content[k].id == id {
        ApplyPatchIdempotent(a.content[k], p);
      }
    }
    assert twice.content == once.content;
  }

  // ---------------------------------------------------------------------------
  // Adding and removing blocks

  const StarterText := "<p>Start writing here...</p>"

  /** The per-variant template of addBlock. */
  function NewBlock(t: BlockType, id: string): (b: ContentBlock)
    ensures TypeOf(b) == t && b.id == id
    ensures forall k :: k != Id && k in KeysOf(t) ==>
              Get(b, k) == Some(if t == Text then StarterText else "")
  {
    match t
    case Text => TextBlock(id, StarterText)
    case Image => ImageBlock(id, "", "")
    case Audio => AudioBlock(id, "", "")
    case Sponsorship => SponsorshipBlock(id, "", "", "")
  }

  /** addBlock's updater: one new block at the end, everything else as it was. */
  function WithBlockAdded(a: Article, t: BlockType, id: string): (r: Article)
    ensures |r.content| == |a.content| + 1
    ensures r.content[..|a.content|] == a.content
    ensures r.content[|a.content|] == NewBlock(t, id)
    ensures r.(content := a.content) == a
  {
    a.(content := a.content + [NewBlock(t, id)])
  }

  /** `content.filter(b => b.id !== id)`. */
  function DropId(s: seq<ContentBlock>, id: string): (r: seq<ContentBlock>)
    ensures |r| <= |s|
  {
    if |s| == 0 then []
    else if s[0].id == id then DropId(s[1..], id)
    else [s[0]] + DropId(s[1..], id)
  }

  /** The filter is determined by what it does to single blocks and by
      distributing over concatenation: it keeps the others in their order. */
  lemma {:induction false} DropIdConcat(s: seq<ContentBlock>, t: seq<ContentBlock>, id: string)
    ensures DropId(s + t, id) == DropId(s, id) + DropId(t, id)
  {
    if |s| == 0 {
      assert s + t == t;
    } else {
      var u, tail := s + t, s[1..];
      assert u[0] == s[0] && u[1..] == tail + t;
      DropIdConcat(tail, t, id);
      if s[0].id == id {
        assert DropId(u, id) == DropId(tail + t, id);
        assert DropId(s, id) == DropId(tail, id);
      } else {
        assert DropId(u, id) == [s[0]] + DropId(tail + t, id);
        assert DropId(s, id) == [s[0]] + DropId(tail, id);
      }
    }
  }

  /** Exactly the blocks with another id survive the filter. */
  lemma {:induction false} DropIdMembers(s: seq<ContentBlock>, id: string)
    ensures forall b :: b in DropId(s, id) <==> b in s && b.id != id
  {
    if |s| > 0 {
      DropIdMembers(s[1..], id);
      assert forall b :: b in s <==> b == s[0] || b in s[1..];
    }
  }

  lemma {:induction false} DropIdAbsent(s: seq<ContentBlock>, id: string)
    requires !HasBlock(s, id)
    ensures DropId(s, id) == s
  {
    if |s| > 0 {
      assert !HasBlock(s[1..], id) by {
        forall k | 0 <= k < |s[1..]| ensures s[1..][k].id != id { assert s[1..][k] == s[k + 1]; }
      }
      DropIdAbsent(s[1..], id);
      assert [s[0]] + s[1..] == s;
    }
  }

  lemma {:induction false} DropIdPresent(s: seq<ContentBlock>, id: string)
    requires HasBlock(s, id)
    ensures |DropId(s, id)| < |s|
  {
    if s[0].id != id {
      var k :| 0 <= k < |s| && s[k].id == id;
      assert s[1..][k - 1].id == id;
      DropIdPresent(s[1..], id);
    }
  }

  /** removeBlock's updater: when nothing was filtered out the article is
      returned as it was. */
  function WithoutBlock(a: Article, id: string): (r: Article)
    ensures r.content == DropId(a.content, id)
    ensures r.(content := a.content) == a
    ensures !HasBlock(a.content, id) ==> r == a
    ensures HasBlock(a.content, id) ==> |r.content| < |a.content|
  {
    var updated := DropId(a.content, id);
    if |updated| == |a.content| then
      assert !HasBlock(a.content, id) by {
        if HasBlock(a.content, id) { DropIdPresent(a.content, id); }
      }
      DropIdAbsent(a.content, id);
      a
    else
      assert HasBlock(a.content, id) by {
        if !HasBlock(a.content, id) { DropIdAbsent(a.content, id); }
      }
      a.(content := updated)
  }

  // ---------------------------------------------------------------------------
  // Drag-and-drop reordering

  /** `content.findIndex(b => b.id === id)`: the first position with the id, or -1. */
  function IndexOf(s: seq<ContentBlock>, id: string): (r: int)
    ensures -1 <= r < |s|
    ensures r == -1 <==> !HasBlock(s, id)
    ensures r >= 0 ==> s[r].id == id && forall k :: 0 <= k < r ==> s[k].id != id
  {
    if |s| == 0 then -1
    else if s[0].id == id then 0
    else
      var r := IndexOf(s[1..], id);
      assert HasBlock(s, id) ==> HasBlock(s[1..], id) by {
        if HasBlock(s, id) {
          var k :| 0 <= k < |s| && s[k].id == id;
          assert s[1..][k - 1].id == id;
        }
      }
      if r == -1 then -1 else r + 1
  }

  /** The position in the original sequence of what the move puts at `k`. */
  function ShiftSource(from: nat, to: nat, k: nat): nat
  {
    if k == to then from
    else if from < to && from <= k < to then k + 1
    else if to < from && to < k <= from then k - 1
    else k
  }

  /** `splice(from, 1)` followed by `splice(to, 0, removed)` on a copy. */
  function Moved<T>(s: seq<T>, from: nat, to: nat): (r: seq<T>)
    requires from < |s| && to < |s|
    ensures |r| == |s|
    ensures forall k :: 0 <= k < |s| ==> ShiftSource(from, to, k) < |s| && r[k] == s[ShiftSource(from, to, k)]
  {
    var rest := s[..from] + s[from + 1..];
    rest[..to] + [s[from]] + rest[to..]
  }

  lemma MovedIsPermutation<T>(s: seq<T>, from: nat, to: nat)
    requires from < |s| && to < |s|
    ensures multiset(Moved(s, from, to)) == multiset(s)
  {
    var rest := s[..from] + s[from + 1..];
    assert s == s[..from] + [s[from]] + s[from + 1..];
    assert multiset(s) == multiset(s[..from]) + multiset{s[from]} + multiset(s[from + 1..]);
    assert multiset(rest) == multiset(s[..from]) + multiset(s[from + 1..]);
    assert rest == rest[..to] + rest[to..];
    assert multiset(rest) == multiset(rest[..to]) + multiset(rest[to..]);
    assert Moved(s, from, to) == rest[..to] + [s[from]] + rest[to..];
    assert multiset(Moved(s, from, to)) == multiset(rest[..to]) + multiset{s[from]} + multiset(rest[to..]);
    assert multiset(Moved(s, from, to)) == multiset(rest) + multiset{s[from]};
  }

  /** Taking the moved block out again leaves what taking it out of the
      original left: every other block keeps its relative order. */
  lemma MovedThenRemoved<T>(s: seq<T>, from: nat, to: nat)
    requires from < |s| && to < |s|
    ensures Moved(s, from, to)[to] == s[from]
    ensures var r := Moved(s, from, to); r[..to] + r[to + 1..] == s[..from] + s[from + 1..]
  {
    var rest := s[..from] + s[from + 1..];
    var r := Moved(s, from, to);
    assert r == rest[..to] + [s[from]] + rest[to..];
    assert r[..to] == rest[..to];
    assert r[to + 1..] == rest[to..];
  }

  /** The in-place part of handleDrop: `a` is the copy of the content. */
  method MoveInPlace<T>(a: array<T>, from: nat, to: nat)
    requires from < a.Length && to < a.Length
    modifies a
    ensures a[..] == Moved(old(a[..]), from, to)
  {
    ghost var s := a[..];
    var moving := a[from];
    var i := from;
    if from < to {
      while i < to
        invariant from <= i <= to
        invariant forall k :: 0 <= k < from ==> a[k] == s[k]
        invariant forall k :: from <= k < i ==> a[k] == s[k + 1]
        invariant forall k :: i <= k < a.Length ==> a[k] == s[k]
      {
        a[i] := a[i + 1];
        i := i + 1;
      }
    } else {
      while i > to
        invariant to <= i <= from
        invariant forall k :: 0 <= k <= i ==> a[k] == s[k]
        invariant forall k :: i < k <= from ==> a[k] == s[k - 1]
        invariant forall k :: from < k < a.Length ==> a[k] == s[k]
      {
        a[i] := a[i - 1];
        i := i - 1;
      }
    }
    a[to] := moving;
    assert forall k :: 0 <= k < a.Length ==> a[k] == s[ShiftSource(from, to, k)];
    assert a[..] == Moved(s, from, to);
  }

  /** No-op conditions of handleDrop: no dragged id (or the falsy empty id),
      a drop on itself, or either id missing from the content. */
  predicate DropIgnored(s: seq<ContentBlock>, dragged: Option<string>, dropId: string)
  {
    dragged.None? || dragged.value == "" || dragged.value == dropId ||
    IndexOf(s, dragged.value) == -1 || IndexOf(s, dropId) == -1
  }

  /** The content after dropping the dragged block on the block `dropId`. */
  function Reordered(s: seq<ContentBlock>, dragged: Option<string>, dropId: string): seq<ContentBlock>
  {
    if DropIgnored(s, dragged, dropId) then s
    else Moved(s, IndexOf(s, dragged.value), IndexOf(s, dropId))
  }

  /** Dropping without a dragged id, on the dragged block itself, or with
      either id missing from the content leaves the content as it was. */
  lemma ReorderedNoOp(s: seq<ContentBlock>, dragged: Option<string>, dropId: string)
    requires dragged.None? || dragged.value == "" || dragged.value == dropId ||
             !HasBlock(s, dragged.value) || !HasBlock(s, dropId)
    ensures Reordered(s, dragged, dropId) == s
  {
  }

  /** A reorder is always a permutation of the content. */
  lemma ReorderedIsPermutation(s: seq<ContentBlock>, dragged: Option<string>, dropId: string)
    ensures |Reordered(s, dragged, dropId)| == |s|
    ensures multiset(Reordered(s, dragged, dropId)) == multiset(s)
  {
    if !DropIgnored(s, dragged, dropId) {
      MovedIsPermutation(s, IndexOf(s, dragged.value), IndexOf(s, dropId));
    }
  }

  /** A real move puts the dragged block at the target's original index and
      keeps every other block in its relative order. */
  lemma ReorderedPlacesDragged(s: seq<ContentBlock>, dragged: string, dropId: string)
    requires dragged != "" && dragged != dropId
    requires HasBlock(s, dragged) && HasBlock(s, dropId)
    ensures var r := Reordered(s, Some(dragged), dropId);
            var from, to := IndexOf(s, dragged), IndexOf(s, dropId);
            r[to] == s[from] && r[to].id == dragged &&
            r[..to] + r[to + 1..] == s[..from] + s[from + 1..]
  {
    var from, to := IndexOf(s, dragged), IndexOf(s, dropId);
    assert !DropIgnored(s, Some(dragged), dropId);
    assert Reordered(s, Some(dragged), dropId) == Moved(s, from, to);
    MovedThenRemoved(s, from, to);
  }

  // ---------------------------------------------------------------------------
  // Block ids

  /** The ids of an article's blocks are pairwise distinct. */
  predicate UniqueIds(s: seq<ContentBlock>)
  {
    forall i, j :: 0 <= i < j < |s| ==> s[i].id != s[j].id
  }

  lemma AddKeepsUniqueIds(a: Article, t: BlockType, id: string)
    requires UniqueIds(a.content) && !HasBlock(a.content, id)
    ensures UniqueIds(WithBlockAdded(a, t, id).content)
  {
    var r := WithBlockAdded(a, t, id).content;
    forall i, j | 0 <= i < j < |r| ensures r[i].id != r[j].id {
      if j == |a.content| {
        assert r[i] == a.content[i];
      } else {
        assert r[i] == a.content[i] && r[j] == a.content[j];
      }
    }
  }

  lemma {:induction false} DropIdKeepsUniqueIds(s: seq<ContentBlock>, id: string)
    requires UniqueIds(s)
    ensures UniqueIds(DropId(s, id))
  {
    if |s| > 0 {
      assert UniqueIds(s[1..]) by {
        forall i, j | 0 <= i < j < |s[1..]| ensures s[1..][i].id != s[1..][j].id {
          assert s[1..][i] == s[i + 1] && s[1..][j] == s[j + 1];
        }
      }
      DropIdKeepsUniqueIds(s[1..], id);
      var rest := DropId(s[1..], id);
      if s[0].id != id {
        DropIdMembers(s[1..], id);
        forall j | 0 <= j < |rest| ensures s[0].id != rest[j].id {
          assert rest[j] in rest;
          var m :| 0 <= m < |s[1..]| && s[1..][m] == rest[j];
          assert s[m + 1] == rest[j];
        }
      }
    }
  }

  lemma ReorderKeepsUniqueIds(s: seq<ContentBlock>, dragged: Option<string>, dropId: string)
    requires UniqueIds(s)
    ensures UniqueIds(Reordered(s, dragged, dropId))
  {
    if !DropIgnored(s, dragged, dropId) {
      var from, to := IndexOf(s, dragged.value), IndexOf(s, dropId);
      var r := Moved(s, from, to);
      forall i, j | 0 <= i < j < |r| ensures r[i].id != r[j].id {
        assert ShiftSource(from, to, i) != ShiftSource(from, to, j);
      }
    }
  }

  // ---------------------------------------------------------------------------
  // The editing session

  /** A merge that carries no `id` keeps the block's id. */
  lemma PatchKeepsId(b: ContentBlock, p: Patch)
    requires Id !in p
    ensures ApplyPatch(b, p).id == b.id
  {
    assert Get(ApplyPatch(b, p), Id) == Get(b, Id);
  }

  /** A content change whose patch carries no `id` keeps block ids distinct;
      every patch the editor's block components send is of this kind. */
  lemma ChangeKeepsUniqueIds(a: Article, id: string, p: Patch)
    requires UniqueIds(a.content) && Id !in p
    ensures UniqueIds(WithBlockChanged(a, id, p).content)
  {
    var r := WithBlockChanged(a, id, p).content;
    forall k | 0 <= k < |r| ensures r[k].id == a.content[k].id {
      if a.content[k].id == id {
        PatchKeepsId(a.content[k], p);
      }
    }
  }

  /** A patch that does carry `id` can give two blocks the same id. */
  lemma PatchedIdCanCollide()
    ensures var a := Article("a", "", "", "", "", "", [TextBlock("b1", ""), TextBlock("b2", "")]);
            UniqueIds(a.content) && !UniqueIds(WithBlockChanged(a, "b1", map[Id := "b2"]).content)
  {
    var a := Article("a", "", "", "", "", "", [TextBlock("b1", ""), TextBlock("b2", "")]);
    var p: Patch := map[Id := "b2"];
    assert HasBlock(a.content, "b1") by {
      assert a.content[0].id == "b1";
    }
    var r := WithBlockChanged(a, "b1", p).content;
    assert Get(r[0], Id) == Some(p[Id]);
    assert r[0].id == "b2" && r[1].id == "b2";
  }

  /** One ArticleEditor instance: the working article, the save guard and the
      id of the block being dragged (the `dragging` state and the
      `draggingIdRef` ref, which are always set together). */
  class EditorSession {
    var article: Article
    var isSaving: bool
    var dragging: Option<string>

    /** The article's block ids are pairwise distinct. */
    predicate Valid()
      reads this
    {
      UniqueIds(article.content)
    }

    constructor (initial: Article)
      ensures article == initial && !isSaving && dragging == None
      ensures UniqueIds(initial.content) ==> Valid()
    {
      article := initial;
      isSaving := false;
      dragging := None;
    }

    /** handleTitleChange (and the hero image upload, once the file is read). */
    method HandleFieldChange(f: Field, v: string)
      modifies this
      ensures article == WithField(old(article), f, v)
      ensures isSaving == old(isSaving) && dragging == old(dragging)
      ensures old(Valid()) ==> Valid()
    {
      article := WithField(article, f, v);
    }

    method HandleContentChange(id: string, p: Patch)
      modifies this
      ensures article == WithBlockChanged(old(article), id, p)
      ensures isSaving == old(isSaving) && dragging == old(dragging)
      ensures old(Valid()) && Id !in p ==> Valid()
    {
      if Valid() && Id !in p {
        ChangeKeepsUniqueIds(article, id, p);
      }
      article := WithBlockChanged(article, id, p);
    }

    /** addBlock, with the generated id as an input that is not yet in use. */
    method AddBlock(t: BlockType, freshId: string)
      requires !HasBlock(article.content, freshId)
      modifies this
      ensures article == WithBlockAdded(old(article), t, freshId)
      ensures isSaving == old(isSaving) && dragging == old(dragging)
      ensures old(Valid()) ==> Valid()
    {
      if Valid() {
        AddKeepsUniqueIds(article, t, freshId);
      }
      article := WithBlockAdded(article, t, freshId);
    }

    method RemoveBlock(id: string)
      modifies this
      ensures article == WithoutBlock(old(article), id)
      ensures isSaving == old(isSaving) && dragging == old(dragging)
      ensures old(Valid()) ==> Valid()
    {
      if Valid() {
        DropIdKeepsUniqueIds(article.content, id);
      }
      article := WithoutBlock(article, id);
    }

    method HandleDragStart(id: string)
      modifies this
      ensures dragging == Some(id)
      ensures article == old(article) && isSaving == old(isSaving)
    {
      dragging := Some(id);
    }

    method HandleDragEnd()
      modifies this
      ensures dragging == None
      ensures article == old(article) && isSaving == old(isSaving)
    {
      dragging := None;
    }

    method HandleDrop(dropId: string)
      modifies this
      ensures article == old(article).(content := Reordered(old(article.content), old(dragging), dropId))
      ensures dragging == None && isSaving == old(isSaving)
      ensures old(Valid()) ==> Valid()
    {
      if Valid() {
        ReorderKeepsUniqueIds(article.content, dragging, dropId);
      }
      var dragged := dragging;
      if dragged.None? || dragged.value == "" || dragged.value == dropId {
        dragging := None;
        return;
      }
      var c := article.content;
      var from := IndexOf(c, dragged.value);
      var to := IndexOf(c, dropId);
      if from != -1 && to != -1 {
        var copy := new ContentBlock[|c|](k requires 0 <= k < |c| => c[k]);
        assert copy[..] == c;
        MoveInPlace(copy, from, to);
        article := article.(content := copy[..]);
      }
      dragging := None;
    }

    /** handleSaveClick up to the awaited save: a click while a save is in
        flight submits nothing; otherwise the current article is submitted. */
    method HandleSaveClick() returns (submitted: Option<Article>)
      modifies this
      ensures submitted == if old(isSaving) then None else Some(old(article))
      ensures isSaving
      ensures article == old(article) && dragging == old(dragging)
    {
      if isSaving {
        return None;
      }
      isSaving := true;
      submitted := Some(article);
    }

    /** The `finally` of handleSaveClick, reached whether the save resolved or threw. */
    method SaveSettled()
      modifies this
      ensures !isSaving
      ensures article == old(article) && dragging == old(dragging)
    {
      isSaving := false;
    }
  }
}
