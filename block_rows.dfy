/** The relational shape of an article: one article row plus one block row per
    block, carrying its parent's id and its position. */
module BlockRows {
  import opened Types

  /** A `content_blocks` row: the block's own properties spread, plus
      `article_id` and `block_order`. */
  datatype BlockRow = BlockRow(block: ContentBlock, articleId: string, blockOrder: int)

  /** An `articles` row: the article without its content. */
  datatype ArticleRow = ArticleRow(
    id: string, title: string, subtitle: string, author: string,
    publishDate: string, heroImage: string)

  /** `const { content, ...articleData } = article`. */
  function RowOf(a: Article): ArticleRow
  {
    ArticleRow(a.id, a.title, a.subtitle, a.author, a.publishDate, a.heroImage)
  }

  /** `{ ...article, content }`. */
  function WithContent(r: ArticleRow, content: seq<ContentBlock>): Article
  {
    Article(r.id, r.title, r.subtitle, r.author, r.publishDate, r.heroImage, content)
  }

  lemma SplitThenJoin(a: Article)
    ensures WithContent(RowOf(a), a.content) == a
    ensures RowOf(a).id == a.id
  {
  }

  /** blocksToInsert: `content.map((block, index) => ({ ...block, article_id, block_order: index }))`. */
  function ToRows(articleId: string, content: seq<ContentBlock>): seq<BlockRow>
  {
    seq(|content|, i requires 0 <= i < |content| => BlockRow(content[i], articleId, i))
  }

  /** One row per block, in order, tagged with the parent and the index. */
  lemma ToRowsShape(articleId: string, content: seq<ContentBlock>)
    ensures |ToRows(articleId, content)| == |content|
    ensures forall i :: 0 <= i < |content| ==>
              ToRows(articleId, content)[i].block == content[i] &&
              ToRows(articleId, content)[i].articleId == articleId &&
              ToRows(articleId, content)[i].blockOrder == i
  {
  }

  /** `blocksData.filter(block => block.article_id === article.id)`. */
  function RowsOf(rows: seq<BlockRow>, id: string): (r: seq<BlockRow>)
    ensures |r| <= |rows|
    ensures forall x :: x in r ==> x in rows && x.articleId == id
  {
    if |rows| == 0 then []
    else if rows[0].articleId == id then [rows[0]] + RowsOf(rows[1..], id)
    else RowsOf(rows[1..], id)
  }

  /** `.map(({ article_id, block_order, ...rest }) => rest)`. */
  function Strip(rows: seq<BlockRow>): (blocks: seq<ContentBlock>)
    ensures |blocks| == |rows|
    ensures forall i :: 0 <= i < |rows| ==> blocks[i] == rows[i].block
  {
    if |rows| == 0 then [] else [rows[0].block] + Strip(rows[1..])
  }

  /** An article's content as reassembled from the rows read back. */
  function ContentOf(id: string, rows: seq<BlockRow>): seq<ContentBlock>
  {
    Strip(RowsOf(rows, id))
  }

  predicate Sorted(rows: seq<BlockRow>)
  {
    forall i, j :: 0 <= i < j < |rows| ==> rows[i].blockOrder <= rows[j].blockOrder
  }

  predicate StrictlySorted(rows: seq<BlockRow>)
  {
    forall i, j :: 0 <= i < j < |rows| ==> rows[i].blockOrder < rows[j].blockOrder
  }

  /** Inserts a row before the first row with a larger or equal position. */
  function InsertByOrder(x: BlockRow, s: seq<BlockRow>): (r: seq<BlockRow>)
    ensures multiset(r) == multiset(s) + multiset{x}
  {
    if |s| == 0 then [x]
    else if x.blockOrder <= s[0].blockOrder then [x] + s
    else
      assert s == [s[0]] + s[1..];
      [s[0]] + InsertByOrder(x, s[1..])
  }

  /** Every row of `s` sits at position `b` or later. */
  predicate AtLeast(b: int, s: seq<BlockRow>)
  {
    forall j :: 0 <= j < |s| ==> b <= s[j].blockOrder
  }

  lemma SortedCons(h: BlockRow, t: seq<BlockRow>)
    requires Sorted(t) && AtLeast(h.blockOrder, t)
    ensures Sorted([h] + t)
  {
    var r := [h] + t;
    forall i, j | 0 <= i < j < |r| ensures r[i].blockOrder <= r[j].blockOrder {
      assert r[j] == t[j - 1];
      if i > 0 {
        assert r[i] == t[i - 1];
      }
    }
  }

  lemma {:induction false} InsertAtLeast(x: BlockRow, s: seq<BlockRow>, b: int)
    requires b <= x.blockOrder && AtLeast(b, s)
    ensures AtLeast(b, InsertByOrder(x, s))
    decreases |s|
  {
    var r := InsertByOrder(x, s);
    if |s| > 0 && x.blockOrder > s[0].blockOrder {
      var tail := s[1..];
      assert AtLeast(b, tail) by {
        forall j | 0 <= j < |tail| ensures b <= tail[j].blockOrder {
          assert tail[j] == s[j + 1];
        }
      }
      InsertAtLeast(x, tail, b);
      var rest := InsertByOrder(x, tail);
      assert r == [s[0]] + rest;
      forall j | 0 <= j < |r| ensures b <= r[j].blockOrder {
        if j > 0 {
          assert r[j] == rest[j - 1];
        }
      }
    } else if |s| > 0 {
      assert r == [x] + s;
      forall j | 0 <= j < |r| ensures b <= r[j].blockOrder {
        if j > 0 {
          assert r[j] == s[j - 1];
        }
      }
    }
  }

  lemma {:induction false} InsertKeepsSorted(x: BlockRow, s: seq<BlockRow>)
    requires Sorted(s)
    ensures Sorted(InsertByOrder(x, s))
    decreases |s|
  {
    if |s| > 0 {
      if x.blockOrder <= s[0].blockOrder {
        assert AtLeast(x.blockOrder, s) by {
          forall j | 0 <= j < |s| ensures x.blockOrder <= s[j].blockOrder {
            if j > 0 {
              assert s[0].blockOrder <= s[j].blockOrder;
            }
          }
        }
        SortedCons(x, s);
      } else {
        var tail := s[1..];
        assert Sorted(tail) && AtLeast(s[0].blockOrder, tail) by {
          forall i, j | 0 <= i < j < |tail| ensures tail[i].blockOrder <= tail[j].blockOrder {
            assert tail[i] == s[i + 1] && tail[j] == s[j + 1];
          }
          forall j | 0 <= j < |tail| ensures s[0].blockOrder <= tail[j].blockOrder {
            assert tail[j] == s[j + 1];
          }
        }
        InsertKeepsSorted(x, tail);
        InsertAtLeast(x, tail, s[0].blockOrder);
        SortedCons(s[0], InsertByOrder(x, tail));
      }
    }
  }

  /** The rows of the whole table in ascending `block_order`, as the read query
      returns them. Rows with equal positions may come back in any order; this
      is one such order. `RoundTrip`, `ReadAfterReplace` and `OthersUnaffected`
      below hold for every sorted arrangement of the rows, not only this one. */
  function SortByOrder(s: seq<BlockRow>): (r: seq<BlockRow>)
    ensures Sorted(r)
    ensures multiset(r) == multiset(s)
  {
    if |s| == 0 then []
    else
      assert s == [s[0]] + s[1..];
      var sorted := SortByOrder(s[1..]);
      InsertKeepsSorted(s[0], sorted);
      InsertByOrder(s[0], sorted)
  }

  lemma {:induction false} RowsOfSorted(rows: seq<BlockRow>, id: string)
    requires Sorted(rows)
    ensures Sorted(RowsOf(rows, id))
  {
    if |rows| > 0 {
      RowsOfSorted(rows[1..], id);
      var rest := RowsOf(rows[1..], id);
      if rows[0].articleId == id {
        assert forall j :: 0 <= j < |rest| ==> rest[j] in rest;
        assert forall y :: y in rows[1..] ==> rows[0].blockOrder <= y.blockOrder;
      }
    }
  }

  /** The filter keeps each row of the parent as often as the table holds it. */
  lemma {:induction false} RowsOfMultiset(rows: seq<BlockRow>, id: string)
    ensures forall x :: multiset(RowsOf(rows, id))[x] == if x.articleId == id then multiset(rows)[x] else 0
  {
    if |rows| > 0 {
      RowsOfMultiset(rows[1..], id);
      assert rows == [rows[0]] + rows[1..];
      assert multiset(rows) == multiset{rows[0]} + multiset(rows[1..]);
    }
  }

  lemma RowsOfPermutation(s: seq<BlockRow>, t: seq<BlockRow>, id: string)
    requires multiset(s) == multiset(t)
    ensures multiset(RowsOf(s, id)) == multiset(RowsOf(t, id))
  {
    RowsOfMultiset(s, id);
    RowsOfMultiset(t, id);
  }

  lemma TailMultiset(s: seq<BlockRow>)
    requires |s| > 0
    ensures multiset(s[1..]) == multiset(s) - multiset{s[0]}
  {
    assert s == [s[0]] + s[1..];
  }

  /** A sorted and a strictly sorted arrangement of the same rows start alike. */
  lemma SameHead(s: seq<BlockRow>, t: seq<BlockRow>)
    requires Sorted(s) && StrictlySorted(t)
    requires multiset(s) == multiset(t) && |s| > 0 && |t| > 0
    ensures s[0] == t[0]
  {
    assert s[0] in multiset(t);
    var k :| 0 <= k < |t| && t[k] == s[0];
    assert t[0] in multiset(s);
    var m :| 0 <= m < |s| && s[m] == t[0];
    assert s[0].blockOrder <= s[m].blockOrder;
    assert k == 0;
  }

  lemma SortedTails(s: seq<BlockRow>, t: seq<BlockRow>)
    requires Sorted(s) && StrictlySorted(t) && |s| > 0 && |t| > 0
    ensures Sorted(s[1..]) && StrictlySorted(t[1..])
  {
    var s', t' := s[1..], t[1..];
    assert forall i :: 0 <= i < |s'| ==> s'[i] == s[i + 1];
    assert forall i :: 0 <= i < |t'| ==> t'[i] == t[i + 1];
  }

  /** A sorted sequence holding the same rows as a strictly sorted one is it. */
  lemma {:induction false} SortedPermutationUnique(s: seq<BlockRow>, t: seq<BlockRow>)
    requires Sorted(s) && StrictlySorted(t)
    requires multiset(s) == multiset(t)
    ensures s == t
    decreases |s|
  {
    assert |s| == |multiset(s)| == |multiset(t)| == |t|;
    if |s| > 0 {
      SameHead(s, t);
      TailMultiset(s);
      TailMultiset(t);
      SortedTails(s, t);
      assert s == [s[0]] + s[1..] && t == [t[0]] + t[1..];
      SortedPermutationUnique(s[1..], t[1..]);
    }
  }

  lemma {:induction false} RowsOfToRows(articleId: string, content: seq<ContentBlock>, other: string)
    ensures RowsOf(ToRows(articleId, content), other) == if other == articleId then ToRows(articleId, content) else []
    decreases |content|
  {
    if |content| > 0 {
      var rows := ToRows(articleId, content);
      var shifted := ToRows(articleId, content[1..]);
      RowsOfToRows(articleId, content[1..], other);
      // The tail rows are those of the tail, one position further on.
      assert forall x :: x in rows[1..] ==> x.articleId == articleId;
      if other != articleId {
        assert RowsOf(rows, other) == RowsOf(rows[1..], other);
        RowsOfNone(rows[1..], other);
      } else {
        RowsOfAll(rows[1..], other);
      }
    }
  }

  lemma {:induction false} RowsOfNone(rows: seq<BlockRow>, id: string)
    requires forall x :: x in rows ==> x.articleId != id
    ensures RowsOf(rows, id) == []
  {
    if |rows| > 0 {
      assert rows[0] in rows;
      RowsOfNone(rows[1..], id);
    }
  }

  lemma {:induction false} RowsOfAll(rows: seq<BlockRow>, id: string)
    requires forall x :: x in rows ==> x.articleId == id
    ensures RowsOf(rows, id) == rows
  {
    if |rows| > 0 {
      assert rows[0] in rows;
      RowsOfAll(rows[1..], id);
      assert [rows[0]] + rows[1..] == rows;
    }
  }

  lemma {:induction false} RowsOfConcat(s: seq<BlockRow>, t: seq<BlockRow>, id: string)
    ensures RowsOf(s + t, id) == RowsOf(s, id) + RowsOf(t, id)
  {
    if |s| == 0 {
      assert s + t == t;
    } else {
      var u := s + t;
      assert u[0] == s[0] && u[1..] == s[1..] + t;
      RowsOfConcat(s[1..], t, id);
      if s[0].articleId == id {
        assert RowsOf(u, id) == [s[0]] + RowsOf(s[1..] + t, id);
        assert RowsOf(s, id) == [s[0]] + RowsOf(s[1..], id);
      } else {
        assert RowsOf(u, id) == RowsOf(s[1..] + t, id);
        assert RowsOf(s, id) == RowsOf(s[1..], id);
      }
    }
  }

  /** Reassembling freshly serialised rows gives the content back. */
  lemma ContentOfToRows(articleId: string, content: seq<ContentBlock>)
    ensures ContentOf(articleId, ToRows(articleId, content)) == content
  {
    RowsOfToRows(articleId, content, articleId);
  }

  /** The round trip through the store: whatever else the table holds and in
      whichever order equal positions come back, a sorted read whose rows for
      the article are those written gives back exactly the written content. */
  lemma RoundTrip(articleId: string, content: seq<ContentBlock>, data: seq<BlockRow>)
    requires Sorted(data)
    requires multiset(RowsOf(data, articleId)) == multiset(ToRows(articleId, content))
    ensures ContentOf(articleId, data) == content
  {
    RowsOfSorted(data, articleId);
    SortedPermutationUnique(RowsOf(data, articleId), ToRows(articleId, content));
  }

  /** `delete().eq('article_id', id)`: every row of that parent goes. */
  function DeleteByParent(rows: seq<BlockRow>, id: string): (r: seq<BlockRow>)
    ensures forall x :: x in r <==> x in rows && x.articleId != id
  {
    if |rows| == 0 then []
    else
      assert forall x :: x in rows <==> x == rows[0] || x in rows[1..];
      if rows[0].articleId == id then DeleteByParent(rows[1..], id)
      else [rows[0]] + DeleteByParent(rows[1..], id)
  }

  lemma {:induction false} RowsOfDeleteByParent(rows: seq<BlockRow>, id: string, other: string)
    ensures RowsOf(DeleteByParent(rows, id), other) == if other == id then [] else RowsOf(rows, other)
  {
    if |rows| > 0 {
      RowsOfDeleteByParent(rows[1..], id, other);
    }
  }

  /** The block table after delete-by-parent then insert: the article's rows
      are exactly the new ones, and every other article's rows are as before. */
  lemma ReplaceAll(rows: seq<BlockRow>, id: string, content: seq<ContentBlock>, other: string)
    ensures RowsOf(DeleteByParent(rows, id) + ToRows(id, content), other) ==
            if other == id then ToRows(id, content) else RowsOf(rows, other)
  {
    RowsOfConcat(DeleteByParent(rows, id), ToRows(id, content), other);
    RowsOfDeleteByParent(rows, id, other);
    RowsOfToRows(id, content, other);
  }

  /** Reading the content back after a replace-all write returns the written
      content, whichever sorted arrangement of the table the read returns. */
  lemma ReadAfterReplace(rows: seq<BlockRow>, id: string, content: seq<ContentBlock>, data: seq<BlockRow>)
    requires Sorted(data)
    requires multiset(data) == multiset(DeleteByParent(rows, id) + ToRows(id, content))
    ensures ContentOf(id, data) == content
  {
    var written := DeleteByParent(rows, id) + ToRows(id, content);
    ReplaceAll(rows, id, content, id);
    RowsOfPermutation(data, written, id);
    RoundTrip(id, content, data);
  }

  /** Reading after writing: rows of other parents never enter an article's
      content, and another article's rows survive a replace-all untouched,
      whichever arrangement of the table the read returns. */
  lemma OthersUnaffected(rows: seq<BlockRow>, id: string, content: seq<ContentBlock>, other: string, data: seq<BlockRow>)
    requires other != id
    requires multiset(data) == multiset(DeleteByParent(rows, id) + ToRows(id, content))
    ensures multiset(RowsOf(data, other)) == multiset(RowsOf(rows, other))
  {
    var written := DeleteByParent(rows, id) + ToRows(id, content);
    ReplaceAll(rows, id, content, other);
    RowsOfPermutation(data, written, other);
  }
}
