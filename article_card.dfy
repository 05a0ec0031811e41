/** The article card of the public home page: its "date · author" line and
    its hero image. */
module ArticleCard {
  import opened Wrappers
  import opened Types
  import opened Text

  /** The characters `String.prototype.trim` removes: ECMAScript WhiteSpace and
      LineTerminator code points. */
  const JsWhitespace: set<char> := {
    '\t', '\n', '\U{000B}', '\U{000C}', '\r', ' ', '\U{00A0}', '\U{1680}',
    '\U{2000}', '\U{2001}', '\U{2002}', '\U{2003}', '\U{2004}', '\U{2005}',
    '\U{2006}', '\U{2007}', '\U{2008}', '\U{2009}', '\U{200A}',
    '\U{2028}', '\U{2029}', '\U{202F}', '\U{205F}', '\U{3000}', '\U{FEFF}'
  }

  predicate IsJsWhitespace(c: char)
  {
    c in JsWhitespace
  }

  predicate Blank(s: string)
  {
    forall i :: 0 <= i < |s| ==> IsJsWhitespace(s[i])
  }

  /** How many whitespace characters `s` starts with. */
  function LeadingBlanks(s: string): (n: nat)
    ensures n <= |s|
  {
    if |s| == 0 || !IsJsWhitespace(s[0]) then 0 else 1 + LeadingBlanks(s[1..])
  }

  /** How many whitespace characters `s` ends with. */
  function TrailingBlanks(s: string): (n: nat)
    ensures n <= |s|
  {
    if |s| == 0 || !IsJsWhitespace(s[|s| - 1]) then 0 else 1 + TrailingBlanks(s[..|s| - 1])
  }

  /** The leading run is whitespace and is followed by a character that is not. */
  lemma {:induction false} LeadingBlanksRun(s: string)
    ensures forall i :: 0 <= i < LeadingBlanks(s) ==> IsJsWhitespace(s[i])
    ensures LeadingBlanks(s) < |s| ==> !IsJsWhitespace(s[LeadingBlanks(s)])
  {
    if |s| > 0 && IsJsWhitespace(s[0]) {
      var tail := s[1..];
      LeadingBlanksRun(tail);
      assert forall i :: 0 < i <= LeadingBlanks(tail) ==> s[i] == tail[i - 1];
    }
  }

  /** The trailing run is whitespace and is preceded by a character that is not. */
  lemma {:induction false} TrailingBlanksRun(s: string)
    ensures forall i :: |s| - TrailingBlanks(s) <= i < |s| ==> IsJsWhitespace(s[i])
    ensures TrailingBlanks(s) < |s| ==> !IsJsWhitespace(s[|s| - TrailingBlanks(s) - 1])
  {
    if |s| > 0 && IsJsWhitespace(s[|s| - 1]) {
      var init := s[..|s| - 1];
      TrailingBlanksRun(init);
      assert forall i :: 0 <= i < |init| ==> s[i] == init[i];
    }
  }

  function TrimStart(s: string): string
  {
    s[LeadingBlanks(s)..]
  }

  function TrimEnd(s: string): string
  {
    s[..|s| - TrailingBlanks(s)]
  }

  /** `s.trim()`. */
  function Trim(s: string): string
  {
    TrimEnd(TrimStart(s))
  }

  /** A piece survives the filter exactly when it is not all whitespace. */
  lemma TrimEmptyIffBlank(s: string)
    ensures |Trim(s)| > 0 <==> !Blank(s)
  {
    var t := TrimStart(s);
    LeadingBlanksRun(s);
    TrailingBlanksRun(t);
    assert |t| > 0 ==> t[0] == s[LeadingBlanks(s)];
  }

  predicate Kept(piece: string)
  {
    |Trim(piece)| > 0
  }

  /** `[publishDate, author].filter(p => p.trim().length > 0)`. */
  function MetaPieces(a: Article): seq<string>
  {
    (if Kept(a.publishDate) then [a.publishDate] else []) + (if Kept(a.author) then [a.author] else [])
  }

  const Separator := " \U{00B7} "

  /** The meta line, shown only when some piece remains. */
  function MetaLine(a: Article): Option<string>
  {
    Shown(MetaPieces(a))
  }

  function Shown(pieces: seq<string>): Option<string>
  {
    if |pieces| == 0 then None else Some(Join(pieces, Separator))
  }

  /** The pieces are the non-blank ones among date and author, in that order. */
  lemma MetaPiecesNonBlank(a: Article)
    ensures MetaPieces(a) == (if Blank(a.publishDate) then [] else [a.publishDate]) +
                             (if Blank(a.author) then [] else [a.author])
  {
    TrimEmptyIffBlank(a.publishDate);
    TrimEmptyIffBlank(a.author);
  }

  /** Showing date and author with the dropped ones left out, by cases. */
  lemma ShownCases(d: string, w: string, dropD: bool, dropW: bool)
    ensures var s := Shown((if dropD then [] else [d]) + (if dropW then [] else [w]));
            (s.None? <==> dropD && dropW) &&
            (!dropD && !dropW ==> s == Some(d + Separator + w)) &&
            (!dropD && dropW ==> s == Some(d)) &&
            (dropD && !dropW ==> s == Some(w))
  {
    var p := (if dropD then [] else [d]) + (if dropW then [] else [w]);
    if !dropD && !dropW {
      assert p == [d, w];
      assert p[1..] == [w];
      assert Join(p[1..], Separator) == w;
      assert Join(p, Separator) == d + Separator + w;
    } else if !dropD {
      assert p == [d];
    } else if !dropW {
      assert p == [w];
    }
  }

  /** The meta line by cases: date then author, blank pieces dropped, the
      untrimmed pieces joined with a middle dot between spaces. */
  lemma MetaLineCases(a: Article)
    ensures MetaLine(a).None? <==> Blank(a.publishDate) && Blank(a.author)
    ensures !Blank(a.publishDate) && !Blank(a.author) ==> MetaLine(a) == Some(a.publishDate + Separator + a.author)
    ensures !Blank(a.publishDate) && Blank(a.author) ==> MetaLine(a) == Some(a.publishDate)
    ensures Blank(a.publishDate) && !Blank(a.author) ==> MetaLine(a) == Some(a.author)
  {
    MetaPiecesNonBlank(a);
    ShownCases(a.publishDate, a.author, Blank(a.publishDate), Blank(a.author));
  }

  datatype HeroView = Picture(src: string, alt: string) | Placeholder

  /** The hero image, or the "coming soon" placeholder when there is none. */
  function Hero(a: Article): (h: HeroView)
    ensures h.Placeholder? <==> a.heroImage == ""
    ensures h.Picture? ==> h.src == a.heroImage
    ensures h.Picture? ==> h.alt == if a.title == "" then "Article hero image" else a.title
  {
    if a.heroImage == "" then Placeholder
    else Picture(a.heroImage, if a.title == "" then "Article hero image" else a.title)
  }
}
