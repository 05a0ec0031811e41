/** The in-memory data hook: an articles list replaced wholesale by each update. */
module MockData {
  import opened Wrappers
  import opened Types

  /** The updater of updateArticle: `prev.map(x => x.id === a.id ? a : x)`. */
  function ReplaceById(articles: seq<Article>, a: Article): (r: seq<Article>)
    ensures |r| == |articles|
    ensures forall k :: 0 <= k < |articles| ==> r[k] == if articles[k].id == a.id then a else articles[k]
  {
    if |articles| == 0 then []
    else [if articles[0].id == a.id then a else articles[0]] + ReplaceById(articles[1..], a)
  }

  /** With no article of that id the list is unchanged. */
  lemma ReplaceMissing(articles: seq<Article>, a: Article)
    requires forall x :: x in articles ==> x.id != a.id
    ensures ReplaceById(articles, a) == articles
  {
    assert forall k :: 0 <= k < |articles| ==> articles[k] in articles;
  }

  /** After updating an article that is in the list, looking it up gives the update. */
  lemma GetAfterUpdate(articles: seq<Article>, a: Article)
    requires exists x :: x in articles && x.id == a.id
    ensures FindArticle(ReplaceById(articles, a), a.id) == Some(a)
  {
    var x :| x in articles && x.id == a.id;
    var k :| 0 <= k < |articles| && articles[k] == x;
    FindUniform(ReplaceById(articles, a), a);
  }

  /** Looking up any other id gives what it gave before the update. */
  lemma {:induction false} GetOtherAfterUpdate(articles: seq<Article>, a: Article, id: string)
    requires id != a.id
    ensures FindArticle(ReplaceById(articles, a), id) == FindArticle(articles, id)
  {
    if |articles| > 0 {
      GetOtherAfterUpdate(articles[1..], a, id);
      assert ReplaceById(articles, a)[1..] == ReplaceById(articles[1..], a);
    }
  }

  /** After adding, the new article's id finds the new article, which shadows
      any older article with the same id; every other id finds what it found. */
  lemma GetAfterAdd(articles: seq<Article>, a: Article)
    ensures FindArticle([a] + articles, a.id) == Some(a)
    ensures forall id :: id != a.id ==> FindArticle([a] + articles, id) == FindArticle(articles, id)
  {
    assert ([a] + articles)[1..] == articles;
  }

  class MockDataHook {
    var articles: seq<Article>

    /** The hook over its initial list. */
    constructor (initial: seq<Article>)
      ensures articles == initial
    {
      articles := initial;
    }

    /** getArticle: the first article of the current list with that id. */
    function GetArticle(id: string): (r: Option<Article>)
      reads this
      ensures r.None? <==> forall x :: x in articles ==> x.id != id
      ensures r.Some? ==> r.value in articles && r.value.id == id
    {
      FindArticle(articles, id)
    }

    method UpdateArticle(a: Article)
      modifies this
      ensures articles == ReplaceById(old(articles), a)
    {
      articles := ReplaceById(articles, a);
    }

    /** addArticle: `[a, ...prev]`. */
    method AddArticle(a: Article)
      modifies this
      ensures articles == [a] + old(articles)
    {
      articles := [a] + articles;
    }
  }
}
