/** The Supabase-backed data hook. The hosted store is modelled as two
    in-memory tables; whether each store call succeeds is an input. */
module SupabaseData {
  import opened Wrappers
  import opened Types
  import opened BlockRows

  /** `update(articleData).eq('id', articleData.id)` on the articles table. */
  function UpdateRows(rows: seq<ArticleRow>, data: ArticleRow): (r: seq<ArticleRow>)
    ensures |r| == |rows|
    ensures forall k :: 0 <= k < |rows| ==> r[k] == if rows[k].id == data.id then data else rows[k]
  {
    if |rows| == 0 then [] else [if rows[0].id == data.id then data else rows[0]] + UpdateRows(rows[1..], data)
  }

  /** `delete().eq('id', id)` on the articles table. */
  function DeleteRows(rows: seq<ArticleRow>, id: string): (r: seq<ArticleRow>)
    ensures forall x :: x in r <==> x in rows && x.id != id
  {
    if |rows| == 0 then []
    else
      assert forall x :: x in rows <==> x == rows[0] || x in rows[1..];
      if rows[0].id == id then DeleteRows(rows[1..], id) else [rows[0]] + DeleteRows(rows[1..], id)
  }

  /** fetchArticles' assembly: each article row with the blocks read for it. */
  function Assemble(articleRows: seq<ArticleRow>, blocksData: seq<BlockRow>): (r: seq<Article>)
    ensures |r| == |articleRows|
    ensures forall k :: 0 <= k < |r| ==>
              RowOf(r[k]) == articleRows[k] && r[k].content == ContentOf(articleRows[k].id, blocksData)
  {
    seq(|articleRows|, k requires 0 <= k < |articleRows| =>
      WithContent(articleRows[k], ContentOf(articleRows[k].id, blocksData)))
  }

  /** The articles list a successful fetch produces from the two tables. */
  function Fetched(articleRows: seq<ArticleRow>, blockRows: seq<BlockRow>): seq<Article>
  {
    Assemble(articleRows, SortByOrder(blockRows))
  }

  /** After a fully successful update of an article that has a row, looking
      its id up in the refreshed list gives exactly the saved article. */
  lemma GetAfterUpdate(articleRows: seq<ArticleRow>, blockRows: seq<BlockRow>, a: Article)
    requires exists k :: 0 <= k < |articleRows| && articleRows[k].id == a.id
    ensures FindArticle(Fetched(UpdateRows(articleRows, RowOf(a)),
                                DeleteByParent(blockRows, a.id) + ToRows(a.id, a.content)), a.id) == Some(a)
  {
    var rows := UpdateRows(articleRows, RowOf(a));
    var list := Fetched(rows, DeleteByParent(blockRows, a.id) + ToRows(a.id, a.content));
    ReadAfterReplace(blockRows, a.id, a.content, SortByOrder(DeleteByParent(blockRows, a.id) + ToRows(a.id, a.content)));
    var k :| 0 <= k < |articleRows| && articleRows[k].id == a.id;
    assert list[k].id == RowOf(list[k]).id == a.id;
    forall j | 0 <= j < |list| && list[j].id == a.id ensures list[j] == a {
      assert RowOf(list[j]) == rows[j] == RowOf(a);
      assert list[j] == WithContent(RowOf(list[j]), list[j].content);
    }
    FindUniform(list, a);
  }

  /** Blocks written for an id no other row carries read back as written,
      whichever sorted arrangement of the table the read returns. */
  lemma ReadAfterAdd(blockRows: seq<BlockRow>, id: string, content: seq<ContentBlock>, data: seq<BlockRow>)
    requires forall x :: x in blockRows ==> x.articleId != id
    requires Sorted(data) && multiset(data) == multiset(blockRows + ToRows(id, content))
    ensures ContentOf(id, data) == content
  {
    var written := blockRows + ToRows(id, content);
    RowsOfNone(blockRows, id);
    RowsOfConcat(blockRows, ToRows(id, content), id);
    RowsOfToRows(id, content, id);
    RowsOfPermutation(data, written, id);
    RoundTrip(id, content, data);
  }

  /** A new article whose id is in neither table is found, with its content,
      after a fully successful add. */
  lemma GetAfterAdd(articleRows: seq<ArticleRow>, blockRows: seq<BlockRow>, a: Article)
    requires forall x :: x in articleRows ==> x.id != a.id
    requires forall x :: x in blockRows ==> x.articleId != a.id
    ensures FindArticle(Fetched(articleRows + [RowOf(a)], blockRows + ToRows(a.id, a.content)), a.id) == Some(a)
  {
    var rows := articleRows + [RowOf(a)];
    var list := Fetched(rows, blockRows + ToRows(a.id, a.content));
    ReadAfterAdd(blockRows, a.id, a.content, SortByOrder(blockRows + ToRows(a.id, a.content)));
    var n := |articleRows|;
    assert RowOf(list[n]) == RowOf(a);
    assert forall j :: 0 <= j < n ==> rows[j] == articleRows[j] && rows[j] in articleRows;
    forall j | 0 <= j < |list| && list[j].id == a.id ensures list[j] == a {
      assert RowOf(list[j]) == rows[j];
      assert list[j] == WithContent(RowOf(list[j]), list[j].content);
    }
    FindUniform(list, a);
  }

  /** After a successful delete the id is no longer found. */
  lemma GetAfterDelete(articleRows: seq<ArticleRow>, blockRows: seq<BlockRow>, id: string)
    ensures FindArticle(Fetched(DeleteRows(articleRows, id), blockRows), id) == None
  {
    var rows := DeleteRows(articleRows, id);
    var list := Fetched(rows, blockRows);
    forall x | x in list ensures x.id != id {
      var j :| 0 <= j < |list| && list[j] == x;
      assert RowOf(list[j]) == rows[j];
      assert rows[j] in rows;
    }
  }

  /** The two remote tables. */
  class Backend {
    var articles: seq<ArticleRow>
    var contentBlocks: seq<BlockRow>

    constructor (articleRows: seq<ArticleRow>, blockRows: seq<BlockRow>)
      ensures articles == articleRows && contentBlocks == blockRows
    {
      articles := articleRows;
      contentBlocks := blockRows;
    }
  }

  /** Whether each of fetchArticles' two queries succeeds. */
  datatype FetchReplies = FetchReplies(articlesOk: bool, blocksOk: bool)

  /** The state of one useSupabaseData hook: the cached articles list and the
      loading flag, over the store `db`. */
  class SupabaseDataHook {
    var articles: seq<Article>
    var loading: bool
    const db: Backend

    constructor (store: Backend)
      ensures db == store && articles == [] && loading
    {
      db := store;
      articles := [];
      loading := true;
    }

    /** `articles.find(a => a.id === id)` over the cached list. */
    function GetArticle(id: string): (r: Option<Article>)
      reads this
      ensures r.None? <==> forall x :: x in articles ==> x.id != id
      ensures r.Some? ==> r.value in articles && r.value.id == id
    {
      FindArticle(articles, id)
    }

    /** fetchArticles: either query failing keeps the previous list; loading
        ends false either way. */
    method FetchArticles(replies: FetchReplies)
      modifies this
      ensures !loading
      ensures articles == if replies.articlesOk && replies.blocksOk
                          then Fetched(db.articles, db.contentBlocks) else old(articles)
    {
      loading := true;
      if !replies.articlesOk {
        loading := false;
        return;
      }
      var articlesData := db.articles;
      if !replies.blocksOk {
        loading := false;
        return;
      }
      var blocksData := SortByOrder(db.contentBlocks);
      articles := Assemble(articlesData, blocksData);
      loading := false;
    }

    /** updateArticle: update the article row, then delete its block rows,
        then insert the new ones, stopping at the first failed step; only a
        fully successful write refreshes the list. */
    method UpdateArticle(a: Article, updateOk: bool, deleteOk: bool, insertOk: bool, refresh: FetchReplies)
      modifies this, db
      ensures db.articles == if updateOk then UpdateRows(old(db.articles), RowOf(a)) else old(db.articles)
      ensures db.contentBlocks ==
                if !updateOk || !deleteOk then old(db.contentBlocks)
                else if !insertOk then DeleteByParent(old(db.contentBlocks), a.id)
                else DeleteByParent(old(db.contentBlocks), a.id) + ToRows(a.id, a.content)
      ensures updateOk && deleteOk && insertOk ==>
                !loading &&
                articles == if refresh.articlesOk && refresh.blocksOk
                            then Fetched(db.articles, db.contentBlocks) else old(articles)
      ensures !(updateOk && deleteOk && insertOk) ==> articles == old(articles) && loading == old(loading)
    {
      var data := RowOf(a);
      if !updateOk {
        return;
      }
      db.articles := UpdateRows(db.articles, data);
      if !deleteOk {
        return;
      }
      db.contentBlocks := DeleteByParent(db.contentBlocks, data.id);
      var blocksToInsert := ToRows(data.id, a.content);
      if !insertOk {
        return;
      }
      db.contentBlocks := db.contentBlocks + blocksToInsert;
      FetchArticles(refresh);
    }

    /** addArticle: insert the article row, then, only when there is content,
        its block rows; a failed step returns before the refresh. */
    method AddArticle(a: Article, insertOk: bool, blocksOk: bool, refresh: FetchReplies)
      modifies this, db
      ensures db.articles == if insertOk then old(db.articles) + [RowOf(a)] else old(db.articles)
      ensures db.contentBlocks ==
                if insertOk && |a.content| > 0 && blocksOk
                then old(db.contentBlocks) + ToRows(a.id, a.content) else old(db.contentBlocks)
      ensures var done := insertOk && (|a.content| == 0 || blocksOk);
              if done then
                !loading &&
                articles == if refresh.articlesOk && refresh.blocksOk
                            then Fetched(db.articles, db.contentBlocks) else old(articles)
              else articles == old(articles) && loading == old(loading)
    {
      var data := RowOf(a);
      if !insertOk {
        return;
      }
      db.articles := db.articles + [data];
      if |a.content| > 0 {
        var blocksToInsert := ToRows(data.id, a.content);
        if !blocksOk {
          return;
        }
        db.contentBlocks := db.contentBlocks + blocksToInsert;
      }
      FetchArticles(refresh);
    }

    /** deleteArticle: removes the article rows with the id and nothing else;
        its block rows stay in the blocks table. */
    method DeleteArticle(id: string, deleteOk: bool, refresh: FetchReplies)
      modifies this, db
      ensures db.articles == if deleteOk then DeleteRows(old(db.articles), id) else old(db.articles)
      ensures db.contentBlocks == old(db.contentBlocks)
      ensures deleteOk ==>
                !loading &&
                articles == if refresh.articlesOk && refresh.blocksOk
                            then Fetched(db.articles, db.contentBlocks) else old(articles)
      ensures !deleteOk ==> articles == old(articles) && loading == old(loading)
    {
      if !deleteOk {
        return;
      }
      db.articles := DeleteRows(db.articles, id);
      FetchArticles(refresh);
    }
  }
}
