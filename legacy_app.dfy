/** The single-page App shell: its older two-column subscriber export, the
    blank article of the editor route and the update-or-add rule on save. */
module LegacyApp {
  import opened Wrappers
  import opened Types
  import opened Text
  import opened CsvRead
  import DashboardCsv
  import MockData

  const LegacyHeader := "email,subscribedAt"

  /** One export line: email and date between quotes, nothing escaped. */
  function LegacyRow(s: Subscriber): string
  {
    "\"" + s.email + "\",\"" + s.subscribedAt + "\""
  }

  function LegacyRows(subs: seq<Subscriber>): (r: seq<string>)
    ensures |r| == |subs| && forall i :: 0 <= i < |subs| ==> r[i] == LegacyRow(subs[i])
  {
    seq(|subs|, i requires 0 <= i < |subs| => LegacyRow(subs[i]))
  }

  /** handleDownloadCsv's text; an empty list yields no file. */
  function LegacyCsv(subs: seq<Subscriber>): (r: Option<string>)
    ensures r.None? <==> |subs| == 0
    ensures r.Some? ==> |r.value| > |LegacyHeader| && r.value[..|LegacyHeader| + 1] == LegacyHeader + "\n"
  {
    if |subs| == 0 then None
    else
      var text := LegacyHeader + "\n" + Join(LegacyRows(subs), "\n");
      assert text[..|LegacyHeader| + 1] == LegacyHeader + "\n";
      Some(text)
  }

  /** Split at its newlines, the file is the header and one line per subscriber. */
  lemma LegacyCsvLines(subs: seq<Subscriber>)
    requires |subs| > 0
    requires forall i :: 0 <= i < |subs| ==> '\n' !in subs[i].email && '\n' !in subs[i].subscribedAt
    ensures Split(LegacyCsv(subs).value, '\n') == [LegacyHeader] + LegacyRows(subs)
  {
    var lines := [LegacyHeader] + LegacyRows(subs);
    forall i | 0 <= i < |lines| ensures '\n' !in lines[i] {
      if i > 0 {
        var s := subs[i - 1];
        assert lines[i] == "\"" + s.email + "\",\"" + s.subscribedAt + "\"";
      }
    }
    assert lines[1..] == LegacyRows(subs);
    assert Join(lines, "\n") == LegacyHeader + "\n" + Join(LegacyRows(subs), "\n");
    SplitJoin(lines, '\n');
  }

  lemma LegacyRowAsFields(e: string, t: string)
    ensures "\"" + e + "\",\"" + t + "\"" == DashboardCsv.Quoted(e) + "," + DashboardCsv.Quoted(t)
  {
    assert "\",\"" == "\"" + "," + "\"";
  }

  /** A line reads back as its two fields when neither holds a quote. */
  lemma LegacyRowReadsBack(s: Subscriber)
    requires '"' !in s.email && '"' !in s.subscribedAt
    ensures ReadFields(LegacyRow(s)) == Some([s.email, s.subscribedAt])
  {
    var vs := [s.email, s.subscribedAt];
    DashboardCsv.EscapeWithoutQuotes(s.email);
    DashboardCsv.EscapeWithoutQuotes(s.subscribedAt);
    var q := DashboardCsv.QuotedAll(vs);
    assert q[0] == DashboardCsv.Quoted(s.email) && q[1] == DashboardCsv.Quoted(s.subscribedAt);
    DashboardCsv.JoinTwo(q, ",");
    LegacyRowAsFields(s.email, s.subscribedAt);
    DashboardCsv.ReadQuotedFields(vs);
  }

  const DefaultAuthor := "A. Vanderbilt"

  /** newArticleTemplate, with the timestamp and the formatted date as inputs. */
  function NewArticleTemplate(stamp: string, today: string): (a: Article)
    ensures a.id == "new-article-" + stamp
    ensures a.title == "" && a.subtitle == "" && a.heroImage == "" && a.content == []
    ensures a.author == DefaultAuthor && a.publishDate == today
  {
    Article("new-article-" + stamp, "", "", DefaultAuthor, today, "", [])
  }

  /** `id ? getArticle(id) : null`, falling back to the template. */
  function ArticleToEdit(articles: seq<Article>, routeId: Option<string>, stamp: string, today: string): (a: Article)
    ensures routeId.Some? && routeId.value != "" && FindArticle(articles, routeId.value).Some? ==>
              a == FindArticle(articles, routeId.value).value && a in articles && a.id == routeId.value
    ensures (routeId.None? || routeId.value == "" || FindArticle(articles, routeId.value).None?) ==>
              a == NewArticleTemplate(stamp, today)
  {
    var found := if routeId.Some? && routeId.value != "" then FindArticle(articles, routeId.value) else None;
    match found
    case Some(a) => a
    case None => NewArticleTemplate(stamp, today)
  }

  datatype SaveCall = Update(article: Article) | Add(article: Article)

  /** True when the route names an existing article: `id && id !== 'new'`. */
  predicate IsExistingRoute(routeId: Option<string>)
  {
    routeId.Some? && routeId.value != "" && routeId.value != "new"
  }

  /** EditorPage.handleSave: the edited article goes unchanged to the update
      path, or to the add path with a fresh `article-` id. */
  function DispatchSave(routeId: Option<string>, edited: Article, stamp: string): (c: SaveCall)
    ensures c.Update? <==> IsExistingRoute(routeId)
    ensures c.Update? ==> c.article == edited
    ensures c.Add? ==> c.article.id == "article-" + stamp && c.article.(id := edited.id) == edited
  {
    if IsExistingRoute(routeId) then Update(edited) else Add(edited.(id := "article-" + stamp))
  }

  /** The App's store after a save: the call applied to the in-memory list. */
  function AfterSave(articles: seq<Article>, routeId: Option<string>, edited: Article, stamp: string): seq<Article>
  {
    match DispatchSave(routeId, edited, stamp)
    case Update(a) => MockData.ReplaceById(articles, a)
    case Add(a) => [a] + articles
  }

  /** Whichever path a save takes, the saved article is what its id now finds,
      as long as an update names an article the list holds. */
  lemma SavedArticleIsFound(articles: seq<Article>, routeId: Option<string>, edited: Article, stamp: string)
    requires IsExistingRoute(routeId) ==> exists x :: x in articles && x.id == edited.id
    ensures var c := DispatchSave(routeId, edited, stamp);
            FindArticle(AfterSave(articles, routeId, edited, stamp), c.article.id) == Some(c.article)
  {
    if IsExistingRoute(routeId) {
      MockData.GetAfterUpdate(articles, edited);
    }
  }
}
