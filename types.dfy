/** The content model: the four block variants, articles and subscribers. */
module Types {
  import opened Wrappers

  /** The block tag, a closed enumeration of four values. */
  datatype BlockType = Text | Image | Audio | Sponsorship

  /** The string value each enumeration member stands for. */
  function Tag(t: BlockType): string
  {
    match t
    case Text => "text"
    case Image => "image"
    case Audio => "audio"
    case Sponsorship => "sponsorship"
  }

  /** The tags are exactly four distinct strings. */
  lemma TagsDistinct()
    ensures forall t: BlockType, u: BlockType :: Tag(t) == Tag(u) ==> t == u
    ensures forall t: BlockType :: Tag(t) in {"text", "image", "audio", "sponsorship"}
    ensures |{Tag(Text), Tag(Image), Tag(Audio), Tag(Sponsorship)}| == 4
  {
  }

  /** A content block: one constructor per variant, each with `id` and its own fields. */
  datatype ContentBlock =
    | TextBlock(id: string, content: string)
    | ImageBlock(id: string, src: string, caption: string)
    | AudioBlock(id: string, src: string, title: string)
    | SponsorshipBlock(id: string, company: string, logoSrc: string, link: string)

  function TypeOf(b: ContentBlock): BlockType
  {
    match b
    case TextBlock(_, _) => Text
    case ImageBlock(_, _, _) => Image
    case AudioBlock(_, _, _) => Audio
    case SponsorshipBlock(_, _, _, _) => Sponsorship
  }

  /** The property names a block object can carry. */
  datatype Key = Id | Content | Src | Caption | Title | Company | LogoSrc | Link

  /** The keys of each variant's interface (the tag itself aside). */
  function KeysOf(t: BlockType): set<Key>
  {
    match t
    case Text => {Id, Content}
    case Image => {Id, Src, Caption}
    case Audio => {Id, Src, Title}
    case Sponsorship => {Id, Company, LogoSrc, Link}
  }

  /** Property access `block[k]`, None where the variant has no such property. */
  function Get(b: ContentBlock, k: Key): (v: Option<string>)
    ensures v.Some? <==> k in KeysOf(TypeOf(b))
    ensures k == Id ==> v == Some(b.id)
  {
    match (b, k)
    case (_, Id) => Some(b.id)
    case (TextBlock(_, c), Content) => Some(c)
    case (ImageBlock(_, s, _), Src) => Some(s)
    case (ImageBlock(_, _, c), Caption) => Some(c)
    case (AudioBlock(_, s, _), Src) => Some(s)
    case (AudioBlock(_, _, t), Title) => Some(t)
    case (SponsorshipBlock(_, c, _, _), Company) => Some(c)
    case (SponsorshipBlock(_, _, l, _), LogoSrc) => Some(l)
    case (SponsorshipBlock(_, _, _, l), Link) => Some(l)
    case _ => None
  }

  /** A block is determined by its variant and its property values. */
  lemma BlockExtensional(a: ContentBlock, b: ContentBlock)
    requires TypeOf(a) == TypeOf(b)
    requires forall k :: Get(a, k) == Get(b, k)
    ensures a == b
  {
    assert Get(a, Id) == Get(b, Id);
    match a
    case TextBlock(_, _) =>
      assert Get(a, Content) == Get(b, Content);
    case ImageBlock(_, _, _) =>
      assert Get(a, Src) == Get(b, Src);
      assert Get(a, Caption) == Get(b, Caption);
    case AudioBlock(_, _, _) =>
      assert Get(a, Src) == Get(b, Src);
      assert Get(a, Title) == Get(b, Title);
    case SponsorshipBlock(_, _, _, _) =>
      assert Get(a, Company) == Get(b, Company);
      assert Get(a, LogoSrc) == Get(b, LogoSrc);
      assert Get(a, Link) == Get(b, Link);
  }

  /** An article: six string fields and an ordered sequence of blocks. */
  datatype Article = Article(
    id: string,
    title: string,
    subtitle: string,
    author: string,
    publishDate: string,
    heroImage: string,
    content: seq<ContentBlock>)

  datatype Subscriber = Subscriber(name: string, email: string, subscribedAt: string)

  /** `articles.find(a => a.id === id)`: the first article with that id, if any. */
  function FindArticle(articles: seq<Article>, id: string): (r: Option<Article>)
    ensures r.None? <==> forall a :: a in articles ==> a.id != id
    ensures r.Some? ==> r.value.id == id && r.value in articles
    ensures r.Some? ==> exists k :: 0 <= k < |articles| && articles[k] == r.value &&
                                    forall j :: 0 <= j < k ==> articles[j].id != id
  {
    if |articles| == 0 then None
    else if articles[0].id == id then Some(articles[0])
    else
      var r := FindArticle(articles[1..], id);
      assert forall a :: a in articles ==> a == articles[0] || a in articles[1..];
      assert r.Some? ==> exists k :: 0 <= k < |articles| && articles[k] == r.value &&
                                     forall j :: 0 <= j < k ==> articles[j].id != id by {
        if r.Some? {
          var tail := articles[1..];
          var k :| 0 <= k < |tail| && tail[k] == r.value && forall j :: 0 <= j < k ==> tail[j].id != id;
          assert articles[k + 1] == r.value;
          forall j | 0 <= j < k + 1 ensures articles[j].id != id {
            if j > 0 {
              assert articles[j] == tail[j - 1];
            }
          }
        }
      }
      r
  }

  /** When every article with the id is `a` and there is one, `find` gives `a`. */
  lemma FindUniform(articles: seq<Article>, a: Article)
    requires exists k :: 0 <= k < |articles| && articles[k].id == a.id
    requires forall k :: 0 <= k < |articles| && articles[k].id == a.id ==> articles[k] == a
    ensures FindArticle(articles, a.id) == Some(a)
  {
  }
}
