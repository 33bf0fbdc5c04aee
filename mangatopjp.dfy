/** core/src/sites/mangatopjp.rs: the mangatopjp.com handler. */
module MangaTopJpSite {
  import opened Wrappers
  import opened Seqs
  import opened Regex
  import opened Sites

  const Name: string := "mangatopjp.com"
  /** Site-relative hrefs are made absolute by prefixing this. */
  const Origin: string := "https://mangatopjp.com"
  const MangaPrefix: string := "https://mangatopjp.com/manga/"

  /** `^https://mangatopjp\.com/manga/[^/]+/$` */
  predicate CanHandleChapters(url: string) {
    Matches(Lit(MangaPrefix) + SegmentsPattern(1), url)
  }

  /** `^https://mangatopjp\.com/manga/[^/]+/[^/]+/$` */
  predicate CanHandleImages(url: string) {
    Matches(Lit(MangaPrefix) + SegmentsPattern(2), url)
  }

  /** A manga URL has one segment after "/manga/", a chapter URL two; no URL is both. */
  lemma UrlKindsDisjoint(url: string)
    ensures CanHandleChapters(url) <==>
      |MangaPrefix| <= |url| && url[..|MangaPrefix|] == MangaPrefix && Segments(url[|MangaPrefix|..], 1)
    ensures CanHandleImages(url) <==>
      |MangaPrefix| <= |url| && url[..|MangaPrefix|] == MangaPrefix && Segments(url[|MangaPrefix|..], 2)
    ensures !(CanHandleChapters(url) && CanHandleImages(url))
  {
    MatchesPrefixed(MangaPrefix, 1, url);
    MatchesPrefixed(MangaPrefix, 2, url);
    if |MangaPrefix| <= |url| {
      SegmentsDisjoint(url[|MangaPrefix|..], 1, 2);
    }
  }

  /** An absolute URL built from an href is handled exactly when the href is "/manga/" and n segments. */
  lemma OriginRoundTrip(href: string, n: nat)
    ensures Matches(Lit(MangaPrefix) + SegmentsPattern(n), Origin + href) <==>
      |"/manga/"| <= |href| && href[..7] == "/manga/" && Segments(href[7..], n)
  {
    assert MangaPrefix == Origin + "/manga/";
    MatchesAfterOrigin(Origin, "/manga/", SegmentsPattern(n), href);
    MatchesPrefixed("/manga/", n, href);
  }

  /** One `.list-manga .it-left a` and the first `img` inside it. */
  datatype SearchItem = SearchItem(link: Elem, image: Option<Elem>)

  function SearchEntry(item: SearchItem): Option<Link> {
    match (Attr(item.link, "title"), Attr(item.link, "href"))
    case (Some(title), Some(href)) => Some(Link(title, Origin + href, AttrOf(item.image, "src")))
    case _ => None
  }

  function Search(items: seq<SearchItem>): seq<Link> {
    FilterMap(SearchEntry, items)
  }

  /** A result comes from a link with a title and an href; its URL is the href made absolute. */
  lemma SearchResults(items: seq<SearchItem>, l: Link)
    ensures l in Search(items) <==>
      exists i :: 0 <= i < |items| && Attr(items[i].link, "title") == Some(l.text) &&
        Attr(items[i].link, "href").Some? && l.url == Origin + Attr(items[i].link, "href").value &&
        l.image == AttrOf(items[i].image, "src")
  {
    FilterMapMember(SearchEntry, items, l);
  }

  /** One `.chapter-item a` and the first `.ct-name` inside it. */
  datatype ChapterItem = ChapterItem(link: Elem, name: Option<Elem>)

  function ChapterEntry(item: ChapterItem): Option<Link> {
    var title := match item.name case Some(n) => n.firstText case None => None;
    match (title, Attr(item.link, "href"))
    case (Some(t), Some(href)) => Some(Link(t, Origin + href, None))
    case _ => None
  }

  function Chapters(items: seq<ChapterItem>): seq<Link> {
    FilterMap(ChapterEntry, items)
  }

  /** A chapter comes from a link with an href and a named `.ct-name`; its URL is the href made absolute. */
  lemma ChapterResults(items: seq<ChapterItem>, l: Link)
    ensures l in Chapters(items) <==>
      exists i :: 0 <= i < |items| && items[i].name.Some? &&
        items[i].name.value.firstText == Some(l.text) &&
        Attr(items[i].link, "href").Some? && l.url == Origin + Attr(items[i].link, "href").value &&
        l.image == None
  {
    FilterMapMember(ChapterEntry, items, l);
  }

  /** `images`: the data-src of every `.chapter-content img` that has one, in page order. */
  function Images(imgs: seq<Elem>): (r: Result<seq<string>, string>)
    ensures r.Ok?
    ensures forall v :: v in r.value <==> exists i :: 0 <= i < |imgs| && Attr(imgs[i], "data-src") == Some(v)
  {
    AttrValuesSpec(imgs, "data-src");
    Ok(AttrValues(imgs, "data-src"))
  }
}
