/** core/src/sites/jmangaorg.rs: the jmanga.org handler. */
module JmangaorgSite {
  import opened Wrappers
  import opened Seqs
  import opened Text
  import opened Regex
  import opened Sites

  const Name: string := "jmanga.org"
  const ChaptersPrefix: string := "https://jmanga.org/read/"
  const ImagesPrefix: string := "https://jmanga.org/json/chapter?mode=vertical&id="

  /** `^https://jmanga\.org/read/[^/]+/$` */
  predicate CanHandleChapters(url: string) {
    Matches(Lit(ChaptersPrefix) + SegmentsPattern(1), url)
  }

  /** `^https://jmanga\.org/json/chapter\?mode=vertical&id=\d+$` */
  predicate CanHandleImages(url: string) {
    Matches(Lit(ImagesPrefix) + [Plus(Digit)], url)
  }

  lemma ChaptersUrlShape(url: string)
    ensures CanHandleChapters(url) <==>
      |ChaptersPrefix| <= |url| && url[..|ChaptersPrefix|] == ChaptersPrefix && Segments(url[|ChaptersPrefix|..], 1)
  {
    MatchesPrefixed(ChaptersPrefix, 1, url);
  }

  /** An images URL is the prefix and a non-empty run of decimal digits: exactly the URL built from such an id. */
  lemma ImagesUrlRoundTrip(id: string)
    ensures CanHandleImages(ImagesPrefix + id) <==>
      id != [] && forall i :: 0 <= i < |id| ==> IsDecimalDigit(id[i])
  {
    var url := ImagesPrefix + id;
    MatchesLit(ImagesPrefix, [Plus(Digit)], url);
    assert url[..|ImagesPrefix|] == ImagesPrefix && url[|ImagesPrefix|..] == id;
    MatchesPlusAll(Digit, id);
  }

  /** The two URL kinds differ at "read/" / "json/", so no URL is both. */
  lemma UrlKindsDisjoint(url: string)
    ensures !(CanHandleChapters(url) && CanHandleImages(url))
  {
    MatchesLit(ChaptersPrefix, SegmentsPattern(1), url);
    MatchesLit(ImagesPrefix, [Plus(Digit)], url);
    if CanHandleChapters(url) {
      assert url[..|ChaptersPrefix|][19] == 'r';
      assert !(|ImagesPrefix| <= |url| && url[..|ImagesPrefix|] == ImagesPrefix) by {
        if |ImagesPrefix| <= |url| {
          assert url[..|ImagesPrefix|][19] == 'r' != ImagesPrefix[19];
        }
      }
    }
  }

  /** One `.manga_list-sbs .item`: its first `.manga-name a` and first `.manga-poster img`. */
  datatype SearchItem = SearchItem(title: Option<Elem>, image: Option<Elem>)

  /** Both filter_map steps of `search` for one item. */
  function SearchEntry(item: SearchItem): Option<Link> {
    match item.title
    case None => None
    case Some(t) =>
      match (t.firstText, Attr(t, "href"))
      case (Some(text), Some(href)) => Some(Link(text, href, AttrOf(item.image, "data-src")))
      case _ => None
  }

  /** The result list built from the parsed search page. */
  function Search(items: seq<SearchItem>): seq<Link> {
    FilterMap(SearchEntry, items)
  }

  /** A result comes from an item whose title link has text and href; its image is the poster's data-src. */
  lemma SearchResults(items: seq<SearchItem>, l: Link)
    ensures l in Search(items) <==>
      exists i :: 0 <= i < |items| && items[i].title.Some? &&
        items[i].title.value.firstText == Some(l.text) &&
        Attr(items[i].title.value, "href") == Some(l.url) &&
        l.image == AttrOf(items[i].image, "data-src")
  {
    FilterMapMember(SearchEntry, items, l);
  }

  /** One `#list-chapter .chapter-item`: its data-id and its first `a.item-link`. */
  datatype ChapterItem = ChapterItem(dataId: Option<string>, link: Option<Elem>)

  function ChapterEntry(item: ChapterItem): Option<Link> {
    match (item.dataId, AttrOf(item.link, "title"))
    case (Some(id), Some(title)) => Some(Link(title, ImagesPrefix + id, None))
    case _ => None
  }

  function Chapters(items: seq<ChapterItem>): seq<Link> {
    FilterMap(ChapterEntry, items)
  }

  /** A chapter comes from an item with a data-id and a titled link; its URL is the images URL for that id. */
  lemma ChapterResults(items: seq<ChapterItem>, l: Link)
    ensures l in Chapters(items) <==>
      exists i :: 0 <= i < |items| && items[i].dataId.Some? &&
        AttrOf(items[i].link, "title") == Some(l.text) &&
        l.url == ImagesPrefix + items[i].dataId.value && l.image == None
  {
    FilterMapMember(ChapterEntry, items, l);
  }

  /** When every data-id is a run of ASCII digits, every chapter link is one this handler opens. */
  lemma ChaptersOpenAsImages(items: seq<ChapterItem>)
    requires forall i :: 0 <= i < |items| && items[i].dataId.Some? ==>
      items[i].dataId.value != [] && AllAsciiDigits(items[i].dataId.value)
    ensures forall l :: l in Chapters(items) ==> CanHandleImages(l.url)
  {
    forall l | l in Chapters(items)
      ensures CanHandleImages(l.url)
    {
      ChapterResults(items, l);
      var i :| 0 <= i < |items| && items[i].dataId.Some? && l.url == ImagesPrefix + items[i].dataId.value;
      var id := items[i].dataId.value;
      ImagesUrlRoundTrip(id);
      assert forall j :: 0 <= j < |id| ==> IsAsciiDigit(id[j]);
    }
  }

  /** `images`: the data-src of each `img` in the reply's `html` fragment. */
  function Images(reply: JsonHtml<seq<Elem>>): Result<seq<string>, string> {
    match reply
    case InvalidJson(reason) => Err(reason)
    case NoHtmlString(_) => Err("invalid json")
    case HtmlFragment(imgs) => Ok(AttrValues(imgs, "data-src"))
  }

  /** Images fail exactly when the reply has no html fragment; otherwise they are the data-src values. */
  lemma ImagesResult(reply: JsonHtml<seq<Elem>>)
    ensures Images(reply).Ok? <==> reply.HtmlFragment?
    ensures reply.NoHtmlString? ==> Images(reply) == Err("invalid json")
    ensures reply.HtmlFragment? ==> forall v :: v in Images(reply).value <==>
      exists i :: 0 <= i < |reply.content| && Attr(reply.content[i], "data-src") == Some(v)
  {
    if reply.HtmlFragment? {
      AttrValuesSpec(reply.content, "data-src");
    }
  }
}
