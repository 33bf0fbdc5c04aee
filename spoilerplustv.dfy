/** core/src/sites/spoilerplustv.rs: the spoilerplus.tv handler. */
module SpoilerplustvSite {
  import opened Wrappers
  import opened Seqs
  import opened Text
  import opened Regex
  import opened Sites

  const Name: string := "spoilerplus.tv"
  /** Site-relative hrefs are made absolute by prefixing this. */
  const Origin: string := "https://spoilerplus.tv"
  const SitePrefix: string := "https://spoilerplus.tv/"
  /** Page images are served from this host; `data-z` holds the path. */
  const ImageHost: string := "https://cdn1.mangarawspoiler.co"

  /** The image host refuses requests without this Referer. */
  function RequestHeaders(): (h: map<string, string>)
    ensures h.Keys == {"Referer"} && h["Referer"] == SitePrefix
  {
    map["Referer" := SitePrefix]
  }

  /** `^https://spoilerplus\.tv/[^/]+/$` */
  predicate CanHandleChapters(url: string) {
    Matches(Lit(SitePrefix) + SegmentsPattern(1), url)
  }

  /** `^https://spoilerplus\.tv/[^/]+/[^/]+/$` */
  predicate CanHandleImages(url: string) {
    Matches(Lit(SitePrefix) + SegmentsPattern(2), url)
  }

  /** A manga URL has one path segment, a chapter URL two; no URL is both. */
  lemma UrlKindsDisjoint(url: string)
    ensures CanHandleChapters(url) <==>
      |SitePrefix| <= |url| && url[..|SitePrefix|] == SitePrefix && Segments(url[|SitePrefix|..], 1)
    ensures CanHandleImages(url) <==>
      |SitePrefix| <= |url| && url[..|SitePrefix|] == SitePrefix && Segments(url[|SitePrefix|..], 2)
    ensures !(CanHandleChapters(url) && CanHandleImages(url))
  {
    MatchesPrefixed(SitePrefix, 1, url);
    MatchesPrefixed(SitePrefix, 2, url);
    if |SitePrefix| <= |url| {
      SegmentsDisjoint(url[|SitePrefix|..], 1, 2);
    }
  }

  /** An absolute URL built from an href has n segments exactly when the href is '/' and n segments. */
  lemma OriginRoundTrip(href: string, n: nat)
    ensures Matches(Lit(SitePrefix) + SegmentsPattern(n), Origin + href) <==>
      |href| > 0 && href[0] == '/' && Segments(href[1..], n)
  {
    assert SitePrefix == Origin + "/";
    MatchesAfterOrigin(Origin, "/", SegmentsPattern(n), href);
    MatchesPrefixed("/", n, href);
    if |href| > 0 {
      assert href[..1] == "/" <==> href[0] == '/';
    }
  }

  /** One `article.item`: its first `figcaption h3 a` and first `.image img`. */
  datatype SearchItem = SearchItem(caption: Option<Elem>, image: Option<Elem>)

  function SearchEntry(item: SearchItem): Option<Link> {
    match item.caption
    case None => None
    case Some(c) =>
      match (c.firstText, Attr(c, "href"))
      case (Some(title), Some(href)) =>
        var image := match AttrOf(item.image, "data-src") case Some(src) => Some(Origin + src) case None => None;
        Some(Link(title, Origin + href, image))
      case _ => None
  }

  function Search(items: seq<SearchItem>): seq<Link> {
    FilterMap(SearchEntry, items)
  }

  /** A result comes from a caption with text and href; URL and image are made absolute on the site. */
  lemma SearchResults(items: seq<SearchItem>, l: Link)
    ensures l in Search(items) <==>
      exists i :: 0 <= i < |items| && items[i].caption.Some? &&
        items[i].caption.value.firstText == Some(l.text) &&
        Attr(items[i].caption.value, "href").Some? &&
        l.url == Origin + Attr(items[i].caption.value, "href").value &&
        (l.image.Some? <==> AttrOf(items[i].image, "data-src").Some?) &&
        (l.image.Some? ==> l.image.value == Origin + AttrOf(items[i].image, "data-src").value)
  {
    FilterMapMember(SearchEntry, items, l);
  }

  function ChapterEntry(e: Elem): Option<Link> {
    match (e.firstText, Attr(e, "href"))
    case (Some(text), Some(href)) => Some(Link(Trim(text), Origin + href, None))
    case _ => None
  }

  /** `chapters`: one link per `.list-chapter .chapter > a` with text and href. */
  function Chapters(elems: seq<Elem>): seq<Link> {
    FilterMap(ChapterEntry, elems)
  }

  /** The link an element gives: its first text trimmed, its href made absolute, no image. */
  predicate IsChapterLinkOf(e: Elem, l: Link) {
    && e.firstText.Some? && Attr(e, "href").Some?
    && l.text == Trim(e.firstText.value)
    && l.url == Origin + Attr(e, "href").value
    && l.image == None
  }

  lemma ChapterEntrySpec(e: Elem, l: Link)
    ensures ChapterEntry(e) == Some(l) <==> IsChapterLinkOf(e, l)
  {
    if IsChapterLinkOf(e, l) {
      assert l == Link(Trim(e.firstText.value), Origin + Attr(e, "href").value, None);
    }
  }

  /** A chapter's title is its link text without the surrounding white space; its URL is the href made absolute. */
  lemma ChapterResults(elems: seq<Elem>, l: Link)
    ensures l in Chapters(elems) <==> exists i :: 0 <= i < |elems| && IsChapterLinkOf(elems[i], l)
  {
    FilterMapMember(ChapterEntry, elems, l);
    forall i | 0 <= i < |elems| {
      ChapterEntrySpec(elems[i], l);
    }
  }

  /** No chapter title starts or ends with white space. */
  lemma ChapterTitlesTrimmed(elems: seq<Elem>, l: Link)
    requires l in Chapters(elems)
    ensures l.text == [] || (!IsWhitespace(l.text[0]) && !IsWhitespace(l.text[|l.text| - 1]))
  {
    FilterMapMember(ChapterEntry, elems, l);
    {
      var i :| 0 <= i < |elems| && ChapterEntry(elems[i]) == Some(l);
      TrimSpec(elems[i].firstText.value);
    }
  }

  function ImageUrl(z: string): string {
    ImageHost + z
  }

  /** `images`: the image host followed by each `#post-comic .ct`'s data-z, in page order. */
  function Images(elems: seq<Elem>): Result<seq<string>, string> {
    Ok(Map(ImageUrl, AttrValues(elems, "data-z")))
  }

  /** Every image is on the image host, one per element carrying a data-z. */
  lemma ImagesResult(elems: seq<Elem>)
    ensures Images(elems).Ok?
    ensures |Images(elems).value| <= |elems|
    ensures forall u :: u in Images(elems).value <==>
      exists i :: 0 <= i < |elems| && Attr(elems[i], "data-z").Some? &&
        u == ImageHost + Attr(elems[i], "data-z").value
  {
    var zs := AttrValues(elems, "data-z");
    AttrValuesSpec(elems, "data-z");
    forall u
      ensures u in Images(elems).value <==>
        exists i :: 0 <= i < |elems| && Attr(elems[i], "data-z").Some? &&
          u == ImageHost + Attr(elems[i], "data-z").value
    {
      if u in Images(elems).value {
        var j :| 0 <= j < |zs| && Images(elems).value[j] == u;
        assert zs[j] in zs;
      }
      if exists i :: 0 <= i < |elems| && Attr(elems[i], "data-z").Some? &&
          u == ImageHost + Attr(elems[i], "data-z").value {
        var i :| 0 <= i < |elems| && Attr(elems[i], "data-z").Some? &&
          u == ImageHost + Attr(elems[i], "data-z").value;
        var z := Attr(elems[i], "data-z").value;
        assert z in zs;
        var j :| 0 <= j < |zs| && zs[j] == z;
        assert Images(elems).value[j] == u;
      }
    }
  }
}
