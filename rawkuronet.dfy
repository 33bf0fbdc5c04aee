/** core/src/sites/rawkuronet.rs: the rawkuro.net handler. */
module RawkuroNetSite {
  import opened Wrappers
  import opened Seqs
  import opened Text
  import opened Sorting
  import opened Regex
  import opened Sites

  const Name: string := "rawkuro.net"
  /** Relative image sources are made absolute by prefixing this. */
  const Origin: string := "https://rawkuro.net"
  /** The endpoint that lists a chapter's images, followed by the chapter id. */
  const ListPrefix: string := "https://rawkuro.net/ajax/image/list/chap/"

  /**
   * `^https://rawkuro.net/manga/` followed by `tail`. The dot in the source's
   * pattern is not escaped, so it stands for any character but a newline.
   */
  function HostPattern(tail: seq<Term>): seq<Term> {
    Lit("https://rawkuro") + ([One(AnyButNewline)] + (Lit("net/manga/") + tail))
  }

  /** `^https://rawkuro.net/manga/[^/]+$` */
  predicate CanHandleChapters(url: string) {
    Matches(HostPattern([Plus(NotSlash)]), url)
  }

  /** `^https://rawkuro.net/manga/[^/]+/[^/]+$` */
  predicate CanHandleImages(url: string) {
    Matches(HostPattern([Plus(NotSlash), One(Char('/')), Plus(NotSlash)]), url)
  }

  /** The 26 characters before the path: "https://rawkuro", any non-newline, "net/manga/". */
  predicate OnHost(url: string) {
    |url| >= 26 && url[..15] == "https://rawkuro" && url[15] != '\n' && url[16..26] == "net/manga/"
  }

  lemma MatchesHost(tail: seq<Term>, url: string)
    ensures Matches(HostPattern(tail), url) <==> OnHost(url) && Matches(tail, url[26..])
  {
    var rest := [One(AnyButNewline)] + (Lit("net/manga/") + tail);
    MatchesLit("https://rawkuro", rest, url);
    if |url| >= 15 {
      var u := url[15..];
      MatchesOne(AnyButNewline, Lit("net/manga/") + tail, u);
      if |u| > 0 {
        MatchesLit("net/manga/", tail, u[1..]);
        if |url| >= 26 {
          assert u[1..][..10] == url[16..26];
          assert u[1..][10..] == url[26..];
        }
      }
    }
  }

  /** A manga URL is the host part and one slash-free name. */
  lemma ChaptersUrlShape(url: string)
    ensures CanHandleChapters(url) <==>
      OnHost(url) && |url| > 26 && SlashFree(url[26..])
  {
    MatchesHost([Plus(NotSlash)], url);
    if |url| >= 26 {
      MatchesPlusAll(NotSlash, url[26..]);
    }
  }

  /** A chapter URL has a '/' after the manga name, so it is never a manga URL. */
  lemma UrlKindsDisjoint(url: string)
    ensures !(CanHandleChapters(url) && CanHandleImages(url))
  {
    if CanHandleImages(url) {
      MatchesHost([Plus(NotSlash), One(Char('/')), Plus(NotSlash)], url);
      assert [Plus(NotSlash), One(Char('/')), Plus(NotSlash)] == [Plus(NotSlash), One(Char('/'))] + [Plus(NotSlash)];
      var k := SegmentSlashElim([Plus(NotSlash)], url[26..]);
      ChaptersUrlShape(url);
      assert !SlashFree(url[26..]);
    }
  }

  /** The unescaped dot: any character but a newline between "rawkuro" and "net" is accepted. */
  lemma AnyCharacterForDot(c: char, name: string)
    requires c != '\n' && name != [] && SlashFree(name)
    ensures CanHandleChapters("https://rawkuro" + [c] + "net/manga/" + name)
  {
    var url := "https://rawkuro" + [c] + "net/manga/" + name;
    assert url[..15] == "https://rawkuro" && url[15] == c && url[16..26] == "net/manga/";
    assert url[26..] == name;
    ChaptersUrlShape(url);
  }

  /** One `#main a` and the first `img` inside it. */
  datatype SearchItem = SearchItem(link: Elem, image: Option<Elem>)

  function SearchEntry(item: SearchItem): Option<Link> {
    match (Attr(item.link, "title"), Attr(item.link, "href"))
    case (Some(title), Some(href)) =>
      if CanHandleChapters(href) then
        var image := match AttrOf(item.image, "data-src") case Some(i) => Some(Origin + i) case None => None;
        Some(Link(title, href, image))
      else None
    case _ => None
  }

  /** `search`: the page's links that have a title and point at a manga. */
  function Search(items: seq<SearchItem>): seq<Link> {
    FilterMap(SearchEntry, items)
  }

  /** A result comes from a titled link whose href is a manga URL; the image is made absolute. */
  lemma SearchResults(items: seq<SearchItem>, l: Link)
    ensures l in Search(items) <==>
      exists i :: 0 <= i < |items| && Attr(items[i].link, "title") == Some(l.text) &&
        Attr(items[i].link, "href") == Some(l.url) && CanHandleChapters(l.url) &&
        (l.image.Some? <==> AttrOf(items[i].image, "data-src").Some?) &&
        (l.image.Some? ==> l.image.value == Origin + AttrOf(items[i].image, "data-src").value)
  {
    FilterMapMember(SearchEntry, items, l);
  }

  /** Every search result can be opened as a chapter list by this handler. */
  lemma SearchResultsOpen(items: seq<SearchItem>)
    ensures forall l :: l in Search(items) ==> CanHandleChapters(l.url)
  {
    forall l | l in Search(items)
      ensures CanHandleChapters(l.url)
    {
      FilterMapMember(SearchEntry, items, l);
    }
  }

  function ChapterEntry(e: Elem): Option<Link> {
    match (e.firstText, Attr(e, "href"))
    case (Some(text), Some(href)) => Some(Link(Trim(text), href, None))
    case _ => None
  }

  /** `chapters`: one link per `#myUL li a` with text and href. */
  function Chapters(elems: seq<Elem>): seq<Link> {
    FilterMap(ChapterEntry, elems)
  }

  /** A chapter's title is its link text without surrounding white space, and it starts and ends without any. */
  lemma ChapterResults(elems: seq<Elem>, l: Link)
    requires l in Chapters(elems)
    ensures exists i ::
      && 0 <= i < |elems| && elems[i].firstText.Some?
      && l.text == Trim(elems[i].firstText.value) && Attr(elems[i], "href") == Some(l.url) && l.image == None
    ensures l.text == [] || (!IsWhitespace(l.text[0]) && !IsWhitespace(l.text[|l.text| - 1]))
  {
    FilterMapMember(ChapterEntry, elems, l);
    var i :| 0 <= i < |elems| && ChapterEntry(elems[i]) == Some(l);
    var text, href := elems[i].firstText.value, Attr(elems[i], "href").value;
    assert ChapterEntry(elems[i]) == Some(Link(Trim(text), href, None));
    assert l == Link(Trim(text), href, None);
    TrimSpec(text);
  }

  /** The first index from i on whose character is not white space. */
  function SkipSpace(s: string, i: nat): (j: nat)
    requires i <= |s|
    ensures i <= j <= |s| && (j == |s| || !IsWhitespace(s[j]))
    ensures forall k :: i <= k < j ==> IsWhitespace(s[k])
    decreases |s| - i
  {
    if i < |s| && IsWhitespace(s[i]) then SkipSpace(s, i + 1) else i
  }

  /** The first index from i on whose character is not a decimal digit. */
  function SkipDigits(s: string, i: nat): (j: nat)
    requires i <= |s|
    ensures i <= j <= |s| && (j == |s| || !IsDecimalDigit(s[j]))
    ensures forall k :: i <= k < j ==> IsDecimalDigit(s[k])
    decreases |s| - i
  {
    if i < |s| && IsDecimalDigit(s[i]) then SkipDigits(s, i + 1) else i
  }

  predicate LitAt(s: string, i: nat, w: string) {
    i + |w| <= |s| && s[i..i + |w|] == w
  }

  /**
   * The capture of `const\s+CHAPTER_ID\s+=\s+(\d+);` for a match starting at i.
   * None of 'C', '=' and the digits is white space and ';' is no digit, so
   * each `\s+` and the `\d+` take a whole run and the match at i is unique.
   */
  function IdAt(s: string, i: nat): (r: Option<string>)
    requires i <= |s|
    ensures r.Some? ==> r.value != [] && forall k :: 0 <= k < |r.value| ==> IsDecimalDigit(r.value[k])
  {
    if !LitAt(s, i, "const") then None
    else
      var a := SkipSpace(s, i + 5);
      if a == i + 5 || !LitAt(s, a, "CHAPTER_ID") then None
      else
        var b := SkipSpace(s, a + 10);
        if b == a + 10 || !LitAt(s, b, "=") then None
        else
          var c := SkipSpace(s, b + 1);
          if c == b + 1 then None
          else
            var d := SkipDigits(s, c);
            if d == c || !LitAt(s, d, ";") then None else Some(s[c..d])
  }

  /** `RE.captures(page)`: the capture of the leftmost match from i on. */
  function ChapterIdFrom(s: string, i: nat): (r: Option<string>)
    requires i <= |s|
    ensures r.Some? ==> exists j :: i <= j <= |s| && IdAt(s, j) == r && forall k :: i <= k < j ==> IdAt(s, k).None?
    ensures r.None? ==> forall k :: i <= k <= |s| ==> IdAt(s, k).None?
    decreases |s| - i
  {
    match IdAt(s, i)
    case Some(id) => Some(id)
    case None => if i == |s| then None else ChapterIdFrom(s, i + 1)
  }

  function ChapterId(page: string): Option<string> {
    ChapterIdFrom(page, 0)
  }

  /** One `.separator` of the image list: its data-index and the `.readImg` elements inside it. */
  datatype Separator = Separator(dataIndex: Option<string>, readImgs: seq<Elem>)

  /** WithIndex: a separator whose data-index is a u64. */
  datatype Indexed = Indexed(sep: Separator, index: nat)

  function Indexing(sep: Separator): (r: Option<Indexed>)
    ensures r.Some? <==> sep.dataIndex.Some? && ParseU64(sep.dataIndex.value).Some?
    ensures r.Some? ==> r.value.sep == sep && r.value.index < U64Bound
  {
    match sep.dataIndex
    case None => None
    case Some(v) =>
      match ParseU64(v)
      case Some(n) => Some(Indexed(sep, n))
      case None => None
  }

  function IndexKey(w: Indexed): int {
    w.index
  }

  function ReadImgHrefs(w: Indexed): seq<string> {
    AttrValues(w.sep.readImgs, "href")
  }

  /** The separators in the order `sort_by` on the index leaves them: a stable ascending sort. */
  function OrderedSeparators(seps: seq<Separator>): seq<Indexed> {
    InsertionSort(FilterMap(Indexing, seps), IndexKey)
  }

  /** The separators are ascending by index, are the indexed ones, and keep page order among equal indices. */
  lemma SeparatorOrder(seps: seq<Separator>, k: int)
    ensures SortedBy(OrderedSeparators(seps), IndexKey)
    ensures multiset(OrderedSeparators(seps)) == multiset(FilterMap(Indexing, seps))
    ensures WithKey(OrderedSeparators(seps), IndexKey, k) == WithKey(FilterMap(Indexing, seps), IndexKey, k)
    ensures forall w :: w in OrderedSeparators(seps) <==> exists i :: 0 <= i < |seps| && Indexing(seps[i]) == Some(w)
  {
    var kept := FilterMap(Indexing, seps);
    SortSorted(kept, IndexKey);
    SortStable(kept, IndexKey, k);
    forall w
      ensures w in OrderedSeparators(seps) <==> exists i :: 0 <= i < |seps| && Indexing(seps[i]) == Some(w)
    {
      FilterMapMember(Indexing, seps, w);
      assert w in OrderedSeparators(seps) <==> w in multiset(kept);
    }
  }

  function ListUrl(id: string): string {
    ListPrefix + id
  }

  /**
   * `images`: the chapter id from the chapter page, then the image list fetched
   * from its URL (`fetch` gives the reply for a URL), then the `.readImg` hrefs of
   * the indexed separators in index order.
   */
  function ImagesOf(page: string, fetch: string -> JsonHtml<seq<Separator>>): Result<seq<string>, string> {
    match ChapterId(page)
    case None => Err("no chapter id found")
    case Some(id) =>
      match fetch(ListUrl(id))
      case InvalidJson(reason) => Err(reason)
      case NoHtmlString(json) => Err("invalid response: " + json)
      case HtmlFragment(seps) => Ok(Flatten(Map(ReadImgHrefs, OrderedSeparators(seps))))
  }

  /** No id fails with "no chapter id found"; a reply without an html string fails with the reply itself. */
  lemma ImagesErrors(page: string, fetch: string -> JsonHtml<seq<Separator>>)
    ensures ChapterId(page).None? <==> forall i :: 0 <= i <= |page| ==> IdAt(page, i).None?
    ensures ChapterId(page).None? ==> ImagesOf(page, fetch) == Err("no chapter id found")
    ensures ChapterId(page).Some? ==>
      (ImagesOf(page, fetch).Ok? <==> fetch(ListUrl(ChapterId(page).value)).HtmlFragment?)
    ensures ChapterId(page).Some? && fetch(ListUrl(ChapterId(page).value)).NoHtmlString? ==>
      ImagesOf(page, fetch) == Err("invalid response: " + fetch(ListUrl(ChapterId(page).value)).json)
  {
  }

  /** `collect` into a vector, then `links.sort_by` on the index, in place in an array. */
  method OrderSeparators(seps: seq<Separator>) returns (ordered: seq<Indexed>)
    ensures ordered == OrderedSeparators(seps)
  {
    var kept := FilterMap(Indexing, seps);
    var links := new Indexed[|kept|](i requires 0 <= i < |kept| => kept[i]);
    assert links[..] == kept;
    SortInPlace(links, IndexKey);
    ordered := links[..];
  }

  /** `images` step by step: the sort runs on an array, as `links.sort_by` does. */
  method Images(page: string, fetch: string -> JsonHtml<seq<Separator>>) returns (r: Result<seq<string>, string>)
    ensures r == ImagesOf(page, fetch)
  {
    var id := ChapterId(page);
    if id.None? {
      return Err("no chapter id found");
    }
    var reply := fetch(ListUrl(id.value));
    match reply
    case InvalidJson(reason) =>
      r := Err(reason);
    case NoHtmlString(json) =>
      r := Err("invalid response: " + json);
    case HtmlFragment(seps) =>
      var ordered := OrderSeparators(seps);
      r := Ok(Flatten(Map(ReadImgHrefs, ordered)));
  }
}
