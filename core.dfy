/**
 * core/src/lib.rs: the `Manga` object the app calls. It picks the site that
 * handles a URL, fetches through it, and keeps the store in step.
 */
module Core {
  import opened Wrappers
  import opened Seqs
  import opened Regex
  import opened Sites
  import opened Db
  import JmangaorgSite
  import MangaTopJpSite
  import SpoilerplustvSite
  import RawkuroNetSite

  /** The site handlers of core/src/sites. */
  datatype Site = Spoilerplustv | MangaTopJp | Jmangaorg | RawkuroNet

  function SiteName(site: Site): string {
    match site
    case Spoilerplustv => SpoilerplustvSite.Name
    case MangaTopJp => MangaTopJpSite.Name
    case Jmangaorg => JmangaorgSite.Name
    case RawkuroNet => RawkuroNetSite.Name
  }

  predicate CanHandleChapters(site: Site, url: string) {
    match site
    case Spoilerplustv => SpoilerplustvSite.CanHandleChapters(url)
    case MangaTopJp => MangaTopJpSite.CanHandleChapters(url)
    case Jmangaorg => JmangaorgSite.CanHandleChapters(url)
    case RawkuroNet => RawkuroNetSite.CanHandleChapters(url)
  }

  predicate CanHandleImages(site: Site, url: string) {
    match site
    case Spoilerplustv => SpoilerplustvSite.CanHandleImages(url)
    case MangaTopJp => MangaTopJpSite.CanHandleImages(url)
    case Jmangaorg => JmangaorgSite.CanHandleImages(url)
    case RawkuroNet => RawkuroNetSite.CanHandleImages(url)
  }

  /** Only spoilerplus.tv overrides the empty default. */
  function RequestHeaders(site: Site): (h: map<string, string>)
    ensures site.Spoilerplustv? ==> h == map["Referer" := SpoilerplustvSite.SitePrefix]
    ensures !site.Spoilerplustv? ==> h == map[]
  {
    if site.Spoilerplustv? then SpoilerplustvSite.RequestHeaders() else DefaultRequestHeaders
  }

  /** `supported_sites`: rawkuro.net is not offered. */
  const SupportedSites: seq<Site> := [Spoilerplustv, MangaTopJp, Jmangaorg]

  function HandlesChaptersOf(url: string): Site -> bool {
    (s: Site) => CanHandleChapters(s, url)
  }

  function HandlesImagesOf(url: string): Site -> bool {
    (s: Site) => CanHandleImages(s, url)
  }

  /** The first supported site whose manga URLs include url. */
  function ChapterSite(url: string): Option<Site> {
    Find(HandlesChaptersOf(url), SupportedSites)
  }

  /** `get_site`: the first supported site whose chapter URLs include url. */
  function GetSite(url: string): Option<Site> {
    Find(HandlesImagesOf(url), SupportedSites)
  }

  /** The ninth character of every URL a site accepts, which tells the sites apart. */
  function HostLetter(site: Site): char {
    match site
    case Spoilerplustv => 's'
    case MangaTopJp => 'm'
    case Jmangaorg => 'j'
    case RawkuroNet => 'r'
  }

  lemma LiteralPrefix(w: string, q: seq<Term>, url: string)
    requires |w| > 8 && Matches(Lit(w) + q, url)
    ensures |url| > 8 && url[8] == w[8]
  {
    MatchesLit(w, q, url);
    assert url[..|w|][8] == url[8];
  }

  lemma {:induction false} HostLetterOfUrl(site: Site, url: string)
    ensures CanHandleChapters(site, url) || CanHandleImages(site, url) ==> |url| > 8 && url[8] == HostLetter(site)
  {
    if CanHandleChapters(site, url) {
      match site
      case Spoilerplustv => LiteralPrefix(SpoilerplustvSite.SitePrefix, SegmentsPattern(1), url);
      case MangaTopJp => LiteralPrefix(MangaTopJpSite.MangaPrefix, SegmentsPattern(1), url);
      case Jmangaorg => LiteralPrefix(JmangaorgSite.ChaptersPrefix, SegmentsPattern(1), url);
      case RawkuroNet => RawkuroNetSite.MatchesHost([Plus(NotSlash)], url);
    }
    if CanHandleImages(site, url) {
      match site
      case Spoilerplustv => LiteralPrefix(SpoilerplustvSite.SitePrefix, SegmentsPattern(2), url);
      case MangaTopJp => LiteralPrefix(MangaTopJpSite.MangaPrefix, SegmentsPattern(2), url);
      case Jmangaorg => LiteralPrefix(JmangaorgSite.ImagesPrefix, [Plus(Digit)], url);
      case RawkuroNet => RawkuroNetSite.MatchesHost([Plus(NotSlash), One(Char('/')), Plus(NotSlash)], url);
    }
  }

  /** No URL is handled by two sites, so the order of the site list never matters. */
  lemma SitesDisjoint(a: Site, b: Site, url: string)
    requires a != b
    ensures !(CanHandleChapters(a, url) && CanHandleChapters(b, url))
    ensures !(CanHandleImages(a, url) && CanHandleImages(b, url))
    ensures !(CanHandleChapters(a, url) && CanHandleImages(b, url))
  {
    HostLetterOfUrl(a, url);
    HostLetterOfUrl(b, url);
  }

  /** `get_site` answers exactly with the supported site that accepts the URL. */
  lemma GetSiteSpec(url: string, site: Site)
    ensures GetSite(url) == Some(site) <==> site in SupportedSites && CanHandleImages(site, url)
    ensures ChapterSite(url) == Some(site) <==> site in SupportedSites && CanHandleChapters(site, url)
  {
    forall a: Site | a != site {
      SitesDisjoint(a, site, url);
    }
  }

  /** A URL is never both a manga page and a chapter page of supported sites. */
  lemma ChapterOrImageSite(url: string)
    ensures !(ChapterSite(url).Some? && GetSite(url).Some?)
  {
    if ChapterSite(url).Some? && GetSite(url).Some? {
      var a, b := ChapterSite(url).value, GetSite(url).value;
      HostLetterOfUrl(a, url);
      HostLetterOfUrl(b, url);
      match a
      case Spoilerplustv => SpoilerplustvSite.UrlKindsDisjoint(url);
      case MangaTopJp => MangaTopJpSite.UrlKindsDisjoint(url);
      case Jmangaorg => JmangaorgSite.UrlKindsDisjoint(url);
      case RawkuroNet => RawkuroNetSite.UrlKindsDisjoint(url);
    }
  }

  function NoHandler(url: string): string {
    "Couldn't find site handler for " + url
  }

  function NotInDatabase(url: string): string {
    "the url isn't in database yet: " + url
  }

  /**
   * `get_images`: the images the handling site finds for url; `imagesOf` stands
   * for each site's `images`, network and page included.
   */
  function GetImages(url: string, imagesOf: (Site, string) -> Result<seq<string>, string>): Result<seq<string>, string> {
    match GetSite(url)
    case None => Err(NoHandler(url))
    case Some(site) => imagesOf(site, url)
  }

  /** The images come from the one supported site that accepts the URL, or it is the handler error. */
  lemma GetImagesSpec(url: string, imagesOf: (Site, string) -> Result<seq<string>, string>)
    ensures (forall s :: s in SupportedSites ==> !CanHandleImages(s, url)) ==> GetImages(url, imagesOf) == Err(NoHandler(url))
    ensures forall s :: s in SupportedSites && CanHandleImages(s, url) ==> GetImages(url, imagesOf) == imagesOf(s, url)
  {
    forall s | s in SupportedSites && CanHandleImages(s, url)
      ensures GetImages(url, imagesOf) == imagesOf(s, url)
    {
      GetSiteSpec(url, s);
    }
  }

  // ------------------------------------------------------------ get_chapters

  /** The store's chapter table while upserting, and the error that stopped it. */
  datatype Upserted = Upserted(chapters: seq<ChapterRow>, nextId: int, error: Option<string>)

  /** One pass of the loop in `get_chapters`: update a known title, else create it. */
  function UpsertOne(cs: seq<ChapterRow>, next: int, mangaId: int, l: Link, ts: int): Upserted {
    match ChapterByTitle(cs, mangaId, l.text)
    case Some(_) => Upserted(SetUrl(cs, mangaId, l.text, l.url, ts), next, None)
    case None =>
      match TitleNumber(l.text)
      case Err(e) => Upserted(cs, next, Some(e))
      case Ok(number) => Upserted(cs + [NewChapter(next, mangaId, l.text, number, l.url, ts)], next + 1, None)
  }

  /** The whole loop; the first failure ends it and the earlier writes stay. */
  function Upsert(cs: seq<ChapterRow>, next: int, mangaId: int, links: seq<Link>, ts: int): Upserted
    decreases |links|
  {
    if links == [] then Upserted(cs, next, None)
    else
      var o := UpsertOne(cs, next, mangaId, links[0], ts);
      if o.error.Some? then o else Upsert(o.chapters, o.nextId, mangaId, links[1..], ts)
  }

  predicate HasTitle(links: seq<Link>, title: string) {
    exists j :: 0 <= j < |links| && links[j].text == title
  }

  /**
   * What the loop may do to the table: rows keep their place and everything but
   * url and updated_at; only rows of this manga whose title was fetched change;
   * new rows come after, belong to this manga, carry fetched titles and are unread.
   */
  ghost predicate Grows(cs: seq<ChapterRow>, cs': seq<ChapterRow>, mangaId: int, links: seq<Link>) {
    && |cs| <= |cs'|
    && (forall k :: 0 <= k < |cs| ==> cs'[k] == cs[k].(url := cs'[k].url, updatedAt := cs'[k].updatedAt))
    && (forall k :: 0 <= k < |cs| && (cs[k].manga != mangaId || !HasTitle(links, cs[k].title)) ==> cs'[k] == cs[k])
    && (forall k :: |cs| <= k < |cs'| ==> cs'[k].manga == mangaId && HasTitle(links, cs'[k].title) && cs'[k].isRead == 0)
  }

  lemma UpsertOneGrows(cs: seq<ChapterRow>, next: int, mangaId: int, links: seq<Link>, ts: int)
    requires links != []
    ensures Grows(cs, UpsertOne(cs, next, mangaId, links[0], ts).chapters, mangaId, links)
    ensures UpsertOne(cs, next, mangaId, links[0], ts).error.Some? ==> UpsertOne(cs, next, mangaId, links[0], ts).chapters == cs
  {
    var o := UpsertOne(cs, next, mangaId, links[0], ts);
    forall k | 0 <= k < |cs| && cs[k].manga == mangaId && cs[k].title == links[0].text
      ensures HasTitle(links, cs[k].title)
    {
      assert links[0].text == cs[k].title;
    }
    if |o.chapters| > |cs| {
      assert o.chapters[|cs|].title == links[0].text;
    }
  }

  lemma {:induction false} UpsertGrows(cs: seq<ChapterRow>, next: int, mangaId: int, links: seq<Link>, ts: int)
    ensures Grows(cs, Upsert(cs, next, mangaId, links, ts).chapters, mangaId, links)
    decreases |links|
  {
    if links != [] {
      var o := UpsertOne(cs, next, mangaId, links[0], ts);
      UpsertOneGrows(cs, next, mangaId, links, ts);
      if o.error.None? {
        var rest := links[1..];
        UpsertGrows(o.chapters, o.nextId, mangaId, rest, ts);
        forall t | HasTitle(rest, t)
          ensures HasTitle(links, t)
        {
          var j :| 0 <= j < |rest| && rest[j].text == t;
          assert links[j + 1].text == t;
        }
      }
    }
  }

  /** Every row of this manga with one of the fetched titles, in the table after one pass. */
  ghost predicate TitleUrl(cs: seq<ChapterRow>, mangaId: int, title: string, url: string) {
    && ChapterByTitle(cs, mangaId, title).Some?
    && forall k :: 0 <= k < |cs| && cs[k].manga == mangaId && cs[k].title == title ==> cs[k].url == url
  }

  lemma UpsertOneTitle(cs: seq<ChapterRow>, next: int, mangaId: int, l: Link, ts: int)
    requires UpsertOne(cs, next, mangaId, l, ts).error.None?
    ensures TitleUrl(UpsertOne(cs, next, mangaId, l, ts).chapters, mangaId, l.text, l.url)
  {
    var o := UpsertOne(cs, next, mangaId, l, ts);
    if ChapterByTitle(cs, mangaId, l.text).Some? {
      var k :| 0 <= k < |cs| && cs[k] == ChapterByTitle(cs, mangaId, l.text).value;
      assert o.chapters[k].manga == mangaId && o.chapters[k].title == l.text;
    } else {
      assert o.chapters[|cs|].manga == mangaId && o.chapters[|cs|].title == l.text;
    }
  }

  /** Rows whose title the loop does not fetch again keep their url. */
  lemma TitleUrlKept(cs: seq<ChapterRow>, cs': seq<ChapterRow>, mangaId: int, links: seq<Link>, title: string, url: string)
    requires Grows(cs, cs', mangaId, links) && !HasTitle(links, title)
    requires TitleUrl(cs, mangaId, title, url)
    ensures TitleUrl(cs', mangaId, title, url)
  {
    var k :| 0 <= k < |cs| && cs[k] == ChapterByTitle(cs, mangaId, title).value;
    assert cs'[k] == cs[k];
  }

  /**
   * A finished loop stored every fetched title; each of its rows holds the url
   * of the last link with that title.
   */
  lemma {:induction false} UpsertStoresLinks(cs: seq<ChapterRow>, next: int, mangaId: int, links: seq<Link>, ts: int, i: nat)
    requires Upsert(cs, next, mangaId, links, ts).error.None?
    requires i < |links| && forall j :: i < j < |links| ==> links[j].text != links[i].text
    ensures TitleUrl(Upsert(cs, next, mangaId, links, ts).chapters, mangaId, links[i].text, links[i].url)
    decreases |links|
  {
    var o := UpsertOne(cs, next, mangaId, links[0], ts);
    var rest := links[1..];
    if i == 0 {
      UpsertOneTitle(cs, next, mangaId, links[0], ts);
      UpsertGrows(o.chapters, o.nextId, mangaId, rest, ts);
      assert !HasTitle(rest, links[0].text) by {
        assert forall j :: 0 <= j < |rest| ==> rest[j] == links[j + 1];
      }
      TitleUrlKept(o.chapters, Upsert(o.chapters, o.nextId, mangaId, rest, ts).chapters, mangaId, rest, links[0].text, links[0].url);
    } else {
      assert rest[i - 1] == links[i];
      assert forall j :: i - 1 < j < |rest| ==> rest[j] == links[j + 1];
      UpsertStoresLinks(o.chapters, o.nextId, mangaId, rest, ts, i - 1);
    }
  }

  /** At most one row per manga and title. */
  ghost predicate UniqueTitles(cs: seq<ChapterRow>) {
    forall i, j :: 0 <= i < j < |cs| ==> cs[i].manga != cs[j].manga || cs[i].title != cs[j].title
  }

  /** The loop creates a row only for a title the manga lacks, so titles stay unique. */
  lemma {:induction false} UpsertKeepsTitlesUnique(cs: seq<ChapterRow>, next: int, mangaId: int, links: seq<Link>, ts: int)
    requires UniqueTitles(cs)
    ensures UniqueTitles(Upsert(cs, next, mangaId, links, ts).chapters)
    decreases |links|
  {
    if links != [] {
      var o := UpsertOne(cs, next, mangaId, links[0], ts);
      if ChapterByTitle(cs, mangaId, links[0].text).None? {
        assert forall k :: 0 <= k < |cs| ==> o.chapters[k] == cs[k];
      } else {
        assert forall k :: 0 <= k < |cs| ==> o.chapters[k].manga == cs[k].manga && o.chapters[k].title == cs[k].title;
      }
      assert UniqueTitles(o.chapters);
      if o.error.None? {
        UpsertKeepsTitlesUnique(o.chapters, o.nextId, mangaId, links[1..], ts);
      }
    }
  }

  /**
   * A failed loop is the loop over the links before the failing one, stopped by
   * a title the manga did not have and whose number does not parse.
   */
  lemma {:induction false} UpsertStopsAtFirstFailure(cs: seq<ChapterRow>, next: int, mangaId: int, links: seq<Link>, ts: int)
    requires Upsert(cs, next, mangaId, links, ts).error.Some?
    ensures exists i :: 0 <= i < |links| && FailsAt(cs, next, mangaId, links, ts, i)
    decreases |links|
  {
    var o := UpsertOne(cs, next, mangaId, links[0], ts);
    if o.error.Some? {
      assert links[..0] == [];
      assert FailsAt(cs, next, mangaId, links, ts, 0);
    } else {
      var rest := links[1..];
      UpsertStopsAtFirstFailure(o.chapters, o.nextId, mangaId, rest, ts);
      var i :| 0 <= i < |rest| && FailsAt(o.chapters, o.nextId, mangaId, rest, ts, i);
      FailsAtStep(cs, next, mangaId, links, ts, i);
    }
  }

  lemma FailsAtStep(cs: seq<ChapterRow>, next: int, mangaId: int, links: seq<Link>, ts: int, i: nat)
    requires i + 1 < |links|
    requires UpsertOne(cs, next, mangaId, links[0], ts).error.None?
    requires FailsAt(UpsertOne(cs, next, mangaId, links[0], ts).chapters, UpsertOne(cs, next, mangaId, links[0], ts).nextId,
                     mangaId, links[1..], ts, i)
    ensures FailsAt(cs, next, mangaId, links, ts, i + 1)
  {
    var o := UpsertOne(cs, next, mangaId, links[0], ts);
    var pre := links[..i + 1];
    assert pre[0] == links[0];
    assert pre[1..] == links[1..][..i];
    assert links[1..][i] == links[i + 1];
    assert Upsert(cs, next, mangaId, pre, ts) == Upsert(o.chapters, o.nextId, mangaId, links[1..][..i], ts);
    assert Upsert(cs, next, mangaId, links, ts) == Upsert(o.chapters, o.nextId, mangaId, links[1..], ts);
  }

  ghost predicate FailsAt(cs: seq<ChapterRow>, next: int, mangaId: int, links: seq<Link>, ts: int, i: nat)
    requires i < |links|
  {
    var before := Upsert(cs, next, mangaId, links[..i], ts);
    && before.error.None?
    && ChapterByTitle(before.chapters, mangaId, links[i].text).None?
    && TitleNumber(links[i].text).Err?
    && Upsert(cs, next, mangaId, links, ts) == Upserted(before.chapters, before.nextId, Some(TitleNumber(links[i].text).error))
  }

  /** What `get_chapters` leaves behind: its result and the chapter table. */
  datatype ChaptersOutcome = ChaptersOutcome(result: Result<seq<ChapterRow>, string>, chapters: seq<ChapterRow>, nextId: int)

  /**
   * `get_chapters` on a store with these tables; `chaptersOf` stands for each
   * site's `chapters`, network and page included.
   */
  function GetChaptersOf(ms: seq<MangaRow>, cs: seq<ChapterRow>, next: int, url: string,
                         chaptersOf: (Site, string) -> Result<seq<Link>, string>, ts: int): ChaptersOutcome
  {
    match ChapterSite(url)
    case None => ChaptersOutcome(Err(NoHandler(url)), cs, next)
    case Some(site) =>
      match MangaByUrl(ms, url)
      case None => ChaptersOutcome(Err(NotInDatabase(url)), cs, next)
      case Some(m) =>
        match chaptersOf(site, url)
        case Err(e) => ChaptersOutcome(Err(e), cs, next)
        case Ok(links) =>
          var u := Upsert(cs, next, m.id, links, ts);
          match u.error
          case Some(e) => ChaptersOutcome(Err(e), u.chapters, u.nextId)
          case None => ChaptersOutcome(Ok(ChaptersOf(u.chapters, m.id)), u.chapters, u.nextId)
  }

  /** `get_chapters_cache`: the stored chapters of the manga with that url, none if unknown. */
  function ChaptersCache(ms: seq<MangaRow>, cs: seq<ChapterRow>, url: string): (r: seq<ChapterRow>)
    ensures MangaByUrl(ms, url).None? ==> r == []
    ensures forall i :: 0 <= i < |r| ==> MangaByUrl(ms, url).Some? && r[i].manga == MangaByUrl(ms, url).value.id && r[i] in cs
  {
    match MangaByUrl(ms, url)
    case None => []
    case Some(m) => ChaptersOf(cs, m.id)
  }

  /** The errors of `get_chapters` before any fetch leave the table alone. */
  lemma GetChaptersErrors(ms: seq<MangaRow>, cs: seq<ChapterRow>, next: int, url: string,
                          chaptersOf: (Site, string) -> Result<seq<Link>, string>, ts: int)
    ensures ChapterSite(url).None? ==> GetChaptersOf(ms, cs, next, url, chaptersOf, ts) == ChaptersOutcome(Err(NoHandler(url)), cs, next)
    ensures ChapterSite(url).Some? && MangaByUrl(ms, url).None? ==>
      GetChaptersOf(ms, cs, next, url, chaptersOf, ts) == ChaptersOutcome(Err(NotInDatabase(url)), cs, next)
    ensures GetChaptersOf(ms, cs, next, url, chaptersOf, ts).result.Ok? ==> ChapterSite(url).Some? && MangaByUrl(ms, url).Some?
  {
  }

  /**
   * A successful refresh answers with what the cache now holds, and that holds
   * every fetched title with the url of its last link.
   */
  lemma GetChaptersRefreshesCache(ms: seq<MangaRow>, cs: seq<ChapterRow>, next: int, url: string,
                                  chaptersOf: (Site, string) -> Result<seq<Link>, string>, ts: int)
    requires GetChaptersOf(ms, cs, next, url, chaptersOf, ts).result.Ok?
    ensures var o := GetChaptersOf(ms, cs, next, url, chaptersOf, ts);
      o.result.value == ChaptersCache(ms, o.chapters, url)
    ensures var o := GetChaptersOf(ms, cs, next, url, chaptersOf, ts);
      var links := chaptersOf(ChapterSite(url).value, url).value;
      forall i :: 0 <= i < |links| && (forall j :: i < j < |links| ==> links[j].text != links[i].text) ==>
        TitleUrl(o.chapters, MangaByUrl(ms, url).value.id, links[i].text, links[i].url)
  {
    var links := chaptersOf(ChapterSite(url).value, url).value;
    var m := MangaByUrl(ms, url).value;
    forall i | 0 <= i < |links| && (forall j :: i < j < |links| ==> links[j].text != links[i].text)
      ensures TitleUrl(Upsert(cs, next, m.id, links, ts).chapters, m.id, links[i].text, links[i].url)
    {
      UpsertStoresLinks(cs, next, m.id, links, ts, i);
    }
  }

  /**
   * Every `get_chapters` call keeps titles unique; the empty table has unique
   * titles, so a table that only these calls write never holds a title twice.
   */
  lemma GetChaptersKeepsTitlesUnique(ms: seq<MangaRow>, cs: seq<ChapterRow>, next: int, url: string,
                                     chaptersOf: (Site, string) -> Result<seq<Link>, string>, ts: int)
    requires UniqueTitles(cs)
    ensures UniqueTitles(GetChaptersOf(ms, cs, next, url, chaptersOf, ts).chapters)
  {
    if ChapterSite(url).Some? && MangaByUrl(ms, url).Some? && chaptersOf(ChapterSite(url).value, url).Ok? {
      UpsertKeepsTitlesUnique(cs, next, MangaByUrl(ms, url).value.id, chaptersOf(ChapterSite(url).value, url).value, ts);
    }
  }

  /** The loop of `get_chapters`, one store call per fetched link. */
  method UpsertChapters(db: Database, mangaId: int, links: seq<Link>, ts: int) returns (error: Option<string>)
    requires db.Valid()
    modifies db
    ensures db.Valid()
    ensures db.mangas == old(db.mangas) && db.nextMangaId == old(db.nextMangaId)
    ensures Upsert(old(db.chapters), old(db.nextChapterId), mangaId, links, ts) ==
      Upserted(db.chapters, db.nextChapterId, error)
  {
    ghost var target := Upsert(db.chapters, db.nextChapterId, mangaId, links, ts);
    var i := 0;
    while i < |links|
      invariant 0 <= i <= |links|
      invariant db.Valid()
      invariant db.mangas == old(db.mangas) && db.nextMangaId == old(db.nextMangaId)
      invariant Upsert(db.chapters, db.nextChapterId, mangaId, links[i..], ts) == target
    {
      var l := links[i];
      assert links[i..][0] == l && links[i..][1..] == links[i + 1..];
      var inDb := ChapterByTitle(db.chapters, mangaId, l.text);
      if inDb.Some? {
        db.UpdateChapter(mangaId, l.text, l.url, ts);
      } else {
        var created := db.CreateChapter(mangaId, l.text, l.url, ts);
        if created.Err? {
          return Some(created.error);
        }
      }
      i := i + 1;
    }
    error := None;
  }

  /** `get_chapters`: refresh a manga's chapter list from its site and answer with the stored list. */
  method GetChapters(db: Database, url: string, chaptersOf: (Site, string) -> Result<seq<Link>, string>, ts: int)
    returns (r: Result<seq<ChapterRow>, string>)
    requires db.Valid()
    modifies db
    ensures db.Valid()
    ensures db.mangas == old(db.mangas) && db.nextMangaId == old(db.nextMangaId)
    ensures GetChaptersOf(old(db.mangas), old(db.chapters), old(db.nextChapterId), url, chaptersOf, ts) ==
      ChaptersOutcome(r, db.chapters, db.nextChapterId)
  {
    var site := ChapterSite(url);
    if site.None? {
      return Err(NoHandler(url));
    }
    var manga := MangaByUrl(db.mangas, url);
    if manga.None? {
      return Err(NotInDatabase(url));
    }
    var m := manga.value;
    var fetched := chaptersOf(site.value, url);
    if fetched.Err? {
      return Err(fetched.error);
    }
    var error := UpsertChapters(db, m.id, fetched.value, ts);
    if error.Some? {
      return Err(error.value);
    }
    r := Ok(ChaptersOf(db.chapters, m.id));
  }

  // -------------------------------------------------------------- open_manga

  /** `open_manga`: a known url is stamped with now and returned so; an unknown one is created. */
  method OpenManga(db: Database, link: Link, now: int) returns (m: MangaRow)
    requires db.Valid()
    modifies db
    ensures db.Valid()
    ensures db.chapters == old(db.chapters) && db.nextChapterId == old(db.nextChapterId)
    ensures MangaByUrl(old(db.mangas), link.url).Some? ==>
      var known := MangaByUrl(old(db.mangas), link.url).value;
      m == known.(updatedAt := now) && db.mangas == SetMangaTime(old(db.mangas), known.id, now)
    ensures MangaByUrl(old(db.mangas), link.url).None? ==>
      m == MangaRow(old(db.nextMangaId), link.text, link.url, link.image, now, now) &&
      db.mangas == old(db.mangas) + [m]
    ensures MangaByUrl(db.mangas, link.url) == Some(m)
  {
    var found := MangaByUrl(db.mangas, link.url);
    if found.Some? {
      m := found.value.(updatedAt := now);
      ghost var before := db.mangas;
      db.UpdateMangaTime(m.id, now);
      SetMangaTimeKeepsUrlLookup(before, link.url, now);
    } else {
      m := db.CreateManga(link.text, link.url, link.image, now);
    }
  }

  /** Stamping the first row with a url keeps it first, with the new time. */
  lemma SetMangaTimeKeepsUrlLookup(ms: seq<MangaRow>, url: string, now: int)
    requires MangaByUrl(ms, url).Some?
    ensures MangaByUrl(SetMangaTime(ms, MangaByUrl(ms, url).value.id, now), url) ==
      Some(MangaByUrl(ms, url).value.(updatedAt := now))
  {
    var m := MangaByUrl(ms, url).value;
    var ms' := SetMangaTime(ms, m.id, now);
    var k :| 0 <= k < |ms| && ms[k] == m && forall j :: 0 <= j < k ==> ms[j].url != url;
    assert ms'[k] == m.(updatedAt := now);
    assert forall j :: 0 <= j < |ms| ==> ms'[j].url == ms[j].url;
  }

  /** `open_manga_with_id`: stamps the manga with now. */
  method OpenMangaWithId(db: Database, id: int, now: int)
    requires db.Valid()
    modifies db
    ensures db.Valid()
    ensures db.mangas == SetMangaTime(old(db.mangas), id, now)
    ensures db.chapters == old(db.chapters) && db.nextChapterId == old(db.nextChapterId)
  {
    db.UpdateMangaTime(id, now);
  }

  /** An opened manga comes first in the listing when now is later than every stored time. */
  lemma OpenedMangaListedFirst(ms: seq<MangaRow>, id: int, now: int)
    requires exists k :: 0 <= k < |ms| && ms[k].id == id
    requires forall k :: 0 <= k < |ms| ==> ms[k].updatedAt < now
    ensures ListManga(SetMangaTime(ms, id, now)) != [] && ListManga(SetMangaTime(ms, id, now))[0].id == id
  {
    var ms' := SetMangaTime(ms, id, now);
    ListMangaSpec(ms');
    var listed := ListManga(ms');
    var k :| 0 <= k < |ms| && ms[k].id == id;
    assert ms'[k] in multiset(listed);
    var p :| 0 <= p < |listed| && listed[p] == ms'[k];
    assert listed[0] in multiset(ms');
    var q :| 0 <= q < |ms'| && ms'[q] == listed[0];
    if p > 0 {
      assert listed[0].updatedAt >= now;
    }
  }
}
