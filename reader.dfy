/** ReaderViewModel.kt: the page images of one chapter and the headers to fetch them with. */
module Reader {
  import opened Wrappers
  import opened Db
  import opened Core
  import opened Calls

  datatype ReaderUiState = ReaderUiState(images: seq<string>, headers: map<string, string>)

  const Initial := ReaderUiState([], map[])

  type Events = seq<Event<ReaderUiState>>

  /**
   * The body `load` launches. A found chapter is marked read, then its site and
   * images are looked up in the core; `imagesOf` stands for each site's
   * `images`. Any exception is swallowed without publishing.
   */
  function LoadEvents(s: ReaderUiState, chapterId: int, chapter: Outcome<Option<ChapterRow>>, marked: Outcome<()>,
                      imagesOf: (Site, string) -> Result<seq<string>, string>): (evs: Events)
    ensures |evs| > 0 && evs[0] == Invoke(GetChapter(chapterId))
  {
    var fetch := [Invoke(GetChapter(chapterId))];
    match chapter
    case Threw(_) => fetch
    case Returned(None) => fetch + [Publish(s.(images := []))]
    case Returned(Some(c)) => fetch + FoundEvents(s, c, marked, imagesOf)
  }

  /** The part of `load` for a chapter that was found: mark it read, then show it. */
  function FoundEvents(s: ReaderUiState, c: ChapterRow, marked: Outcome<()>,
                       imagesOf: (Site, string) -> Result<seq<string>, string>): (evs: Events)
    ensures |evs| > 0 && evs[0] == Invoke(MarkChapterRead(c.id, true))
    ensures marked.Threw? ==> After(s, evs) == s
  {
    var mark := [Invoke(MarkChapterRead(c.id, true))];
    match marked
    case Threw(_) => mark
    case Returned(_) => mark + ShowEvents(s, c.url, imagesOf)
  }

  /**
   * The tail of `load` once the chapter is marked read: look up the site and the
   * images, and publish both unless `getImages` threw.
   */
  function ShowEvents(s: ReaderUiState, url: string, imagesOf: (Site, string) -> Result<seq<string>, string>): (evs: Events)
    ensures |evs| > 1 && evs[0] == Invoke(CoreOp.GetSite(url)) && evs[1] == Invoke(CoreOp.GetImages(url))
    ensures Core.GetImages(url, imagesOf).Err? ==> After(s, evs) == s
    ensures Core.GetImages(url, imagesOf).Ok? ==> After(s, evs).images == Core.GetImages(url, imagesOf).value
  {
    var lookup := [Invoke(CoreOp.GetSite(url)), Invoke(CoreOp.GetImages(url))];
    match Core.GetImages(url, imagesOf)
    case Err(_) => lookup
    case Ok(images) =>
      match Core.GetSite(url)
      case Some(site) => lookup + [Publish(s.(headers := RequestHeaders(site), images := images))]
      case None => lookup + [Publish(s.(images := images))]
  }

  /** What `load` shows: the found chapter's images and its site's headers; nothing new on an exception. */
  lemma LoadEventsSpec(s: ReaderUiState, chapterId: int, chapter: Outcome<Option<ChapterRow>>, marked: Outcome<()>,
                       imagesOf: (Site, string) -> Result<seq<string>, string>)
    ensures chapter == Returned(None) ==>
      LoadEvents(s, chapterId, chapter, marked, imagesOf) == [Invoke(GetChapter(chapterId)), Publish(s.(images := []))]
    ensures chapter.Returned? && chapter.value.Some? ==>
      var evs := LoadEvents(s, chapterId, chapter, marked, imagesOf);
      |evs| > 1 && evs[1] == Invoke(MarkChapterRead(chapter.value.value.id, true))
    ensures chapter.Returned? && chapter.value.Some? && marked.Returned? ==>
      var evs := LoadEvents(s, chapterId, chapter, marked, imagesOf);
      var url := chapter.value.value.url;
      && |evs| > 3 && evs[2] == Invoke(CoreOp.GetSite(url)) && evs[3] == Invoke(CoreOp.GetImages(url))
      && (Core.GetSite(url).Some? && Core.GetImages(url, imagesOf).Ok? ==>
            After(s, evs) == ReaderUiState(Core.GetImages(url, imagesOf).value, RequestHeaders(Core.GetSite(url).value)))
      && (Core.GetSite(url).None? ==> After(s, evs) == s)
    ensures chapter.Threw? || (chapter.Returned? && chapter.value.Some? && marked.Threw?) ==> After(s, LoadEvents(s, chapterId, chapter, marked, imagesOf)) == s
    ensures After(s, LoadEvents(s, chapterId, chapter, marked, imagesOf)) != s ==> chapter.Returned?
  {
  }

  /** Without a site for the chapter's url `getImages` throws, so the screen keeps what it had. */
  lemma NoSiteNoImages(s: ReaderUiState, chapterId: int, c: ChapterRow, imagesOf: (Site, string) -> Result<seq<string>, string>)
    requires forall site :: site in SupportedSites ==> !CanHandleImages(site, c.url)
    ensures After(s, LoadEvents(s, chapterId, Returned(Some(c)), Returned(()), imagesOf)) == s
  {
    GetImagesSpec(c.url, imagesOf);
  }

  /** A spoilerplus.tv chapter is shown with its Referer header and that site's images. */
  lemma SpoilerplusChapterHeaders(s: ReaderUiState, chapterId: int, c: ChapterRow,
                                  imagesOf: (Site, string) -> Result<seq<string>, string>)
    requires CanHandleImages(Spoilerplustv, c.url) && imagesOf(Spoilerplustv, c.url).Ok?
    ensures After(s, LoadEvents(s, chapterId, Returned(Some(c)), Returned(()), imagesOf)) ==
      ReaderUiState(imagesOf(Spoilerplustv, c.url).value, map["Referer" := "https://spoilerplus.tv/"])
  {
    GetSiteSpec(c.url, Spoilerplustv);
  }

  class ReaderViewModel {
    var uiState: ReaderUiState
    ghost var events: Events

    constructor ()
      ensures uiState == Initial && events == []
    {
      uiState := Initial;
      events := [];
    }

    method Update(next: ReaderUiState)
      modifies this
      ensures uiState == next && events == old(events) + [Publish(next)]
    {
      uiState := next;
      events := events + [Publish(next)];
    }

    method Call(op: CoreOp)
      modifies this
      ensures uiState == old(uiState) && events == old(events) + [Invoke(op)]
    {
      events := events + [Invoke(op)];
    }

    /** `load`, with the id already read as a number. */
    method Load(chapterId: int, chapter: Outcome<Option<ChapterRow>>, marked: Outcome<()>,
                imagesOf: (Site, string) -> Result<seq<string>, string>)
      modifies this
      ensures events == old(events) + LoadEvents(old(uiState), chapterId, chapter, marked, imagesOf)
      ensures uiState == After(old(uiState), LoadEvents(old(uiState), chapterId, chapter, marked, imagesOf))
    {
      ghost var s := uiState;
      Call(GetChapter(chapterId));
      match chapter
      case Threw(_) =>
        assert LoadEvents(s, chapterId, chapter, marked, imagesOf) == [Invoke(GetChapter(chapterId))];
      case Returned(None) =>
        Update(uiState.(images := []));
        assert LoadEvents(s, chapterId, chapter, marked, imagesOf) ==
          [Invoke(GetChapter(chapterId)), Publish(s.(images := []))];
      case Returned(Some(c)) =>
        Found(c, marked, imagesOf);
        assert LoadEvents(s, chapterId, chapter, marked, imagesOf) ==
          [Invoke(GetChapter(chapterId))] + FoundEvents(s, c, marked, imagesOf);
        AfterAppend(s, [Invoke(GetChapter(chapterId))], FoundEvents(s, c, marked, imagesOf));
    }

    /** The part of `load` for a chapter that was found. */
    method Found(c: ChapterRow, marked: Outcome<()>, imagesOf: (Site, string) -> Result<seq<string>, string>)
      modifies this
      ensures events == old(events) + FoundEvents(old(uiState), c, marked, imagesOf)
      ensures uiState == After(old(uiState), FoundEvents(old(uiState), c, marked, imagesOf))
    {
      ghost var s := uiState;
      Call(MarkChapterRead(c.id, true));
      if marked.Threw? {
        return;
      }
      ghost var mark := [Invoke(MarkChapterRead(c.id, true))];
      Show(c.url, imagesOf);
      AfterAppend(s, mark, ShowEvents(s, c.url, imagesOf));
    }

    /** The tail of `load` after marking the chapter read. */
    method Show(url: string, imagesOf: (Site, string) -> Result<seq<string>, string>)
      modifies this
      ensures events == old(events) + ShowEvents(old(uiState), url, imagesOf)
      ensures uiState == After(old(uiState), ShowEvents(old(uiState), url, imagesOf))
    {
      ghost var s := uiState;
      Call(CoreOp.GetSite(url));
      var site := Core.GetSite(url);
      Call(CoreOp.GetImages(url));
      var fetched := Core.GetImages(url, imagesOf);
      ghost var lookup := [Invoke(CoreOp.GetSite(url)), Invoke(CoreOp.GetImages(url))];
      assert events == old(events) + lookup;
      if fetched.Err? {
        return;
      }
      // `site` is always present here: `getImages` has already thrown otherwise.
      var headers := if site.Some? then RequestHeaders(site.value) else uiState.headers;
      Update(uiState.(headers := headers, images := fetched.value));
      assert ShowEvents(s, url, imagesOf) == lookup + [Publish(s.(headers := headers, images := fetched.value))];
    }
  }
}
