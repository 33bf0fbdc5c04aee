/** ChapterListViewModel.kt: one manga and its chapters, first from the store, then refreshed. */
module ChapterList {
  import opened Wrappers
  import opened Db
  import opened Calls

  datatype ChapterListUiState = ChapterListUiState(loading: bool, manga: Option<MangaRow>, chapters: seq<ChapterRow>)

  const Initial := ChapterListUiState(true, None, [])

  type Events = seq<Event<ChapterListUiState>>

  /**
   * The body `load` launches: the manga, then the cached chapters, then the
   * refreshed ones; the first failure skips the rest; loading ends in any case.
   */
  function LoadEvents(s: ChapterListUiState, id: int, manga: Outcome<Option<MangaRow>>,
                      cached: Outcome<seq<ChapterRow>>, fetched: Outcome<seq<ChapterRow>>): (evs: Events)
    ensures |evs| > 1 && evs[0] == Invoke(GetManga(id)) && evs[|evs| - 1] == Publish(After(s, evs))
    ensures !After(s, evs).loading
  {
    var head := [Invoke(GetManga(id))];
    var steps := LoadSteps(s, manga, cached, fetched);
    var body, last := steps.0, steps.1;
    var evs := head + body + [Publish(last.(loading := false))];
    assert After(s, evs) == last.(loading := false);
    evs
  }

  /** The events of `load`, case by case. */
  lemma LoadEventsCases(s: ChapterListUiState, id: int, manga: Outcome<Option<MangaRow>>,
                       cached: Outcome<seq<ChapterRow>>, fetched: Outcome<seq<ChapterRow>>)
    ensures manga.Returned? && manga.value.Some? && cached.Threw? ==>
      var withManga := s.(manga := Some(manga.value.value));
      LoadEvents(s, id, manga, cached, fetched) == [Invoke(GetManga(id)), Publish(withManga), Invoke(GetChaptersCache(manga.value.value.url)),
             Publish(withManga.(loading := false))]
    ensures manga.Returned? && manga.value.Some? && cached.Returned? && fetched.Threw? ==>
      var m := manga.value.value;
      var withCache := s.(manga := Some(m), chapters := cached.value);
      LoadEvents(s, id, manga, cached, fetched) == [Invoke(GetManga(id)), Publish(s.(manga := Some(m))), Invoke(GetChaptersCache(m.url)),
             Publish(withCache), Invoke(GetChapters(m.url)), Publish(withCache.(loading := false))]
    ensures manga.Returned? && manga.value.Some? && cached.Returned? && fetched.Returned? ==>
      var m := manga.value.value;
      var done := s.(manga := Some(m), chapters := fetched.value);
      LoadEvents(s, id, manga, cached, fetched) == [Invoke(GetManga(id)), Publish(s.(manga := Some(m))), Invoke(GetChaptersCache(m.url)),
             Publish(s.(manga := Some(m), chapters := cached.value)), Invoke(GetChapters(m.url)),
             Publish(done), Publish(done.(loading := false))]
  {
  }

  /** Loading stays as it was in every state `load` publishes but the last. */
  lemma LoadingUntilLast(s: ChapterListUiState, id: int, manga: Outcome<Option<MangaRow>>,
                       cached: Outcome<seq<ChapterRow>>, fetched: Outcome<seq<ChapterRow>>)
    ensures var evs := LoadEvents(s, id, manga, cached, fetched);
      forall i :: 0 <= i < |evs| - 1 && evs[i].Publish? ==> evs[i].state.loading == s.loading
  {
    LoadEventsCases(s, id, manga, cached, fetched);
  }

  /** Without a manga `load` only ends loading. */
  lemma LoadWithoutManga(s: ChapterListUiState, id: int, manga: Outcome<Option<MangaRow>>,
                       cached: Outcome<seq<ChapterRow>>, fetched: Outcome<seq<ChapterRow>>)
    ensures (manga.Threw? || manga == Returned(None)) ==>
      LoadEvents(s, id, manga, cached, fetched) == [Invoke(GetManga(id)), Publish(s.(loading := false))]
    ensures After(s, LoadEvents(s, id, manga, cached, fetched)).manga != s.manga ==> manga.Returned? && manga.value.Some?
  {
    LoadEventsCases(s, id, manga, cached, fetched);
  }

  /**
   * With a manga `load` shows it, asks for the cached chapters and, when they
   * come, shows them and asks for the refreshed ones, which replace them.
   */
  lemma LoadWithManga(s: ChapterListUiState, id: int, manga: Outcome<Option<MangaRow>>,
                       cached: Outcome<seq<ChapterRow>>, fetched: Outcome<seq<ChapterRow>>)
    requires manga.Returned? && manga.value.Some?
    ensures var evs := LoadEvents(s, id, manga, cached, fetched);
      var m := manga.value.value;
      && |evs| > 3 && evs[1] == Publish(s.(manga := Some(m))) && evs[2] == Invoke(GetChaptersCache(m.url))
      && After(s, evs).manga == Some(m)
      && (cached.Threw? ==> Invoke(GetChapters(m.url)) !in evs && After(s, evs).chapters == s.chapters)
      && (cached.Returned? ==>
            |evs| > 5 && evs[3] == Publish(s.(manga := Some(m), chapters := cached.value)) && evs[4] == Invoke(GetChapters(m.url)))
      && (cached.Returned? && fetched.Returned? ==> After(s, evs).chapters == fetched.value)
      && (cached.Returned? && fetched.Threw? ==> After(s, evs).chapters == cached.value)
  {
    LoadEventsCases(s, id, manga, cached, fetched);
  }

  /** The try block after `getManga` and the state it leaves. */
  function LoadSteps(s: ChapterListUiState, manga: Outcome<Option<MangaRow>>,
                     cached: Outcome<seq<ChapterRow>>, fetched: Outcome<seq<ChapterRow>>): (Events, ChapterListUiState)
  {
    match manga
    case Threw(_) => ([], s)
    case Returned(None) => ([], s)
    case Returned(Some(m)) =>
      var withManga := s.(manga := Some(m));
      var ask := [Publish(withManga), Invoke(GetChaptersCache(m.url))];
      match cached
      case Threw(_) => (ask, withManga)
      case Returned(cache) =>
        var withCache := withManga.(chapters := cache);
        var refresh := ask + [Publish(withCache), Invoke(GetChapters(m.url))];
        match fetched
        case Threw(_) => (refresh, withCache)
        case Returned(chapters) => (refresh + [Publish(withCache.(chapters := chapters))], withCache.(chapters := chapters))
  }

  class ChapterListViewModel {
    var uiState: ChapterListUiState
    ghost var events: Events

    constructor ()
      ensures uiState == Initial && events == []
    {
      uiState := Initial;
      events := [];
    }

    method Update(next: ChapterListUiState)
      modifies this
      ensures uiState == next && events == old(events) + [Publish(next)]
    {
      uiState := next;
      events := events + [Publish(next)];
    }

    method Call(op: CoreOp)
      modifies this
      ensures uiState == old(uiState) && events == old(events) + [Invoke(op)]
    {
      events := events + [Invoke(op)];
    }

    /** `load`, with the id already read as a number. */
    method Load(id: int, manga: Outcome<Option<MangaRow>>, cached: Outcome<seq<ChapterRow>>, fetched: Outcome<seq<ChapterRow>>)
      modifies this
      ensures events == old(events) + LoadEvents(old(uiState), id, manga, cached, fetched)
      ensures uiState == After(old(uiState), LoadEvents(old(uiState), id, manga, cached, fetched))
    {
      ghost var s := uiState;
      Call(GetManga(id));
      Steps(manga, cached, fetched);
      Update(uiState.(loading := false));
      assert LoadEvents(s, id, manga, cached, fetched) ==
        [Invoke(GetManga(id))] + LoadSteps(s, manga, cached, fetched).0 + [Publish(uiState)];
    }

    /** The try block of `load` once `getManga` is asked. */
    method Steps(manga: Outcome<Option<MangaRow>>, cached: Outcome<seq<ChapterRow>>, fetched: Outcome<seq<ChapterRow>>)
      modifies this
      ensures events == old(events) + LoadSteps(old(uiState), manga, cached, fetched).0
      ensures uiState == LoadSteps(old(uiState), manga, cached, fetched).1
    {
      if manga.Returned? && manga.value.Some? {
        var m := manga.value.value;
        Update(uiState.(manga := Some(m)));
        Call(GetChaptersCache(m.url));
        if cached.Returned? {
          Update(uiState.(chapters := cached.value));
          Call(GetChapters(m.url));
          if fetched.Returned? {
            Update(uiState.(chapters := fetched.value));
          }
        }
      }
    }
  }
}
