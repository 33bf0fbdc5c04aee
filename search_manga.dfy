/** SearchMangaViewModel.kt: searching one site and opening a result. */
module SearchManga {
  import opened Wrappers
  import opened Text
  import opened Sites
  import opened Db
  import opened Core
  import opened Calls

  datatype SearchMangaUiState = SearchMangaUiState(
    text: string, sites: seq<Site>, selectedIndex: int, searching: bool, links: seq<Link>, error: Option<string>)

  const Initial := SearchMangaUiState("", SupportedSites, 0, false, [], None)

  type Events = seq<Event<SearchMangaUiState>>

  /** `sites.getOrNull(selectedIndex)` */
  function SelectedSite(s: SearchMangaUiState): (r: Option<Site>)
    ensures r.Some? <==> 0 <= s.selectedIndex < |s.sites|
    ensures r.Some? ==> r.value == s.sites[s.selectedIndex]
  {
    if 0 <= s.selectedIndex < |s.sites| then Some(s.sites[s.selectedIndex]) else None
  }

  /**
   * `search` and the body it launches: nothing while a search runs; else
   * searching on, the site's links (none without a site) or the error, and
   * searching off in any case.
   */
  function SearchEvents(s: SearchMangaUiState, found: Outcome<seq<Link>>): (evs: Events)
    ensures s.searching <==> evs == []
    ensures !s.searching ==> evs[0] == Publish(s.(searching := true)) && !After(s, evs).searching
    ensures !s.searching ==>
      var t := After(s, evs);
      && t.text == s.text && t.sites == s.sites && t.selectedIndex == s.selectedIndex
      && (SelectedSite(s).None? ==> t.links == [] && t.error == s.error && CallsOf(evs) == [])
      && (SelectedSite(s).Some? ==> CallsOf(evs) == [SearchSite(SelectedSite(s).value, s.text)])
      && (SelectedSite(s).Some? && found.Returned? ==> t.links == found.value && t.error == s.error)
      && (SelectedSite(s).Some? && found.Threw? ==> t.links == s.links && t.error == Some(found.text))
    ensures s.error.Some? ==> After(s, evs).error.Some?
  {
    if s.searching then []
    else
      var started := s.(searching := true);
      var body := SearchBody(started, SelectedSite(s), found);
      var last := After(started, body).(searching := false);
      var evs := [Publish(started)] + body + [Publish(last)];
      assert After(s, evs) == last;
      assert last.links == After(started, body).links && last.error == After(started, body).error;
      assert CallsOf(evs) == CallsOf(body) by {
        assert evs == [Publish(started)] + (body + [Publish(last)]);
        CallsAppend([Publish(started)], body + [Publish(last)]);
        CallsAppend(body, [Publish(last)]);
      }
      evs
  }

  /** The launched body of `search`, between switching searching on and off. */
  function SearchBody(started: SearchMangaUiState, site: Option<Site>, found: Outcome<seq<Link>>): (body: Events)
    ensures |body| > 0
    ensures var t := After(started, body);
      t.text == started.text && t.sites == started.sites && t.selectedIndex == started.selectedIndex
    ensures site.None? ==>
      After(started, body).links == [] && After(started, body).error == started.error && CallsOf(body) == []
    ensures site.Some? ==> CallsOf(body) == [SearchSite(site.value, started.text)]
    ensures site.Some? && found.Returned? ==>
      After(started, body).links == found.value && After(started, body).error == started.error
    ensures site.Some? && found.Threw? ==>
      After(started, body).links == started.links && After(started, body).error == Some(found.text)
  {
    match site
    case None => [Publish(started.(links := []))]
    case Some(site) =>
      var call := Invoke(SearchSite(site, started.text));
      var shown := match found
        case Returned(links) => Publish(started.(links := links))
        case Threw(e) => Publish(started.(error := Some(e)));
      assert CallsOf([call, shown]) == [SearchSite(site, started.text)] by {
        assert [call, shown][1..] == [shown];
        assert [shown][1..] == [];
        assert CallsOf([shown]) == [];
      }
      [call, shown]
  }

  /**
   * `openManga`: the opened manga's id as `Long.toString` writes it, or null
   * when the core threw.
   */
  function OpenMangaResult(outcome: Outcome<MangaRow>): (r: Option<string>)
    ensures r.Some? <==> outcome.Returned?
    ensures r.Some? ==> ParseDecimal(r.value) == Some(outcome.value.id)
  {
    match outcome
    case Threw(_) => None
    case Returned(m) =>
      IntDecimalRoundTrip(m.id);
      Some(IntToDecimal(m.id))
  }

  class SearchMangaViewModel {
    var uiState: SearchMangaUiState
    ghost var events: Events

    constructor ()
      ensures uiState == Initial && events == []
    {
      uiState := Initial;
      events := [];
    }

    method Update(next: SearchMangaUiState)
      modifies this
      ensures uiState == next && events == old(events) + [Publish(next)]
    {
      uiState := next;
      events := events + [Publish(next)];
    }

    method Call(op: CoreOp)
      modifies this
      ensures uiState == old(uiState) && events == old(events) + [Invoke(op)]
    {
      events := events + [Invoke(op)];
    }

    /** `setText`: only the text changes. */
    method SetText(text: string)
      modifies this
      ensures uiState == old(uiState).(text := text) && events == old(events) + [Publish(uiState)]
    {
      Update(uiState.(text := text));
    }

    /** `select`: only the index changes, whatever its value. */
    method Select(index: int)
      modifies this
      ensures uiState == old(uiState).(selectedIndex := index) && events == old(events) + [Publish(uiState)]
    {
      Update(uiState.(selectedIndex := index));
    }

    /** `search` */
    method Search(found: Outcome<seq<Link>>)
      modifies this
      ensures events == old(events) + SearchEvents(old(uiState), found)
      ensures uiState == After(old(uiState), SearchEvents(old(uiState), found))
    {
      if uiState.searching {
        return;
      }
      var site := SelectedSite(uiState);
      Update(uiState.(searching := true));
      // the launched body
      var failure: Option<string> := None;
      var links: seq<Link> := [];
      if site.Some? {
        Call(SearchSite(site.value, uiState.text));
        if found.Threw? {
          failure := Some(found.text);
        } else {
          links := found.value;
        }
      }
      if failure.None? {
        Update(uiState.(links := links));
      } else {
        Update(uiState.(error := failure));
      }
      Update(uiState.(searching := false));
    }
  }
}
