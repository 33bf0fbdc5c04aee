/** MangaListViewModel.kt: the list of opened manga, newest first. */
module MangaList {
  import Seqs
  import opened Db
  import opened Calls

  datatype MangaListUiState = MangaListUiState(loading: bool, list: seq<MangaRow>)

  const Initial := MangaListUiState(true, [])

  type Events = seq<Event<MangaListUiState>>

  /** The body `load` launches: loading, fetch, the list on success, not loading in any case. */
  function LoadEvents(s: MangaListUiState, listed: Outcome<seq<MangaRow>>): (evs: Events)
    ensures |evs| > 1 && evs[0] == Publish(s.(loading := true)) && evs[1] == Invoke(ListManga)
    ensures listed.Returned? ==> After(s, evs) == MangaListUiState(false, listed.value)
    ensures listed.Threw? ==> After(s, evs) == s.(loading := false)
  {
    var started := s.(loading := true);
    var fetch := [Publish(started), Invoke(ListManga)];
    match listed
    case Returned(list) => fetch + [Publish(started.(list := list)), Publish(started.(list := list, loading := false))]
    case Threw(_) => fetch + [Publish(started.(loading := false))]
  }

  /**
   * The body `deleteManga` launches, followed by the `load` it launches after a
   * delete. There is no finally: a failed delete leaves loading on.
   */
  function DeleteMangaEvents(s: MangaListUiState, id: int, deleted: Outcome<()>, listed: Outcome<seq<MangaRow>>): (evs: Events)
    ensures |evs| > 1 && evs[0] == Publish(s.(loading := true)) && evs[1] == Invoke(DeleteManga(id))
    ensures deleted.Threw? ==> After(s, evs) == s.(loading := true) && Invoke(ListManga) !in evs
    ensures deleted.Returned? && listed.Returned? ==> After(s, evs) == MangaListUiState(false, listed.value)
    ensures deleted.Returned? && listed.Threw? ==> After(s, evs) == s.(loading := false)
  {
    var started := s.(loading := true);
    var delete := [Publish(started), Invoke(DeleteManga(id))];
    match deleted
    case Threw(_) => delete
    case Returned(_) =>
      AfterAppend(s, delete, LoadEvents(started, listed));
      delete + LoadEvents(started, listed)
  }

  class MangaListViewModel {
    var uiState: MangaListUiState
    ghost var events: Events

    constructor ()
      ensures uiState == Initial && events == []
    {
      uiState := Initial;
      events := [];
    }

    method Update(next: MangaListUiState)
      modifies this
      ensures uiState == next && events == old(events) + [Publish(next)]
    {
      uiState := next;
      events := events + [Publish(next)];
    }

    method Call(op: CoreOp)
      modifies this
      ensures uiState == old(uiState) && events == old(events) + [Invoke(op)]
    {
      events := events + [Invoke(op)];
    }

    /** `load` */
    method Load(listed: Outcome<seq<MangaRow>>)
      modifies this
      ensures events == old(events) + LoadEvents(old(uiState), listed)
      ensures uiState == After(old(uiState), LoadEvents(old(uiState), listed))
    {
      Update(uiState.(loading := true));
      Call(ListManga);
      if listed.Returned? {
        Update(uiState.(list := listed.value));
      }
      Update(uiState.(loading := false));
    }

    /** `deleteManga` */
    method DeleteManga(id: int, deleted: Outcome<()>, listed: Outcome<seq<MangaRow>>)
      modifies this
      ensures events == old(events) + DeleteMangaEvents(old(uiState), id, deleted, listed)
      ensures uiState == After(old(uiState), DeleteMangaEvents(old(uiState), id, deleted, listed))
    {
      Update(uiState.(loading := true));
      Call(CoreOp.DeleteManga(id));
      if deleted.Returned? {
        Load(listed);
      }
    }
  }

  /**
   * When the listing is the store's after the delete, the screen ends showing
   * the remaining manga, newest first.
   */
  lemma DeleteShowsRemaining(s: MangaListUiState, ms: seq<MangaRow>, id: int)
    ensures var listed := Returned(Db.ListManga(Seqs.Filter((m: MangaRow) => m.id != id, ms)));
      var t := After(s, DeleteMangaEvents(s, id, Returned(()), listed));
      && !t.loading
      && (forall i :: 0 <= i < |t.list| ==> t.list[i].id != id)
      && (forall i, j :: 0 <= i < j < |t.list| ==> t.list[i].updatedAt >= t.list[j].updatedAt)
      && multiset(t.list) == multiset(Seqs.Filter((m: MangaRow) => m.id != id, ms))
  {
    var kept := Seqs.Filter((m: MangaRow) => m.id != id, ms);
    ListMangaSpec(kept);
    var t := After(s, DeleteMangaEvents(s, id, Returned(()), Returned(Db.ListManga(kept))));
    forall i | 0 <= i < |t.list|
      ensures t.list[i].id != id
    {
      assert t.list[i] in multiset(kept);
    }
  }
}
