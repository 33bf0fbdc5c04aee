/** DataMigrationViewModel.kt: brings the schema up to date before the app starts. */
module DataMigration {
  import opened Wrappers
  import opened Calls

  datatype DataMigrationUiState = DataMigrationUiState(migrating: bool, finished: bool, error: Option<string>)

  const Initial := DataMigrationUiState(false, false, None)

  type Events = seq<Event<DataMigrationUiState>>

  /** The failure `migrate` catches, if any: the availability check's, else the migration's. */
  function MigrateFailure(available: Outcome<bool>, migration: Outcome<()>): Option<string> {
    match available
    case Threw(e) => Some(e)
    case Returned(true) => if migration.Threw? then Some(migration.text) else None
    case Returned(false) => None
  }

  /**
   * The body `migrate` launches: check, migrate when needed, then finished;
   * a failure becomes the error; `migrating` is cleared in any case.
   */
  function MigrateEvents(s: DataMigrationUiState, available: Outcome<bool>, migration: Outcome<()>): (evs: Events)
    ensures var t := After(s, evs);
      && !t.migrating
      && t.finished == (s.finished || MigrateFailure(available, migration).None?)
      && t.error == (if MigrateFailure(available, migration).Some? then MigrateFailure(available, migration) else s.error)
    ensures |evs| > 0 && evs[0] == Invoke(MigrationAvailable)
    ensures Invoke(DoMigration) in evs <==> available == Returned(true)
    ensures available == Returned(true) ==>
      exists i :: 0 <= i < |evs| - 1 && evs[i + 1] == Invoke(DoMigration) && evs[i].Publish? && evs[i].state.migrating
    ensures available != Returned(true) ==>
      forall i :: 0 <= i < |evs| && evs[i].Publish? ==> (evs[i].state.migrating ==> s.migrating)
    ensures s.finished ==> forall i :: 0 <= i < |evs| && evs[i].Publish? ==> evs[i].state.finished
  {
    var check := [Invoke(MigrationAvailable)];
    match available
    case Threw(e) =>
      var failed := s.(error := Some(e));
      check + [Publish(failed), Publish(failed.(migrating := false))]
    case Returned(false) =>
      var done := s.(finished := true);
      check + [Publish(done), Publish(done.(migrating := false))]
    case Returned(true) =>
      var running := s.(migrating := true);
      var ended := if migration.Threw? then running.(error := Some(migration.text)) else running.(finished := true);
      var evs := check + [Publish(running), Invoke(DoMigration), Publish(ended), Publish(ended.(migrating := false))];
      assert evs[2] == Invoke(DoMigration) && evs[1] == Publish(running);
      evs
  }

  /** The body `resetAndMigrate` launches, followed by the `migrate` it launches once the reset is done. */
  function ResetAndMigrateEvents(s: DataMigrationUiState, reset: Outcome<()>, available: Outcome<bool>, migration: Outcome<()>): (evs: Events)
    ensures |evs| > 1 && evs[0] == Publish(s.(error := None)) && evs[1] == Invoke(ResetDb)
    ensures reset.Threw? ==> Invoke(MigrationAvailable) !in evs && After(s, evs) == s.(error := Some(reset.text))
    ensures reset.Returned? && MigrateFailure(available, migration).None? ==>
      After(s, evs).finished && After(s, evs).error.None? && !After(s, evs).migrating
    ensures reset.Returned? && MigrateFailure(available, migration).Some? ==>
      After(s, evs).error == MigrateFailure(available, migration) && After(s, evs).finished == s.finished && !After(s, evs).migrating
    ensures reset.Returned? ==>
      evs == [Publish(s.(error := None)), Invoke(ResetDb)] + MigrateEvents(s.(error := None), available, migration)
    ensures s.finished ==> forall i :: 0 <= i < |evs| && evs[i].Publish? ==> evs[i].state.finished
  {
    var cleared := s.(error := None);
    var start := [Publish(cleared), Invoke(ResetDb)];
    match reset
    case Threw(e) => start + [Publish(cleared.(error := Some(e)))]
    case Returned(_) =>
      AfterAppend(s, start, MigrateEvents(cleared, available, migration));
      start + MigrateEvents(cleared, available, migration)
  }

  class DataMigrationViewModel {
    var uiState: DataMigrationUiState
    /** Everything published and called so far. */
    ghost var events: Events

    constructor ()
      ensures uiState == Initial && events == []
    {
      uiState := Initial;
      events := [];
    }

    /** `_uiState.update`. */
    method Update(next: DataMigrationUiState)
      modifies this
      ensures uiState == next && events == old(events) + [Publish(next)]
    {
      uiState := next;
      events := events + [Publish(next)];
    }

    /** A call into the core; its outcome is a parameter of the caller. */
    method Call(op: CoreOp)
      modifies this
      ensures uiState == old(uiState) && events == old(events) + [Invoke(op)]
    {
      events := events + [Invoke(op)];
    }

    /** `migrate`: try, catch MangaException, finally. */
    method Migrate(available: Outcome<bool>, migration: Outcome<()>)
      modifies this
      ensures events == old(events) + MigrateEvents(old(uiState), available, migration)
      ensures uiState == After(old(uiState), MigrateEvents(old(uiState), available, migration))
    {
      ghost var s := uiState;
      var failure: Option<string> := None;
      Call(MigrationAvailable);
      if available.Threw? {
        failure := Some(available.text);
      } else {
        if available.value {
          Update(uiState.(migrating := true));
          Call(DoMigration);
          if migration.Threw? {
            failure := Some(migration.text);
          }
        }
        if failure.None? {
          Update(uiState.(finished := true));
        }
      }
      if failure.Some? {
        Update(uiState.(error := failure));
      }
      Update(uiState.(migrating := false));
    }

    /** `resetAndMigrate`: clear the error, reset, then migrate; a reset failure is the error. */
    method ResetAndMigrate(reset: Outcome<()>, available: Outcome<bool>, migration: Outcome<()>)
      modifies this
      ensures events == old(events) + ResetAndMigrateEvents(old(uiState), reset, available, migration)
      ensures uiState == After(old(uiState), ResetAndMigrateEvents(old(uiState), reset, available, migration))
    {
      ghost var s := uiState;
      Update(uiState.(error := None));
      Call(ResetDb);
      if reset.Threw? {
        Update(uiState.(error := Some(reset.text)));
      } else {
        Migrate(available, migration);
      }
    }
  }
}
