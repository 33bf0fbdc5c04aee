/**
 * What the Android view models see of the core: each call into it either
 * returns or throws a MangaException, and each `_uiState.update` publishes a
 * new state. A launched coroutine body becomes a trace of these events.
 */
module Calls {
  import opened Sites
  import opened Db
  import opened Core

  /** How a call into the core ended; `text` is the exception's `toString()`. */
  datatype Outcome<+T> = Returned(value: T) | Threw(text: string)

  /** The core functions the view models call (their arguments as passed). */
  datatype CoreOp =
    | MigrationAvailable
    | DoMigration
    | ResetDb
    | ListManga
    | DeleteManga(mangaId: int)
    | GetManga(mangaId: int)
    | GetChaptersCache(url: string)
    | GetChapters(url: string)
    | GetChapter(chapterId: int)
    | MarkChapterRead(chapterId: int, isRead: bool)
    | GetSite(url: string)
    | GetImages(url: string)
    | SearchSite(site: Site, text: string)
    | OpenManga(link: Link)

  /** A published UI state, or a call into the core. */
  datatype Event<+S> = Publish(state: S) | Invoke(op: CoreOp)

  /** The UI state after the events: the last one published, else the state before. */
  function After<S>(s: S, evs: seq<Event<S>>): (r: S)
    ensures r == s || exists i :: 0 <= i < |evs| && evs[i] == Publish(r)
    ensures (forall i :: 0 <= i < |evs| ==> evs[i].Invoke?) ==> r == s
    decreases |evs|
  {
    if evs == [] then s
    else match evs[|evs| - 1]
      case Publish(t) => t
      case Invoke(_) => After(s, evs[..|evs| - 1])
  }

  lemma {:induction false} AfterAppend<S>(s: S, a: seq<Event<S>>, b: seq<Event<S>>)
    ensures After(s, a + b) == After(After(s, a), b)
    decreases |b|
  {
    if b != [] {
      var ab := a + b;
      var b' := b[..|b| - 1];
      assert ab[..|ab| - 1] == a + b';
      assert ab[|ab| - 1] == b[|b| - 1];
      AfterAppend(s, a, b');
      match b[|b| - 1]
      case Publish(t) =>
      case Invoke(_) =>
        assert After(s, ab) == After(s, a + b');
        assert After(After(s, a), b) == After(After(s, a), b');
    } else {
      assert a + b == a;
    }
  }

  /** The calls made, in order. */
  function CallsOf<S>(evs: seq<Event<S>>): (r: seq<CoreOp>)
    ensures forall op :: op in r <==> Invoke(op) in evs
  {
    if evs == [] then []
    else (if evs[0].Invoke? then [evs[0].op] else []) + CallsOf(evs[1..])
  }

  lemma {:induction false} CallsAppend<S>(a: seq<Event<S>>, b: seq<Event<S>>)
    ensures CallsOf(a + b) == CallsOf(a) + CallsOf(b)
  {
    if a != [] {
      assert (a + b)[1..] == a[1..] + b;
      CallsAppend(a[1..], b);
    } else {
      assert a + b == b;
    }
  }
}
