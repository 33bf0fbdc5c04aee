/** core/src/error.rs: the error type the core hands to the Android client. */
module Errors {
  import opened Wrappers

  datatype MangaError =
    | InternalError(msg: string)
    | NetworkError(msg: string)
    | MigrateError(msg: string)

  const InternalPrefix: string := "internal error: "
  const NetworkPrefix: string := "network error: "
  const MigratePrefix: string := "database migrate error: "

  /** The `#[error(...)]` display text of each variant. */
  function Display(e: MangaError): string {
    match e
    case InternalError(m) => InternalPrefix + m
    case NetworkError(m) => NetworkPrefix + m
    case MigrateError(m) => MigratePrefix + m
  }

  /** The errors that `From` converts, each given by its own display text. */
  datatype Source =
    | Anyhow(display: string)
    | Reqwest(display: string)
    | Join(display: string)
    | Sqlx(display: string)
    | SqlxMigrate(display: string)
    | UniffiCallback(reason: string)

  /** The `From<...> for MangaError` conversions. */
  function From(src: Source): (e: MangaError)
    ensures e.NetworkError? <==> src.Reqwest?
    ensures e.MigrateError? <==> src.SqlxMigrate?
    ensures e.InternalError? <==> (src.Anyhow? || src.Join? || src.Sqlx? || src.UniffiCallback?)
    ensures e.msg == if src.UniffiCallback? then "uniffi: " + src.reason else src.display
  {
    match src
    case Anyhow(d) => InternalError(d)
    case Reqwest(d) => NetworkError(d)
    case Join(d) => InternalError(d)
    case Sqlx(d) => InternalError(d)
    case SqlxMigrate(d) => MigrateError(d)
    case UniffiCallback(r) => InternalError("uniffi: " + r)
  }

  predicate HasPrefix(s: string, p: string) {
    |p| <= |s| && s[..|p|] == p
  }

  /** Reads a display text back into the error it came from. */
  function ParseDisplay(s: string): Option<MangaError> {
    if HasPrefix(s, InternalPrefix) then Some(InternalError(s[|InternalPrefix|..]))
    else if HasPrefix(s, NetworkPrefix) then Some(NetworkError(s[|NetworkPrefix|..]))
    else if HasPrefix(s, MigratePrefix) then Some(MigrateError(s[|MigratePrefix|..]))
    else None
  }

  /** The three prefixes start with different letters, so the display text determines the error. */
  lemma DisplayRoundTrip(e: MangaError)
    ensures ParseDisplay(Display(e)) == Some(e)
  {
    var s := Display(e);
    match e
    case InternalError(m) =>
      assert s[..|InternalPrefix|] == InternalPrefix;
      assert s[|InternalPrefix|..] == m;
    case NetworkError(m) =>
      assert s[0] == 'n';
      assert s[..|NetworkPrefix|] == NetworkPrefix;
      assert s[|NetworkPrefix|..] == m;
    case MigrateError(m) =>
      assert s[0] == 'd';
      assert s[..|MigratePrefix|] == MigratePrefix;
      assert s[|MigratePrefix|..] == m;
  }

  lemma DisplayInjective(e1: MangaError, e2: MangaError)
    requires Display(e1) == Display(e2)
    ensures e1 == e2
  {
    DisplayRoundTrip(e1);
    DisplayRoundTrip(e2);
  }
}
