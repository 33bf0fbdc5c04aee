/**
 * core/src/db.rs: the store behind the core. The two SQLite tables are kept
 * in memory in row order; each query is the table operation it performs.
 */
module Db {
  import opened Wrappers
  import opened Seqs
  import opened Text
  import opened Sorting
  import opened Errors

  /** A row of the `manga` table (MangaDb). */
  datatype MangaRow = MangaRow(
    id: int, title: string, url: string, image: Option<string>, createdAt: int, updatedAt: int)

  /**
   * A row of the `chapter` table (ChapterDb). The float `title_number` is kept
   * as the text it was parsed from.
   */
  datatype ChapterRow = ChapterRow(
    id: int, manga: int, title: string, titleNumber: string, url: string,
    isRead: int, createdAt: int, updatedAt: int)

  // ---------------------------------------------------------------- queries

  /** `SELECT * FROM manga WHERE id = ?` with `fetch_optional`: the first such row. */
  function MangaById(ms: seq<MangaRow>, id: int): Option<MangaRow> {
    Find((m: MangaRow) => m.id == id, ms)
  }

  /** `SELECT * FROM manga WHERE url = ?`: the first row with that url. */
  function MangaByUrl(ms: seq<MangaRow>, url: string): Option<MangaRow> {
    Find((m: MangaRow) => m.url == url, ms)
  }

  /** `SELECT * FROM chapter WHERE id = ?` */
  function ChapterById(cs: seq<ChapterRow>, id: int): Option<ChapterRow> {
    Find((c: ChapterRow) => c.id == id, cs)
  }

  /** `SELECT * FROM chapter WHERE manga = ? AND title = ?`: the first such row. */
  function ChapterByTitle(cs: seq<ChapterRow>, mangaId: int, title: string): Option<ChapterRow> {
    Find((c: ChapterRow) => c.manga == mangaId && c.title == title, cs)
  }

  /** `get_chapters`: the chapters of one manga (the ORDER BY on the float is not modelled). */
  function ChaptersOf(cs: seq<ChapterRow>, mangaId: int): (r: seq<ChapterRow>)
    ensures forall i :: 0 <= i < |r| ==> r[i].manga == mangaId && r[i] in cs
    ensures forall i :: 0 <= i < |cs| && cs[i].manga == mangaId ==> cs[i] in r
  {
    Filter((c: ChapterRow) => c.manga == mangaId, cs)
  }

  function Recency(m: MangaRow): int {
    -m.updatedAt
  }

  /** `SELECT * FROM manga ORDER BY updated_at DESC` */
  function ListManga(ms: seq<MangaRow>): seq<MangaRow> {
    InsertionSort(ms, Recency)
  }

  /** The listing is newest first and holds every row exactly as often as the table does. */
  lemma ListMangaSpec(ms: seq<MangaRow>)
    ensures forall i, j :: 0 <= i < j < |ListManga(ms)| ==> ListManga(ms)[i].updatedAt >= ListManga(ms)[j].updatedAt
    ensures multiset(ListManga(ms)) == multiset(ms)
  {
    SortSorted(ms, Recency);
    var r := ListManga(ms);
    forall i, j | 0 <= i < j < |r|
      ensures r[i].updatedAt >= r[j].updatedAt
    {
      assert Recency(r[i]) <= Recency(r[j]);
    }
  }

  // ---------------------------------------------------------------- updates

  /** `UPDATE chapter SET url = ?, updated_at = ? WHERE manga = ? AND title = ?` */
  function SetUrl(cs: seq<ChapterRow>, mangaId: int, title: string, url: string, ts: int): (r: seq<ChapterRow>)
    ensures |r| == |cs|
    ensures forall i :: 0 <= i < |cs| ==>
      if cs[i].manga == mangaId && cs[i].title == title
      then r[i].url == url && r[i].updatedAt == ts && r[i].(url := cs[i].url, updatedAt := cs[i].updatedAt) == cs[i]
      else r[i] == cs[i]
  {
    seq(|cs|, i requires 0 <= i < |cs| =>
      if cs[i].manga == mangaId && cs[i].title == title then cs[i].(url := url, updatedAt := ts) else cs[i])
  }

  /** The stored form of a read flag. */
  function ReadFlag(isRead: bool): (v: int)
    ensures v == 1 <==> isRead
    ensures v == 0 <==> !isRead
  {
    if isRead then 1 else 0
  }

  /** `UPDATE chapter SET is_read = ?, updated_at = ? WHERE id = ?` */
  function SetRead(cs: seq<ChapterRow>, id: int, isRead: bool, ts: int): (r: seq<ChapterRow>)
    ensures |r| == |cs|
    ensures forall i :: 0 <= i < |cs| ==>
      if cs[i].id == id
      then r[i].isRead == ReadFlag(isRead) && r[i].updatedAt == ts &&
        r[i].(isRead := cs[i].isRead, updatedAt := cs[i].updatedAt) == cs[i]
      else r[i] == cs[i]
  {
    seq(|cs|, i requires 0 <= i < |cs| =>
      if cs[i].id == id then cs[i].(isRead := ReadFlag(isRead), updatedAt := ts) else cs[i])
  }

  /** `UPDATE manga SET updated_at = ? WHERE id = ?` */
  function SetMangaTime(ms: seq<MangaRow>, id: int, ts: int): (r: seq<MangaRow>)
    ensures |r| == |ms|
    ensures forall i :: 0 <= i < |ms| ==>
      if ms[i].id == id then r[i] == ms[i].(updatedAt := ts) else r[i] == ms[i]
  {
    seq(|ms|, i requires 0 <= i < |ms| => if ms[i].id == id then ms[i].(updatedAt := ts) else ms[i])
  }

  // ---------------------------------------------------------- title number

  predicate IsNumberChar(c: char) {
    IsDecimalDigit(c) || c == '.'
  }

  /** The end of the run of digits and dots that starts at i. */
  function RunEnd(s: string, i: nat): (j: nat)
    requires i <= |s|
    ensures i <= j <= |s| && (j == |s| || !IsNumberChar(s[j]))
    ensures forall k :: i <= k < j ==> IsNumberChar(s[k])
    decreases |s| - i
  {
    if i < |s| && IsNumberChar(s[i]) then RunEnd(s, i + 1) else i
  }

  /**
   * At index i of the title starts a maximal run equal to run, and no digit or
   * dot comes before it.
   */
  predicate LeftmostRunAt(title: string, i: nat, run: string) {
    && i + |run| <= |title|
    && title[i..i + |run|] == run
    && (forall k :: 0 <= k < i ==> !IsNumberChar(title[k]))
    && (i + |run| == |title| || !IsNumberChar(title[i + |run|]))
  }

  /** The capture of `([\d.]+)`: the leftmost run of digits and dots, taken whole. */
  function NumberRun(title: string): (r: Option<string>)
    ensures r.None? <==> forall k :: 0 <= k < |title| ==> !IsNumberChar(title[k])
    ensures r.Some? ==> r.value != [] && forall k :: 0 <= k < |r.value| ==> IsNumberChar(r.value[k])
    ensures r.Some? ==> exists i: nat :: LeftmostRunAt(title, i, r.value)
  {
    match FindIndex(IsNumberChar, title)
    case None => None
    case Some(i) =>
      var j := RunEnd(title, i);
      assert title[i..j][0] == title[i];
      assert LeftmostRunAt(title, i, title[i..j]);
      Some(title[i..j])
  }

  /** A title has one leftmost run. */
  lemma LeftmostRunUnique(title: string, i: nat, run: string, i': nat, run': string)
    requires run != [] && forall k :: 0 <= k < |run| ==> IsNumberChar(run[k])
    requires run' != [] && forall k :: 0 <= k < |run'| ==> IsNumberChar(run'[k])
    requires LeftmostRunAt(title, i, run) && LeftmostRunAt(title, i', run')
    ensures i == i' && run == run'
  {
    assert title[i] == run[0];
    assert title[i'] == run'[0];
    assert forall k :: i <= k < i + |run| ==> title[k] == run[k - i];
    assert forall k :: i <= k < i + |run'| ==> title[k] == run'[k - i];
  }

  const NoNumberMessage: string := "failed to extract number from chapter title"
  /** The display text of the parse error f64::from_str gives for such a run. */
  const BadNumberMessage: string := "invalid float literal"

  /** The chapter number `create_chapter` stores, or the reason it fails. */
  function TitleNumber(title: string): (r: Result<string, string>)
    ensures NumberRun(title).None? ==> r == Err(NoNumberMessage)
    ensures NumberRun(title).Some? ==>
      (if F64AcceptsRun(NumberRun(title).value) then r == Ok(NumberRun(title).value) else r == Err(BadNumberMessage))
  {
    match NumberRun(title)
    case None => Err(NoNumberMessage)
    case Some(run) => if F64AcceptsRun(run) then Ok(run) else Err(BadNumberMessage)
  }

  /** A title whose first run is a plain ASCII number is accepted with that number. */
  lemma TitleNumberOfPlainNumber(before: string, digits: string, after: string)
    requires forall k :: 0 <= k < |before| ==> !IsNumberChar(before[k])
    requires digits != [] && AllAsciiDigits(digits)
    requires after == [] || !IsNumberChar(after[0])
    ensures TitleNumber(before + digits + after) == Ok(digits)
  {
    var title := before + digits + after;
    assert title[..|before|] == before;
    assert title[|before|..|before| + |digits|] == digits;
    assert forall k :: 0 <= k < |digits| ==> IsNumberChar(digits[k]);
    if after != [] {
      assert title[|before| + |digits|] == after[0];
    }
    assert LeftmostRunAt(title, |before|, digits);
    assert IsNumberChar(title[|before|]);
    var run := NumberRun(title).value;
    var i: nat :| LeftmostRunAt(title, i, run);
    LeftmostRunUnique(title, i, run, |before|, digits);
    assert forall k :: 0 <= k < |digits| ==> digits[k] != '.';
    assert '.' !in digits;
  }

  // ------------------------------------------------------------- migrations

  datatype MigrationType = Simple | ReversibleUp | ReversibleDown

  /** A migration the program ships (`sqlx::migrate!()`). */
  datatype Migration = Migration(version: int, kind: MigrationType, checksum: seq<bv8>)

  /** A row of the `_sqlx_migrations` table. */
  datatype AppliedMigration = AppliedMigration(version: int, checksum: seq<bv8>)

  /** Collected into a HashMap by version: a later row replaces an earlier one. */
  function AppliedByVersion(applied: seq<AppliedMigration>): map<int, seq<bv8>> {
    if applied == [] then map[]
    else AppliedByVersion(applied[..|applied| - 1])[applied[|applied| - 1].version := applied[|applied| - 1].checksum]
  }

  lemma {:induction false} AppliedByVersionSpec(applied: seq<AppliedMigration>, v: int)
    ensures v in AppliedByVersion(applied) <==> exists i :: 0 <= i < |applied| && applied[i].version == v
    ensures v in AppliedByVersion(applied) ==>
      exists i :: 0 <= i < |applied| && applied[i] == AppliedMigration(v, AppliedByVersion(applied)[v]) &&
        forall j :: i < j < |applied| ==> applied[j].version != v
  {
    if applied != [] {
      var init := applied[..|applied| - 1];
      AppliedByVersionSpec(init, v);
      assert forall i :: 0 <= i < |init| ==> init[i] == applied[i];
      if applied[|applied| - 1].version != v {
        if exists i :: 0 <= i < |applied| && applied[i].version == v {
          var i :| 0 <= i < |applied| && applied[i].version == v;
          assert init[i].version == v;
        }
      } else {
        assert applied[|applied| - 1] == AppliedMigration(v, AppliedByVersion(applied)[v]);
      }
    }
  }

  predicate IsMismatched(applied: map<int, seq<bv8>>, m: Migration) {
    !m.kind.ReversibleDown? && m.version in applied && applied[m.version] != m.checksum
  }

  predicate IsUnapplied(applied: map<int, seq<bv8>>, m: Migration) {
    !m.kind.ReversibleDown? && m.version !in applied
  }

  const MismatchMessage: string := "mismatched migration is found"

  /** `migration_available`: a changed applied migration is an error, else whether any is pending. */
  function MigrationAvailable(migrations: seq<Migration>, applied: seq<AppliedMigration>): Result<bool, MangaError> {
    var byVersion := AppliedByVersion(applied);
    if Find((m: Migration) => IsMismatched(byVersion, m), migrations).Some? then
      Err(MigrateError(MismatchMessage))
    else
      Ok(Find((m: Migration) => IsUnapplied(byVersion, m), migrations).Some?)
  }

  /** The error case first, then "pending" exactly when some up migration's version was never applied. */
  lemma MigrationAvailableSpec(migrations: seq<Migration>, applied: seq<AppliedMigration>)
    ensures MigrationAvailable(migrations, applied).Err? <==>
      exists i :: 0 <= i < |migrations| && IsMismatched(AppliedByVersion(applied), migrations[i])
    ensures MigrationAvailable(migrations, applied).Err? ==>
      MigrationAvailable(migrations, applied).error == MigrateError(MismatchMessage)
    ensures MigrationAvailable(migrations, applied) == Ok(true) <==>
      (forall i :: 0 <= i < |migrations| ==> !IsMismatched(AppliedByVersion(applied), migrations[i])) &&
      exists i :: 0 <= i < |migrations| && IsUnapplied(AppliedByVersion(applied), migrations[i])
  {
  }

  /** Down migrations never change the answer. */
  lemma DownMigrationsIgnored(migrations: seq<Migration>, applied: seq<AppliedMigration>)
    ensures MigrationAvailable(Filter((m: Migration) => !m.kind.ReversibleDown?, migrations), applied) ==
      MigrationAvailable(migrations, applied)
  {
    var ups := Filter((m: Migration) => !m.kind.ReversibleDown?, migrations);
    var byVersion := AppliedByVersion(applied);
    MigrationAvailableSpec(migrations, applied);
    MigrationAvailableSpec(ups, applied);
    if exists i :: 0 <= i < |migrations| && IsMismatched(byVersion, migrations[i]) {
      var i :| 0 <= i < |migrations| && IsMismatched(byVersion, migrations[i]);
      assert migrations[i] in ups;
    }
    if exists i :: 0 <= i < |migrations| && IsUnapplied(byVersion, migrations[i]) {
      var i :| 0 <= i < |migrations| && IsUnapplied(byVersion, migrations[i]);
      assert migrations[i] in ups;
    }
  }

  // ------------------------------------------------------------------ reset

  /** How many bytes a character takes in UTF-8. */
  function Utf8Len(c: char): nat {
    if c as int < 0x80 then 1 else if c as int < 0x800 then 2 else if c as int < 0x1_0000 then 3 else 4
  }

  function ByteLen(s: string): nat {
    if s == [] then 0 else Utf8Len(s[0]) + ByteLen(s[1..])
  }

  lemma ByteLenPrefix(s: string, k: nat)
    requires 0 < k <= |s|
    ensures ByteLen(s[..k]) == Utf8Len(s[0]) + ByteLen(s[1..][..k - 1])
  {
    assert s[..k][1..] == s[1..][..k - 1];
  }

  /**
   * `&s[n..]` on a Rust string: the rest after the first n bytes, or None where
   * slicing panics (n is past the end or inside a character).
   */
  function DropBytes(s: string, n: nat): (r: Option<string>)
    ensures r.Some? ==> |r.value| <= |s| && r.value == s[|s| - |r.value|..] && ByteLen(s[..|s| - |r.value|]) == n
    ensures r.None? ==> forall k :: 0 <= k <= |s| ==> ByteLen(s[..k]) != n
  {
    if n == 0 then
      assert s[..0] == [];
      Some(s)
    else if s == [] || Utf8Len(s[0]) > n then
      assert forall k :: 0 < k <= |s| ==> ByteLen(s[..k]) == Utf8Len(s[0]) + ByteLen(s[1..][..k - 1]) by {
        forall k | 0 < k <= |s| { ByteLenPrefix(s, k); }
      }
      assert s[..0] == [];
      None
    else
      var r := DropBytes(s[1..], n - Utf8Len(s[0]));
      assert forall k :: 0 < k <= |s| ==> ByteLen(s[..k]) == Utf8Len(s[0]) + ByteLen(s[1..][..k - 1]) by {
        forall k | 0 < k <= |s| { ByteLenPrefix(s, k); }
      }
      assert s[..0] == [];
      if r.Some? then
        assert s[|s| - |r.value|..] == s[1..][|s| - 1 - |r.value|..];
        r
      else
        r
  }

  const SqlitePrefix: string := "sqlite://"

  /** `Db::reset`: the file path is the database URL without its first `"sqlite://".len()` bytes. */
  function ResetPath(databaseUrl: string): Option<string> {
    DropBytes(databaseUrl, |SqlitePrefix|)
  }

  /** The client builds the URL as the prefix and the file path, so reset finds exactly that path. */
  lemma ResetPathRoundTrip(path: string)
    ensures ResetPath(SqlitePrefix + path) == Some(path)
  {
    var url := SqlitePrefix + path;
    var r := ResetPath(url);
    assert ByteLen(url[..9]) == 9 by {
      assert url[..9] == SqlitePrefix;
      assert ByteLen(SqlitePrefix) == 9;
    }
    assert r.Some?;
    var k := |url| - |r.value|;
    assert k == 9 by {
      if k < 9 {
        assert ByteLen(url[..k]) == k by { AsciiByteLen(url[..k]); }
      } else if k > 9 {
        assert ByteLen(url[..k]) >= ByteLen(url[..9]) + 1 by { ByteLenGrows(url, 9, k); }
      }
    }
  }

  lemma {:induction false} AsciiByteLen(s: string)
    requires forall i :: 0 <= i < |s| ==> s[i] as int < 0x80
    ensures ByteLen(s) == |s|
  {
    if s != [] {
      AsciiByteLen(s[1..]);
    }
  }

  lemma {:induction false} ByteLenGrows(s: string, j: nat, k: nat)
    requires j < k <= |s|
    ensures ByteLen(s[..k]) >= ByteLen(s[..j]) + (k - j)
    decreases j
  {
    if j == 0 {
      assert s[..0] == [];
      ByteLenAtLeast(s[..k]);
    } else {
      ByteLenPrefix(s, j);
      ByteLenPrefix(s, k);
      ByteLenGrows(s[1..], j - 1, k - 1);
    }
  }

  lemma {:induction false} ByteLenAtLeast(s: string)
    ensures ByteLen(s) >= |s|
  {
    if s != [] {
      ByteLenAtLeast(s[1..]);
    }
  }

  // --------------------------------------------------------------- the store

  function NewChapter(id: int, mangaId: int, title: string, number: string, url: string, ts: int): ChapterRow {
    ChapterRow(id, mangaId, title, number, url, 0, ts, ts)
  }

  /** Ids strictly increase along the manga table and stay below the next id to hand out. */
  ghost predicate MangaIdsOrdered(ms: seq<MangaRow>, next: int) {
    && (forall i, j :: 0 <= i < j < |ms| ==> ms[i].id < ms[j].id)
    && (forall i :: 0 <= i < |ms| ==> ms[i].id < next)
  }

  /** The same for the chapter table. */
  ghost predicate ChapterIdsOrdered(cs: seq<ChapterRow>, next: int) {
    && (forall i, j :: 0 <= i < j < |cs| ==> cs[i].id < cs[j].id)
    && (forall i :: 0 <= i < |cs| ==> cs[i].id < next)
  }

  /** The database behind `Db` (a SqlitePool). */
  class Database {
    var mangas: seq<MangaRow>
    var chapters: seq<ChapterRow>
    var nextMangaId: int
    var nextChapterId: int

    /** New rows get ids above every id in use, so ids are unique. */
    ghost predicate Valid()
      reads this
    {
      MangaIdsOrdered(mangas, nextMangaId) && ChapterIdsOrdered(chapters, nextChapterId)
    }

    constructor ()
      ensures Valid() && mangas == [] && chapters == []
    {
      mangas := [];
      chapters := [];
      nextMangaId := 1;
      nextChapterId := 1;
    }

    /** `create_manga`: inserts the row stamped with ts, then reads back the first row with that url. */
    method CreateManga(title: string, url: string, image: Option<string>, ts: int) returns (m: MangaRow)
      requires Valid()
      modifies this
      ensures Valid()
      ensures mangas == old(mangas) + [MangaRow(old(nextMangaId), title, url, image, ts, ts)]
      ensures chapters == old(chapters) && nextChapterId == old(nextChapterId)
      ensures MangaByUrl(mangas, url) == Some(m)
      ensures MangaByUrl(old(mangas), url).None? ==> m == MangaRow(old(nextMangaId), title, url, image, ts, ts)
    {
      var row := MangaRow(nextMangaId, title, url, image, ts, ts);
      ghost var before := mangas;
      mangas := mangas + [row];
      nextMangaId := nextMangaId + 1;
      assert mangas[|mangas| - 1] == row;
      m := MangaByUrl(mangas, url).value;
      if MangaByUrl(before, url).None? {
        assert forall j :: 0 <= j < |before| ==> mangas[j] == before[j];
      }
    }

    /** `update_manga_time` */
    method UpdateMangaTime(id: int, ts: int)
      requires Valid()
      modifies this
      ensures Valid()
      ensures mangas == SetMangaTime(old(mangas), id, ts)
      ensures chapters == old(chapters) && nextMangaId == old(nextMangaId) && nextChapterId == old(nextChapterId)
    {
      mangas := SetMangaTime(mangas, id, ts);
    }

    /** `delete_manga`, which is not part of this model's source: removes the manga row with that id. */
    method DeleteManga(id: int)
      requires Valid()
      modifies this
      ensures Valid()
      ensures mangas == Filter((m: MangaRow) => m.id != id, old(mangas))
      ensures chapters == old(chapters) && nextMangaId == old(nextMangaId) && nextChapterId == old(nextChapterId)
    {
      ghost var before := mangas;
      mangas := Filter((m: MangaRow) => m.id != id, mangas);
      FilterIdsOrdered(before, id, nextMangaId);
    }

    /**
     * `create_chapter`: stores the title's number, or fails before writing anything;
     * then reads back the first row with that manga and title.
     */
    method CreateChapter(mangaId: int, title: string, url: string, ts: int) returns (r: Result<ChapterRow, string>)
      requires Valid()
      modifies this
      ensures Valid()
      ensures mangas == old(mangas) && nextMangaId == old(nextMangaId)
      ensures TitleNumber(title).Err? ==>
        r == Err(TitleNumber(title).error) && chapters == old(chapters) && nextChapterId == old(nextChapterId)
      ensures TitleNumber(title).Ok? ==>
        && chapters == old(chapters) + [NewChapter(old(nextChapterId), mangaId, title, TitleNumber(title).value, url, ts)]
        && nextChapterId == old(nextChapterId) + 1
        && r.Ok? && ChapterByTitle(chapters, mangaId, title) == Some(r.value)
        && (ChapterByTitle(old(chapters), mangaId, title).None? ==>
             r.value == NewChapter(old(nextChapterId), mangaId, title, TitleNumber(title).value, url, ts))
    {
      match TitleNumber(title)
      case Err(e) =>
        r := Err(e);
      case Ok(number) =>
        var row := NewChapter(nextChapterId, mangaId, title, number, url, ts);
        ghost var before := chapters;
        chapters := chapters + [row];
        nextChapterId := nextChapterId + 1;
        assert chapters[|chapters| - 1] == row;
        r := Ok(ChapterByTitle(chapters, mangaId, title).value);
        if ChapterByTitle(before, mangaId, title).None? {
          assert forall j :: 0 <= j < |before| ==> chapters[j] == before[j];
        }
    }

    /** `update_chapter` */
    method UpdateChapter(mangaId: int, title: string, url: string, ts: int)
      requires Valid()
      modifies this
      ensures Valid()
      ensures chapters == SetUrl(old(chapters), mangaId, title, url, ts)
      ensures mangas == old(mangas) && nextMangaId == old(nextMangaId) && nextChapterId == old(nextChapterId)
    {
      chapters := SetUrl(chapters, mangaId, title, url, ts);
    }

    /** `mark_chapter_read` */
    method MarkChapterRead(id: int, isRead: bool, ts: int)
      requires Valid()
      modifies this
      ensures Valid()
      ensures chapters == SetRead(old(chapters), id, isRead, ts)
      ensures mangas == old(mangas) && nextMangaId == old(nextMangaId) && nextChapterId == old(nextChapterId)
    {
      chapters := SetRead(chapters, id, isRead, ts);
    }
  }

  /** Removing rows keeps the remaining ids in order. */
  lemma {:induction false} FilterIdsOrdered(ms: seq<MangaRow>, id: int, next: int)
    requires MangaIdsOrdered(ms, next)
    ensures MangaIdsOrdered(Filter((m: MangaRow) => m.id != id, ms), next)
  {
    if ms != [] {
      var tail := ms[1..];
      assert MangaIdsOrdered(tail, next);
      FilterIdsOrdered(tail, id, next);
      var rest := Filter((m: MangaRow) => m.id != id, tail);
      forall i | 0 <= i < |rest|
        ensures ms[0].id < rest[i].id
      {
        assert rest[i] in tail;
        var j :| 0 <= j < |tail| && tail[j] == rest[i];
        assert ms[j + 1] == rest[i];
      }
    }
  }
}
