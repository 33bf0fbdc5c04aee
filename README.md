# typester/reader — a Dafny model of the manga reader's core

The reader is an Android app (Kotlin, Jetpack Compose) over a Rust core. The
core finds the site that handles a manga or chapter URL, scrapes search
results, chapter lists and page images from four sites, and keeps the opened
manga and their chapters in an SQLite store. The app's view models call into
the core and publish UI states. The reader screen lays the page images out on a
right-to-left pager.

This project models these parts:

- **Reader spread layout** (`reader_layout.dfy`, ReaderScreen.kt). This covers
  the page count, the images each page shows, the page reopened after a mode
  toggle, and the screen's `singleFirstPageMode`/`lastPage` state as a class.
- **View models** (`data_migration.dfy`, `manga_list.dfy`, `chapter_list.dfy`,
  `search_manga.dfy`, `reader.dfy`, over `calls.dfy`).
  - Each view model is a class holding its `uiState` and a ghost trace of
    events. An event publishes a state or calls into the core.
  - Each call's outcome (a value, or a thrown exception's text) is a parameter.
  - Each launched coroutine body is a method. It is proved to produce exactly
    the events of a specification function. Lemmas and ensures then state
    what the final state is in every case.
- **Core orchestration** (`core.dfy`, lib.rs).
  - Site dispatch: `get_site`, the chapter site, `get_images`.
  - The `get_chapters` upsert loop, modelled as a method over the store and
    as a function with its properties.
  - `get_chapters_cache`, `open_manga` and `open_manga_with_id`.
- **The store** (`db.rs`, in `db.dfy`).
  - The two tables live in memory as sequences inside a `Database` class. Each
    query is the table operation it performs.
  - Also here: title-number extraction, the `migration_available` decision,
    and the `reset` path.
- **Site handlers** (`jmangaorg.dfy`, `mangatopjp.dfy`, `spoilerplustv.dfy`,
  `rawkuronet.dfy`, over `sites.dfy` and `regex.dfy`).
  - The anchored URL regexes are written as term lists for a small matcher.
    Lemmas read them back as plain string facts.
  - The HTML that the selectors find is given as elements with optional
    attributes.
  - rawkuro.net's separators are sorted in place in an array, as `sort_by`
    sorts the vector.
- **Errors and logging** (`errors.dfy`, `log.dfy`).
  - The `MangaError` display texts and `From` conversions.
  - The log visitor's field map, as a class, and the line `on_event` formats.

Shared helpers: `wrappers.dfy` (Option, Result); `text.dfy` (Unicode digit and
white-space classes, `trim`, decimal printing and parsing, `u64` parsing);
`seqs.dfy` (the iterator adaptors `filter_map`, `find`, `position`,
`flatten`, `map`, `filter`); `sorting.dfy` (a stable insertion sort, as a
function and as an in-place array method).

## Model

| member | source | states |
|---|---|---|
| ReaderLayout.PageCount | android/app/src/main/java/org/unknownplace/manga/ui/screens/ReaderScreen.kt:57-63 | (n+2)/2 pages in single-first-page mode, (n+1)/2 otherwise; positive exactly when single mode is on or there is an image |
| ReaderLayout.Shown | android/app/src/main/java/org/unknownplace/manga/ui/screens/ReaderScreen.kt:104-153 | page 0 in single mode shows image 0 alone (nothing without images); any other page shows its first index and the next, each only when it is below n |
| ReaderLayout.Partition | android/app/src/main/java/org/unknownplace/manga/ui/screens/ReaderScreen.kt:57-153 | every image index below n is on exactly one page, and that page is below the page count |
| ReaderLayout.NoBlankPage | android/app/src/main/java/org/unknownplace/manga/ui/screens/ReaderScreen.kt:57-153 | with images, every page below the page count shows at least one |
| ReaderLayout.NewCurrentPage | android/app/src/main/java/org/unknownplace/manga/ui/screens/ReaderScreen.kt:64 | the rebuilt pager opens on lastPage in single mode or at page 0, else on lastPage - 1 |
| ReaderLayout.ToggleInRange | android/app/src/main/java/org/unknownplace/manga/ui/screens/ReaderScreen.kt:54-65 | a lastPage valid in the old mode gives a page valid in the new mode when the new count is positive |
| ReaderLayout.ToggleKeepsFirstImage | android/app/src/main/java/org/unknownplace/manga/ui/screens/ReaderScreen.kt:64-104 | the first image of the page shown before a toggle is shown on the page after it |
| ReaderLayout.ToggleTwice | android/app/src/main/java/org/unknownplace/manga/ui/screens/ReaderScreen.kt:64-75 | two toggles from single mode at page L > 0 end on L - 1: toggling is not a round trip |
| ReaderLayout.ReaderSession.constructor | android/app/src/main/java/org/unknownplace/manga/ui/screens/ReaderScreen.kt:47-52 | the mode starts on and lastPage starts at 0 |
| ReaderLayout.ReaderSession.Rebuild | android/app/src/main/java/org/unknownplace/manga/ui/screens/ReaderScreen.kt:54-76 | the new pager opens on NewCurrentPage of the old lastPage, which lastPage then records |
| ReaderLayout.ReaderSession.DoubleTap | android/app/src/main/java/org/unknownplace/manga/ui/screens/ReaderScreen.kt:93 | the mode flips and the pager is rebuilt from the last page |
| ReaderLayout.ReaderSession.SetImageCount | android/app/src/main/java/org/unknownplace/manga/ui/screens/ReaderScreen.kt:54-66 | a changed image count rebuilds the pager; an unchanged one keeps the page |
| ReaderLayout.ReaderSession.SwipeTo | android/app/src/main/java/org/unknownplace/manga/ui/screens/ReaderScreen.kt:73-76 | lastPage follows the pager's current page |
| Calls.After | android/app/src/main/java/org/unknownplace/manga/ui/screens/MangaListViewModel.kt:26-27 | the UI state is the last one published, or the state before when nothing was published |
| Calls.AfterAppend | android/app/src/main/java/org/unknownplace/manga/ui/screens/MangaListViewModel.kt:26-27 | the state after two stretches of events is the second applied to the state after the first |
| Calls.CallsOf | android/app/src/main/java/org/unknownplace/manga/ui/screens/SearchMangaViewModel.kt:62-69 | the calls of a trace are exactly its Invoke events |
| Calls.CallsAppend | android/app/src/main/java/org/unknownplace/manga/ui/screens/SearchMangaViewModel.kt:62-69 | the calls of two stretches of a trace are concatenated in order |
| DataMigration.DataMigrationViewModel.constructor | android/app/src/main/java/org/unknownplace/manga/ui/screens/DataMigrationViewModel.kt:17-21 | the initial state is not migrating, not finished, no error |
| DataMigration.MigrateEvents | android/app/src/main/java/org/unknownplace/manga/ui/screens/DataMigrationViewModel.kt:27-46 | migrate asks first; it migrates only when a migration is available, after publishing migrating; a failure of either call becomes the error and leaves finished as it was; otherwise finished; migrating ends false; finished is never cleared |
| DataMigration.ResetAndMigrateEvents | android/app/src/main/java/org/unknownplace/manga/ui/screens/DataMigrationViewModel.kt:48-60 | the error is cleared before the reset; a failed reset is the error and migrate is never asked; after a successful reset the events are the clear, the reset and then migrate's events, so a migration that succeeds ends finished with no error and one that fails ends with its error and finished as before; either way not migrating |
| DataMigration.DataMigrationViewModel.Migrate | android/app/src/main/java/org/unknownplace/manga/ui/screens/DataMigrationViewModel.kt:27-46 | the method's events and final state are those of MigrateEvents |
| DataMigration.DataMigrationViewModel.ResetAndMigrate | android/app/src/main/java/org/unknownplace/manga/ui/screens/DataMigrationViewModel.kt:48-60 | the method's events and final state are those of ResetAndMigrateEvents |
| MangaList.MangaListViewModel.constructor | android/app/src/main/java/org/unknownplace/manga/ui/screens/MangaListViewModel.kt:20-23 | the initial state is loading with an empty list |
| MangaList.LoadEvents | android/app/src/main/java/org/unknownplace/manga/ui/screens/MangaListViewModel.kt:29-44 | loading is published before the listing is asked for; on success the list is exactly the result; on failure it is kept; loading ends false |
| MangaList.DeleteMangaEvents | android/app/src/main/java/org/unknownplace/manga/ui/screens/MangaListViewModel.kt:46-59 | a successful delete is followed by load; a failed delete leaves loading on and the list as it was, and load is not called |
| MangaList.MangaListViewModel.Load | android/app/src/main/java/org/unknownplace/manga/ui/screens/MangaListViewModel.kt:29-44 | the method's events and final state are those of LoadEvents |
| MangaList.MangaListViewModel.DeleteManga | android/app/src/main/java/org/unknownplace/manga/ui/screens/MangaListViewModel.kt:46-59 | the method's events and final state are those of DeleteMangaEvents |
| MangaList.DeleteShowsRemaining | android/app/src/main/java/org/unknownplace/manga/ui/screens/MangaListViewModel.kt:48-55 | after a delete and a listing of the store, the screen shows the other manga, newest first, each exactly as often as stored, not loading |
| ChapterList.ChapterListViewModel.constructor | android/app/src/main/java/org/unknownplace/manga/ui/screens/ChapterListViewModel.kt:19-23 | the initial state is loading, no manga, no chapters |
| ChapterList.LoadEvents | android/app/src/main/java/org/unknownplace/manga/ui/screens/ChapterListViewModel.kt:29-56 | load asks for the manga first and ends publishing its final state, which is not loading |
| ChapterList.LoadingUntilLast | android/app/src/main/java/org/unknownplace/manga/ui/screens/ChapterListViewModel.kt:29-55 | every state published before the last keeps loading as it was, so load never sets it back to true |
| ChapterList.LoadWithoutManga | android/app/src/main/java/org/unknownplace/manga/ui/screens/ChapterListViewModel.kt:38-54 | without a manga, load only ends loading; the manga changes only when one was found |
| ChapterList.LoadWithManga | android/app/src/main/java/org/unknownplace/manga/ui/screens/ChapterListViewModel.kt:38-51 | the manga is published before the cache is asked; the cache is published before the refresh is asked; a failed cache read keeps the chapters and skips the refresh; a refresh replaces the chapters; a failed refresh keeps the cached ones |
| ChapterList.ChapterListViewModel.Load | android/app/src/main/java/org/unknownplace/manga/ui/screens/ChapterListViewModel.kt:29-56 | the method's events and final state are those of LoadEvents |
| SearchManga.SearchMangaViewModel.constructor | android/app/src/main/java/org/unknownplace/manga/ui/screens/SearchMangaViewModel.kt:19-26 | empty text, the supported sites, index 0, not searching, no links, no error |
| SearchManga.SelectedSite | android/app/src/main/java/org/unknownplace/manga/ui/screens/SearchMangaViewModel.kt:53 | the site at the selected index, or none exactly when the index is out of range |
| SearchManga.SearchMangaViewModel.SetText | android/app/src/main/java/org/unknownplace/manga/ui/screens/SearchMangaViewModel.kt:32-38 | only the text changes |
| SearchManga.SearchMangaViewModel.Select | android/app/src/main/java/org/unknownplace/manga/ui/screens/SearchMangaViewModel.kt:40-46 | only the selected index changes, with no bounds check |
| SearchManga.SearchEvents | android/app/src/main/java/org/unknownplace/manga/ui/screens/SearchMangaViewModel.kt:48-86 | nothing happens while a search runs; otherwise searching is published on and ends off; without a site the links empty and nothing is called; with one, the site is searched once for the text, success replaces the links, failure sets the error and keeps them; text, sites and index are kept; an error is never cleared |
| SearchManga.SearchBody | android/app/src/main/java/org/unknownplace/manga/ui/screens/SearchMangaViewModel.kt:60-82 | the launched body: its call and the links or error it leaves, case by case |
| SearchManga.SearchMangaViewModel.Search | android/app/src/main/java/org/unknownplace/manga/ui/screens/SearchMangaViewModel.kt:48-86 | the method's events and final state are those of SearchEvents |
| SearchManga.OpenMangaResult | android/app/src/main/java/org/unknownplace/manga/ui/screens/SearchMangaViewModel.kt:88-100 | a string exactly when the core returned, and it reads back as the manga's id |
| Reader.ReaderViewModel.constructor | android/app/src/main/java/org/unknownplace/manga/ui/screens/ReaderViewModel.kt:16-19 | no images, no headers |
| Reader.LoadEvents | android/app/src/main/java/org/unknownplace/manga/ui/screens/ReaderViewModel.kt:25-56 | load asks for the chapter first |
| Reader.FoundEvents | android/app/src/main/java/org/unknownplace/manga/ui/screens/ReaderViewModel.kt:32-54 | a found chapter is marked read first; a failed mark publishes nothing |
| Reader.ShowEvents | android/app/src/main/java/org/unknownplace/manga/ui/screens/ReaderViewModel.kt:37-54 | the site is looked up, then the images; a failed image fetch publishes nothing; otherwise the images are the fetched ones |
| Reader.LoadEventsSpec | android/app/src/main/java/org/unknownplace/manga/ui/screens/ReaderViewModel.kt:25-56 | no chapter: images empty, headers kept, nothing marked; a found chapter is marked read before site lookup and image fetch; with a site, the headers become its request headers and the images the fetched list; any failure leaves the state unchanged |
| Reader.NoSiteNoImages | android/app/src/main/java/org/unknownplace/manga/ui/screens/ReaderViewModel.kt:44-54 | a chapter URL no supported site handles leaves the state unchanged, because the image fetch throws |
| Reader.SpoilerplusChapterHeaders | android/app/src/main/java/org/unknownplace/manga/ui/screens/ReaderViewModel.kt:44-48 | a spoilerplus.tv chapter is shown with the Referer header and that site's images |
| Reader.ReaderViewModel.Load | android/app/src/main/java/org/unknownplace/manga/ui/screens/ReaderViewModel.kt:25-56 | the method's events and final state are those of LoadEvents |
| Core.RequestHeaders | core/src/sites/mod.rs:37-39 | only spoilerplus.tv sends a header; the default is the empty map |
| Core.HostLetterOfUrl | core/src/lib.rs:52-58 | every URL a site accepts carries that site's host letter after "https://" |
| Core.SitesDisjoint | core/src/lib.rs:52-58 | no URL is accepted by two sites' predicates, of either kind |
| Core.GetSiteSpec | core/src/lib.rs:187-193 | get_site answers a site exactly when it is supported and accepts the URL as a chapter page; the chapter-list site likewise for manga pages |
| Core.ChapterOrImageSite | core/src/lib.rs:135-193 | no URL is both a manga page and a chapter page of supported sites |
| Core.GetImagesSpec | core/src/lib.rs:195-208 | no handling site: the handler error; else that site's images |
| Core.UpsertOneGrows | core/src/lib.rs:148-163 | one pass keeps every row in place and changes only url and updated_at of a row of this manga with the fetched title; a new row is unread and of this manga; a failed pass writes nothing |
| Core.UpsertGrows | core/src/lib.rs:148-163 | the whole loop changes the table only in those ways |
| Core.UpsertOneTitle | core/src/lib.rs:150-162 | after a pass the fetched title is stored for the manga with the link's url |
| Core.TitleUrlKept | core/src/lib.rs:148-163 | a title the loop does not fetch keeps its stored url |
| Core.UpsertStoresLinks | core/src/lib.rs:148-163 | a finished loop stores every fetched title, with the url of its last link |
| Core.UpsertKeepsTitlesUnique | core/src/lib.rs:148-163 | a row is created only for a title the manga lacks, so a table with unique titles per manga keeps them unique |
| Core.GetChaptersKeepsTitlesUnique | core/src/lib.rs:130-168 | every `get_chapters` call keeps titles unique, so a table written only by it, starting empty, never holds a title twice for one manga |
| Core.UpsertStopsAtFirstFailure | core/src/lib.rs:148-163 | a failed loop keeps the writes of the links before the failing one; that link's title was new and its number did not parse |
| Core.ChaptersCache | core/src/lib.rs:171-185 | an unknown URL gives no chapters; otherwise only stored chapters of that manga |
| Core.GetChaptersErrors | core/src/lib.rs:130-143 | no handling site or an unknown manga URL is an error before any fetch or write |
| Core.GetChaptersRefreshesCache | core/src/lib.rs:148-166 | a successful get_chapters answers what the cache then holds, which has every fetched title with its last url |
| Core.UpsertChapters | core/src/lib.rs:148-163 | the loop over the store's methods leaves the table and error that the Upsert function gives |
| Core.GetChapters | core/src/lib.rs:130-169 | the method's result and table are those of GetChaptersOf; the manga table is untouched |
| Core.OpenManga | core/src/lib.rs:80-96 | a known URL gets updated_at = now and no row is inserted; an unknown one gets a new row from the link's text, url and image |
| Core.SetMangaTimeKeepsUrlLookup | core/src/lib.rs:85-89 | stamping the row found by url keeps it the row found by url |
| Core.OpenMangaWithId | core/src/lib.rs:98-105 | only updated_at of that manga changes |
| Core.OpenedMangaListedFirst | core/src/lib.rs:80-105 | an opened manga comes first in the listing when now is later than every stored time |
| Db.ChaptersOf | core/src/db.rs:231-238 | exactly the stored chapters of that manga |
| Db.ListMangaSpec | core/src/db.rs:82-87 | the listing is ordered by updated_at descending and is a permutation of the table |
| Db.SetUrl | core/src/db.rs:202-218 | only url and updated_at of the rows matching (manga, title) change |
| Db.ReadFlag | core/src/db.rs:223 | true is stored as 1 and false as 0 |
| Db.SetRead | core/src/db.rs:220-229 | only is_read and updated_at of the row with that id change |
| Db.SetMangaTime | core/src/db.rs:132-139 | only updated_at of the row with that id changes |
| Db.NumberRun | core/src/db.rs:169-177 | none exactly when the title has no digit or dot; otherwise the leftmost maximal run of them |
| Db.LeftmostRunUnique | core/src/db.rs:169-177 | a title has only one leftmost run |
| Db.TitleNumber | core/src/db.rs:169-177 | no run is the extraction error; a run the float parser refuses is its error; otherwise the run |
| Db.TitleNumberOfPlainNumber | core/src/db.rs:169-177 | a title whose first run is plain ASCII digits gets that number |
| Db.AppliedByVersionSpec | core/src/db.rs:34-39 | the applied map holds exactly the applied versions, each with the checksum of its last row |
| Db.MigrationAvailableSpec | core/src/db.rs:41-66 | an error exactly when an up migration is applied with another checksum; otherwise true exactly when some up migration's version is not applied |
| Db.DownMigrationsIgnored | core/src/db.rs:43-59 | removing the down migrations never changes the answer |
| Db.DropBytes | core/src/db.rs:76 | the rest after n UTF-8 bytes, or none exactly when no character boundary lies at n |
| Db.ResetPathRoundTrip | core/src/db.rs:76 | the file reset is exactly the path the client put after "sqlite://" |
| Db.Database.constructor | core/src/db.rs:241-261 | empty tables |
| Db.Database.CreateManga | core/src/db.rs:89-114 | appends a row with created_at = updated_at = ts and returns the first row with that url |
| Db.Database.UpdateMangaTime | core/src/db.rs:132-139 | the table becomes SetMangaTime of the old one |
| Db.Database.DeleteManga | core/src/lib.rs:112-117 | removes the rows with that id and nothing else |
| Db.Database.CreateChapter | core/src/db.rs:163-200 | a title without a number fails and writes nothing; otherwise appends an unread row with that number, stamped ts, and returns the first row with that manga and title |
| Db.Database.UpdateChapter | core/src/db.rs:202-218 | the table becomes SetUrl of the old one |
| Db.Database.MarkChapterRead | core/src/db.rs:220-229 | the table becomes SetRead of the old one |
| Db.FilterIdsOrdered | core/src/db.rs:241-261 | deleting rows keeps ids unique and ordered |
| Errors.From | core/src/error.rs:15-62 | reqwest errors become NetworkError, migrate errors MigrateError, all others InternalError; the message is the source's, or "uniffi: " and the reason |
| Errors.DisplayRoundTrip | core/src/error.rs:3-13 | each display text is the variant's prefix and the message, and can be read back into the error |
| Errors.DisplayInjective | core/src/error.rs:3-13 | different errors display differently |
| Log.ToJson | core/src/log.rs:38-82 | error fields are stored as "error: " and the display text, debug fields as their debug text, integers as numbers |
| Log.LogVisitor.Record | core/src/log.rs:38-82 | recording a field inserts its value under its name, replacing an earlier one |
| Log.CollectedLastWins | core/src/log.rs:18-82 | a name is in the map exactly when some recorded field has it, with the last such value |
| Log.RemainingFields | core/src/log.rs:22-30 | "message" and "name" never reach the JSON object; every other recorded field does |
| Log.MessagePart | core/src/log.rs:22-31 | the line is the message's JSON text, or nothing, then ": " and the other fields |
| Log.OnEvent | core/src/log.rs:13-32 | the line formatted from the visitor's map is the line of the collected fields |
| JmangaorgSite.ChaptersUrlShape | core/src/sites/jmangaorg.rs:95-100 | a manga URL is "https://jmanga.org/read/" and one segment with a trailing '/' |
| JmangaorgSite.ImagesUrlRoundTrip | core/src/sites/jmangaorg.rs:122-140 | a chapter URL built from an id is accepted exactly when the id is a non-empty run of digits |
| JmangaorgSite.UrlKindsDisjoint | core/src/sites/jmangaorg.rs:97-137 | no URL satisfies both predicates |
| JmangaorgSite.SearchResults | core/src/sites/jmangaorg.rs:55-88 | a result comes from an item whose title has text and href, with the poster's data-src as image |
| JmangaorgSite.ChapterResults | core/src/sites/jmangaorg.rs:110-129 | a chapter comes from an item with a data-id and a titled link; its url is the images URL for the id |
| JmangaorgSite.ChaptersOpenAsImages | core/src/sites/jmangaorg.rs:122-137 | with digit data-ids, every chapter link is accepted by can_handle_images |
| JmangaorgSite.ImagesResult | core/src/sites/jmangaorg.rs:142-163 | images fail exactly when the reply has no html string; otherwise they are the img data-src values |
| MangaTopJpSite.UrlKindsDisjoint | core/src/sites/mangatopjp.rs:80-121 | a manga URL has one segment after "/manga/", a chapter URL two; no URL is both |
| MangaTopJpSite.OriginRoundTrip | core/src/sites/mangatopjp.rs:63-104 | a URL built from an href is handled exactly when the href is "/manga/" and the segments |
| MangaTopJpSite.SearchResults | core/src/sites/mangatopjp.rs:49-71 | a result comes from a link with title and href, its url the href made absolute, its image the img src |
| MangaTopJpSite.ChapterResults | core/src/sites/mangatopjp.rs:95-110 | a chapter comes from a link with href and a named .ct-name, its url the href made absolute |
| MangaTopJpSite.Images | core/src/sites/mangatopjp.rs:123-136 | never fails; the images are exactly the data-src values |
| SpoilerplustvSite.RequestHeaders | core/src/sites/spoilerplustv.rs:37-41 | one entry, Referer to "https://spoilerplus.tv/" |
| SpoilerplustvSite.UrlKindsDisjoint | core/src/sites/spoilerplustv.rs:43-83 | a manga URL has one segment, a chapter URL two; no URL is both |
| SpoilerplustvSite.OriginRoundTrip | core/src/sites/spoilerplustv.rs:66 | a URL built from an href has n segments exactly when the href is '/' and n segments |
| SpoilerplustvSite.SearchResults | core/src/sites/spoilerplustv.rs:124-154 | a result needs a caption with text and href; the image is set, on the site, exactly when data-src exists |
| SpoilerplustvSite.ChapterEntrySpec | core/src/sites/spoilerplustv.rs:59-71 | an element gives a chapter exactly when it has text and href: trimmed text, absolute url |
| SpoilerplustvSite.ChapterResults | core/src/sites/spoilerplustv.rs:57-73 | the chapters are exactly the links the elements give |
| SpoilerplustvSite.ChapterTitlesTrimmed | core/src/sites/spoilerplustv.rs:65 | no chapter title starts or ends with white space |
| SpoilerplustvSite.ImagesResult | core/src/sites/spoilerplustv.rs:85-98 | never fails; each image is the CDN host and the data-z of an element that has one |
| RawkuroNetSite.MatchesHost | core/src/sites/rawkuronet.rs:74-105 | the host part of the patterns is "https://rawkuro", any non-newline, "net/manga/" |
| RawkuroNetSite.ChaptersUrlShape | core/src/sites/rawkuronet.rs:72-77 | a manga URL is the host part and one slash-free name, with no trailing slash |
| RawkuroNetSite.UrlKindsDisjoint | core/src/sites/rawkuronet.rs:72-108 | no URL satisfies both predicates |
| RawkuroNetSite.AnyCharacterForDot | core/src/sites/rawkuronet.rs:74 | the unescaped '.' accepts any character but a newline |
| RawkuroNetSite.SearchResults | core/src/sites/rawkuronet.rs:48-67 | a result is a titled link whose href is a manga URL; its image is data-src on the site |
| RawkuroNetSite.SearchResultsOpen | core/src/sites/rawkuronet.rs:54-63 | every search result passes can_handle_chapters |
| RawkuroNetSite.ChapterResults | core/src/sites/rawkuronet.rs:86-99 | a chapter's title is its link text trimmed, and its url the href |
| RawkuroNetSite.IdAt | core/src/sites/rawkuronet.rs:112 | a capture at an index is a non-empty run of digits |
| RawkuroNetSite.ChapterIdFrom | core/src/sites/rawkuronet.rs:118-125 | the capture of the leftmost match, or none when no index matches |
| RawkuroNetSite.Indexing | core/src/sites/rawkuronet.rs:146-156 | a separator is kept exactly when its data-index parses as u64 |
| RawkuroNetSite.SeparatorOrder | core/src/sites/rawkuronet.rs:146-157 | the separators are ascending by index, a permutation of the indexed ones, and keep page order among equal indices |
| RawkuroNetSite.ImagesErrors | core/src/sites/rawkuronet.rs:118-135 | no CHAPTER_ID is its error; a reply without an html string is an error carrying the reply |
| RawkuroNetSite.OrderSeparators | core/src/sites/rawkuronet.rs:146-157 | the separators sorted in place are the stable sort of the indexed ones |
| RawkuroNetSite.Images | core/src/sites/rawkuronet.rs:110-167 | the method's result is that of ImagesOf: every error case, and the hrefs in index order |
| Sorting.SortSorted | core/src/sites/rawkuronet.rs:157 | the sort is ordered by the key and a permutation |
| Sorting.SortStable | core/src/sites/rawkuronet.rs:157 | elements with equal keys keep their order |
| Sorting.SortInPlace | core/src/sites/rawkuronet.rs:157 | the array after the in-place sort is the sort of its old contents |
| Sorting.InsertNext | core/src/sites/rawkuronet.rs:157 | one step inserts the next element into the sorted prefix and leaves the rest |
| Sites.AttrValuesSpec | core/src/sites/mangatopjp.rs:132 | the values are exactly those the elements carry, one per element in order when all carry one |
| Regex.MatchesLit | core/src/sites/jmangaorg.rs:97 | a literal prefix matches exactly the strings that start with it |
| Regex.MatchesPlusAll | core/src/sites/jmangaorg.rs:137 | `x+` matches exactly the non-empty strings of x |
| Regex.SegmentsOfMatch | core/src/sites/mangatopjp.rs:118 | `([^/]+/)` n times matches only n slash-ended segments |
| Regex.MatchOfSegments | core/src/sites/mangatopjp.rs:118 | n slash-ended segments match `([^/]+/)` n times |
| Regex.SegmentsDisjoint | core/src/sites/spoilerplustv.rs:45-80 | a string is never both m and n segments for m != n |
| Regex.MatchesPrefixed | core/src/sites/spoilerplustv.rs:45-80 | a prefix followed by n segments, as a plain string fact |
| Regex.MatchesAfterOrigin | core/src/sites/spoilerplustv.rs:66 | a URL built by prefixing the origin matches exactly when the href matches the rest |
| Text.TrimSpec | core/src/sites/spoilerplustv.rs:65 | trim removes exactly the leading and trailing white space and leaves none at either end |
| Text.TrimIdempotent | core/src/sites/rawkuronet.rs:92 | trimming twice is trimming once |
| Text.IntDecimalRoundTrip | android/app/src/main/java/org/unknownplace/manga/ui/screens/SearchMangaViewModel.kt:93 | an id's decimal text reads back as the id |
| Text.U64RoundTrip | core/src/sites/rawkuronet.rs:148 | every u64 written in decimal parses back to itself |
| Seqs.FilterMapMember | core/src/sites/jmangaorg.rs:112 | filter_map's result holds exactly the values f produced |
| Seqs.FilterMapAppend | core/src/sites/jmangaorg.rs:112 | filter_map works element by element, so order is kept |
| Seqs.Find | core/src/lib.rs:189-192 | the first element satisfying the predicate, or none when none does |

## Left out

- The trait defaults `can_handle_chapters`, `chapters`, `can_handle_images` and `images` in `sites/mod.rs`. Every handler overrides all four, so the defaults are never reached. The `request_headers` default is modelled, as `Core.RequestHeaders`.
- Concurrency: tokio, coroutines, `viewModelScope.launch` and dispatchers. Each launched body is one sequential method. `deleteManga` calling `load` and `resetAndMigrate` calling `migrate` are composed in sequence. `search` reads the text when it starts.
- `StateFlow` conflation of equal states. Every `update` is a published state in the trace.
- HTTP (reqwest), HTML parsing (scraper), JSON (serde_json) and user agents. The elements a selector finds, the JSON `html` member and each site's fetch are inputs.
- SQL failures and connection errors. Only `create_chapter`'s number extraction can fail a store call.
- `Db.Database`: the table definitions live in migration files that are not part of this model. The store assumes `chapter.is_read` defaults to 0 (`Db.NewChapter`), since the insert in `create_chapter` leaves it out; it hands out increasing ids that are never reused, whereas SQLite may reuse the largest rowid after its row is deleted; and it has no UNIQUE constraint on `manga.url` or on a chapter's manga and title, so `create_manga` and `create_chapter` always insert and read back the first matching row. `Core.UpsertKeepsTitlesUnique` and `Core.GetChaptersKeepsTitlesUnique` therefore only cover tables whose titles were unique before the call.
- Migration execution (`do_migration`, `migrator.run`). The migration list and the applied rows are inputs.
- The file truncation in `Db::reset`. Only its path is modelled.
- `Db::new`, `Config` and the pool. The default URL "sqlite://database.db" is not used.
- The thin `lib.rs` wrappers that pass straight through to `Db` (`migration_available`, `do_migration`, `reset_db`, `list_manga`, `get_manga`, `get_chapter`, `mark_chapter_read`). They are modelled by the `Db` members they call.
- The f64 value of a chapter number. The number is kept as its text, and all that is modelled is whether `f64::from_str` accepts it.
- `Db.ChaptersOf`: does not model `ORDER BY title_number DESC`, which needs the float ordering. Chapters come in table order.
- `Db.Database.DeleteManga`: `Db::delete_manga` is not part of this model's source. It is modelled as removing the manga rows with that id, with no chapter cascade.
- `SystemTime::now()`. Each operation takes one timestamp parameter.
- `toLong()` parsing of the navigation argument. The view models take the id as a number.
- `init_logger`, its `Once`, and the Logger callback into Kotlin. serde_json's text rendering is a parameter of `Log.OnEvent`.
- `Log.ToJson`: f64 fields are stored as reals, so NaN and infinities are not modelled; an i128 or u128 value outside the i64/u64 range, on which `json!` fails to convert and the unwrap panics, is stored as a number like any other.
- rawkuro.net is not in `supported_sites`, so its handler is modelled but unreachable from `lib.rs`. The `captures.get(1)` None error in its `images` cannot happen once the regex matched, so it is not a separate case.
- `Reader.LoadEventsSpec`: in `ReaderViewModel.load` the branch with no site after a successful `getImages` is unreachable, because `get_images` throws first (`Reader.NoSiteNoImages`).
- Search's `Log.d` and the uniffi scaffolding.
- Compose rendering, navigation, `MainActivity` and the `Shared.kt` singleton. Only `Shared.kt`'s "sqlite://" prefix appears, in `Db.ResetPathRoundTrip`.
