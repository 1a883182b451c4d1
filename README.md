# Media browser of the play plugin, modelled in Dafny

This project models the file browser of a VDR "play" plugin in Dafny:

- **Directory scanner** (`readdir.c`):
  - The per-entry admission filters for directories and for files: the hidden-name policy, the suffix filter tables and the `d_type` classification with its `stat` fallback.
  - The scan. It collects admitted names into a growing array, throws everything away when `errno` is set, and sorts with `strcmp`.
  - The reader that hands the sorted names to a callback.
- **Browser menu** (`play.cpp`):
  - The directory stack, a shifted array with the innermost path at index 0.
  - The `cBrowser` menu, which lists a directory, descends into directories and archives, plays files and climbs back up.
  - The one-shot start directory of the main menu action.
  - The speed and pause keys of the replay control.

The model is split into five files:

- `strorder.dfy` (module `StrOrder`) contains `strcmp` as used by `q_cmp`, its order lemmas, and the sort the scan applies.
- `suffix.dfy` (modules `Wrappers` and `Suffix`):
  - The `NameFilter` table shape from `readdir.h`.
  - The case-insensitive suffix search.
  - `IsArchive`.
  - The four constant tables.
- `readdir.dfy` (module `ReadDir`):
  - The abstract filesystem.
  - `IsDirectory` and the two filters.
  - `ScanDirectory`, which works on an `array` with an explicit capacity.
  - `ReadDirectory`.
  - The lemmas about the scan.
- `browser.dfy` (module `Play`):
  - The class `Browser`, which holds the play.cpp globals (`ShowBrowser`, `BrowserStartDir`, `BrowserFilters`, and `DirStack`/`DirStackUsed`/`DirStackSize` as an `array` and a count).
  - The open menu's filter, item texts and current index.
  - The browser lemmas.
- `transport.dfy` (module `Transport`): the class `Control` with `PlayerSpeed`/`PlayerPaused`, the pure `Step` function it is proved against, and an event log of the `PlayerSend*` calls.

The filesystem is a value of type `ReadDir.FileSystem`:

- `listings` maps every path `opendir` can open to its `fstat` size, its `readdir` entries in order, and whether the final `readdir` call fails.
- `kinds` maps every path `stat` can resolve to directory or non-directory.
- A path missing from `kinds` is one `stat` fails on, which sets `errno`.
- `errno` is a boolean.
- The globals `BaseDir` and `NameFilters` are parameters.
- Whether archive support is compiled in is the parameter `avfs`.

Two library routines are modelled by functions:

- `qsort` with `q_cmp` is modelled by the pure insertion sort `StrOrder.SortNames`. `StrOrder.SortedPermutationUnique` shows that any correct sort of NUL-free names gives the same sequence, so the choice of sort does not matter.
- The callback of `ReadDirectory` is modelled by the sequence of names it receives.

## Model

| member | source | states |
|---|---|---|
| StrOrder.StrCmp | readdir.c:240-243 | when the first characters differ (an exhausted name counting as NUL), the smaller code sorts first, and a name compares 0 with itself; StrCmpCommonPrefix skips a shared prefix, so together they give byte-wise lexical order, and StrCmpAntisymmetric, LeTransitive and StrCmpZeroIsEqual state the order it induces |
| StrOrder.StrCmpCommonPrefix | readdir.c:236-243 | a shared NUL-free prefix does not affect the comparison: the first difference after it decides |
| StrOrder.StrCmpAntisymmetric | readdir.c:240-243 | swapping the arguments of the comparison negates its result |
| StrOrder.LeTotal | readdir.c:240-243 | any two names are ordered one way or the other |
| StrOrder.LeTransitive | readdir.c:240-243 | the order q_cmp induces is transitive |
| StrOrder.StrCmpZeroIsEqual | readdir.c:240-243 | on NUL-free names, comparison 0 means the names are identical |
| StrOrder.Insert | readdir.c:354-356 | inserting into a sorted list keeps it sorted and adds exactly that one name |
| StrOrder.SortNames | readdir.c:354-356 | the sorted names are in ascending q_cmp order and are a permutation of the input |
| StrOrder.SortedPermutationUnique | readdir.c:354-356 | two ascending permutations of the same NUL-free names are equal, so the unstable qsort result is determined |
| Suffix.MatchesTable | readdir.c:119-127 | a match is reported only for an entry before the terminator whose suffix ends the name, ignoring case, and an empty table matches nothing; MatchesTableSpec gives the converse |
| Suffix.MatchesTableSpec | readdir.c:119-127 | the table loop, which stops at the {0, NULL} terminator, answers true exactly when some listed suffix ends the name, ignoring ASCII case |
| Suffix.ArchiveTableWellFormed | readdir.c:105-116 | every archive entry's length is its string's length, the table ends with {0, NULL}, and it lists exactly .cbz .cbr .zip .rar .tar .tar.gz .tgz |
| Suffix.BrowserTablesWellFormed | play.cpp:643-674 | the video, audio and image tables are terminated, each length is its string's length, and each lists exactly its source suffixes |
| Suffix.IsArchive | readdir.c:98-132 | the result is 0 or 1, and it is 1 exactly when archive support is on and the name ends with an archive suffix, ignoring case |
| Suffix.IsArchiveIgnoresCase | readdir.c:119-124 | "Comic.CBZ" is an archive with archive support on and is not one with it off |
| ReadDir.IsDirectory | readdir.c:78-88 | -1 exactly when stat fails, 1 exactly for a directory, 0 exactly for anything else |
| ReadDir.FilterIsDirectory | readdir.c:141-175 | the result is -1, 0 or 1 |
| ReadDir.FilterIsFile | readdir.c:184-228 | the result is 0 or 1 |
| ReadDir.KnownTypesClassified | readdir.c:158-218 | for a name that passes the name checks, the directory filter refuses every known type other than DT_DIR, DT_LNK and DT_UNKNOWN; the file filter keeps DT_REG and refuses every other known type |
| ReadDir.Keep | readdir.c:303-306 | a kept entry is not hidden and, as a file under a filter table, matches a suffix; a visible DT_DIR entry is kept exactly by the directory scan, a DT_REG entry passing the name checks exactly by the file scan, and an entry whose stat fails exactly by the directory scan (as -1) |
| ReadDir.SetsErrno | readdir.c:82-86 | in the directory scan errno is set exactly when the filter returns -1; in the file scan an entry that sets errno is refused |
| ReadDir.Scan | readdir.c:260-359 | no list exactly when the scan fails; otherwise the list is sorted ascending and is a permutation of the admitted names |
| ReadDir.HiddenNamePolicy | readdir.c:147-157 | with hidden files off, both filters refuse every name starting with '.'; with them on, the directory filter refuses "." and "..", and keeps other dot-named directories |
| ReadDir.DirTypeNeedsNoStat | readdir.c:159-160 | a DT_DIR entry that is not refused by name is kept without consulting the filesystem |
| ReadDir.StatFallback | readdir.c:161-227 | a DT_LNK or DT_UNKNOWN entry is kept as a directory when stat says directory or fails, and as a file only when stat says non-directory |
| ReadDir.UnmatchedNameRefused | readdir.c:197-210 | with a filter table, a name matching no suffix is refused as a file before its type is examined, so it never calls stat |
| ReadDir.VideoFileKept | readdir.c:199-219 | with the video table, a regular "Movie.MKV" is kept |
| ReadDir.OtherFileRefused | readdir.c:199-210 | with the video table, a regular "notes.txt" is refused |
| ReadDir.InitialCapacityAsWritten | readdir.c:287-292 | as written: 16 for an st_size of 0, otherwise st_size / (3 * 8) rounded down, which is 0 for st_size 1..23 |
| ReadDir.InitialCapacity | readdir.c:287-292 | the starting capacity is at least 1, and it agrees with the source whenever st_size is 0 or at least 24 |
| ReadDir.GrowCapacity | readdir.c:326-330 | a full array grows to st_size / 12 when that is larger than the current capacity, otherwise to exactly double |
| ReadDir.GrowMakesRoom | readdir.c:316-338 | once a non-zero capacity is reached, growing leaves room for names[n - 1] and one more |
| ReadDir.SmallDirectoryHasNoRoom | readdir.c:287-330 | as written, an st_size of 1..11 gives capacity 0, and growing from 0 keeps it 0 |
| ReadDir.Realloc | readdir.c:331-336 | the grown array is fresh, has the new capacity, and keeps the names stored so far |
| ReadDir.AddName | readdir.c:316-338 | storing a name extends the stored names by exactly it, keeps one slot free, and grows the capacity only when the count reaches it |
| ReadDir.CollectNames | readdir.c:298-338 | after the readdir loop the array holds exactly the admitted names in directory order, and errno is set exactly when some filter's stat failed |
| ReadDir.ScanDirectory | readdir.c:260-359 | -1 with no list exactly when opendir fails, fstat fails, readdir fails or a stat failed (no partial result); otherwise the count equals the list's length and the list is the admitted names, sorted ascending and as a permutation |
| ReadDir.ReadDirectory | readdir.c:373-392 | the callback receives each scanned name exactly once, in sorted order, and the count returned is the number of calls; on failure there are no calls and the result is -1 |
| ReadDir.AdmittedSpec | readdir.c:298-337 | a name is collected exactly when some entry carrying it passes the filter |
| ReadDir.AdmittedCount | readdir.c:298-337 | the number of collected names equals the number of entries the filter keeps |
| ReadDir.ScanIsSortedAdmitted | readdir.c:298-358 | a successful scan is sorted, is a permutation of the admitted names, and has one name per kept entry |
| ReadDir.NoHiddenNames | readdir.c:147-151 | no name a scan returns starts with '.' |
| ReadDir.FileNamesMatchFilter | readdir.c:199-215 | with a filter table, every name a file scan returns ends with one of the table's suffixes, ignoring case |
| ReadDir.StatFailureFailsScan | readdir.c:341-352 | an entry whose filter reaches a failing stat makes the whole scan fail |
| ReadDir.EmptyDirectoryScansEmpty | readdir.c:298-358 | an empty directory that opens and reads cleanly scans to the empty list, not an error |
| Play.Normalize | play.cpp:750-758 | the stored path ends in '/'; the path is copied unchanged when it already does, and otherwise '/' is appended |
| Play.LastSlash | play.cpp:838-839 | like strrchr: the index of a '/' with no '/' after it, or none when there is no '/' |
| Play.DescendedName | play.cpp:837-839 | the name searched for after climbing contains no '/' |
| Play.FirstIndexOf | play.cpp:844-852 | the first index holding the text, or none exactly when the text is not listed |
| Play.Reselect | play.cpp:836-853 | when the popped component is listed, its first occurrence is selected; when it is not, or no '/' remains, the default item is current |
| Play.DescendedNameOfChild | play.cpp:837-839 | climbing out of prefix + t + "/" searches for t |
| Play.ReselectFindsChild | play.cpp:837-853 | after climbing out of a listed directory t, the current item is t; when t is not listed, the default item stays current |
| Play.ArchiveSelectionNotRestored | play.cpp:884-885 | an archive t is stored as prefix + t + "#/", so climbing back searches for "t#" and keeps the default selection |
| Play.Decide | play.cpp:871-907 | the placeholder of a nested stack, and only it, goes up; a descent is into the item's path plus '#' or '/'; a played path is the item's path or the DVD of the current directory |
| Play.DecideCases | play.cpp:863-908 | a non-directory is played, or entered with '#' exactly when it is an archive; a directory or a failed stat (IsDirectory non-zero) is entered with '/', except AUDIO_TS/VIDEO_TS, which play "dvdnav:///" + prefix; each new path is the file name plus exactly one character |
| Play.ListedNotHidden | readdir.c:147-151 | no name a directory or file scan lists starts with '.' |
| Play.Menu | play.cpp:722-733 | a nested menu starts with the current path as placeholder; when both scans fail only that placeholder (or nothing) is listed; no item after the placeholder starts with '.' |
| Play.BuildMenu | play.cpp:722-733 | the items built are exactly Menu's: the placeholder when nested, then the unfiltered directory scan, then the filtered file scan, a failed scan contributing nothing |
| Play.ShiftUp | play.cpp:768 | memmove up by one: entries 0..n-1 move to 1..n, and the rest is untouched |
| Play.ShiftDown | play.cpp:832 | memmove down by one: entries 1..n-1 move to 0..n-2, and the rest is untouched |
| Play.FindItem | play.cpp:844-852 | the search loop finds the first item equal to the name, as FirstIndexOf does |
| Play.Browser.constructor | play.cpp:633-638 | the statics start zeroed: no stack (in a fresh array), browser not requested, no start directory or filter |
| Play.Browser.RequestBrowser | play.cpp:1006-1033 | requesting the browser sets ShowBrowser, the start directory and the filter table, and leaves the stack alone |
| Play.Browser.CreateMenu | play.cpp:720-737 | the items are exactly the menu for the current stack, and the first item is current |
| Play.Browser.Push | play.cpp:762-770 | the path goes on at index 0 and the old entries shift up; the array grows to exactly one more entry only when it is full |
| Play.Browser.Pop | play.cpp:830-832 | index 0 is dropped and the rest shift down |
| Play.Browser.NewDir | play.cpp:745-775 | the stack becomes the normalised path followed by the old stack, the count grows by one and stays within the capacity, the filter is adopted, and the menu is rebuilt |
| Play.Browser.Open | play.cpp:784-808 | with a path, the stack is exactly the normalised root; without one, the stack and array are untouched; either way the filter is adopted and the menu rebuilt |
| Play.Browser.LevelUp | play.cpp:821-858 | at depth 1 or less: osEnd and nothing changes; otherwise osContinue, the stack loses index 0, the menu is rebuilt, and the item named like the popped directory is current |
| Play.Browser.EnterThenLevelUp | play.cpp:745-858 | NewDir into a subdirectory t followed by LevelUp restores the stack, lists the directory again, and selects t when it is listed |
| Play.Browser.Selected | play.cpp:863-908 | carries out DecideCases: climbing, descending (the stack gains the normalised path), or playing (the path is returned and the stack and menu are unchanged) |
| Play.Browser.ProcessKey | play.cpp:915-946 | an unhandled Ok carries out Decide exactly as Selected does (climb, descend with the menu rebuilt, or play with nothing changed); an unhandled Back or a host Back climbs, rebuilding the menu and reselecting the directory left; at the top level nothing changes, and a host Back then clears ShowBrowser and returns osPlugin while an unhandled one returns osEnd; an unhandled other key returns osUnknown with nothing changed; any other state is passed through unchanged; the filter, start directory and filter table are kept |
| Play.Browser.MainMenuAction | play.cpp:1540-1558 | while the browser is requested, it opens with the start directory, which is handed out only once and then cleared, and the menu is rebuilt with its first item current; otherwise the play menu is chosen and the browser state is left unchanged |
| Play.BrowseSession | play.cpp:1540-1558 | the plugin's call sequence composes: requesting the browser at a root, opening it from the main menu and handing it an unhandled key leaves the browser open on the normalised root |
| Transport.FallThrough | play.cpp:459-513 | an arrow key that does not steer a DVD menu acts as its transport key: Up as Play, Down as Pause, Left as FastRew, Right as FastFwd; every other key is itself |
| Transport.Step | play.cpp:458-517 | DVD navigation sends one call and leaves the transport alone; every change of speed sends the new speed and every change of the pause flag sends a pause; the speed becomes 1, stays, halves or doubles |
| Transport.HalveDoubleValid | play.cpp:499-516 | halving above 1 and doubling below 32 keep the speed in 1, 2, 4, 8, 16, 32 |
| Transport.StepKeepsValidSpeed | play.cpp:459-521 | every key keeps the speed a power of two between 1 and 32 |
| Transport.RunKeepsValidSpeed | play.cpp:459-521 | from a valid speed, any sequence of keys keeps the speed a power of two between 1 and 32 |
| Transport.FastFwdDoublesUpToCap | play.cpp:507-516 | FastFwd doubles the speed and sends it while below 32, and does nothing at 32; Right is FastFwd unless DVD navigation is active |
| Transport.FastRewHalvesOrSeeks | play.cpp:494-505 | FastRew halves the speed above 1, and at normal speed it seeks back 10 seconds instead |
| Transport.PlayResumes | play.cpp:464-474 | Play always leaves normal speed and unpaused, and it sends nothing only when already there |
| Transport.PauseIsInvolution | play.cpp:481-485 | Pause toggles the pause flag, keeps the speed and sends exactly one pause call; Pause twice restores the transport state |
| Transport.FastFwdThenFastRew | play.cpp:499-516 | below the cap, FastFwd then FastRew returns to the same speed |
| Transport.Control.ProcessKey | play.cpp:442-521 | osEnd with no change when the player is gone; otherwise osContinue, the speed and pause state become Step's, and Step's calls are appended to the log; a valid speed stays valid |

## Left out

- Real filesystem calls (`virt_opendir`, `virt_readdir`, `virt_stat`, `virt_fstat`), AVFS and zziplib are not modelled. They are foreign code, replaced by the `FileSystem` value.
- The `fstat` repeated when the array is full (readdir.c:319-324) is not modelled. It is taken to give the same answer as the first `fstat`, so its failure branch is left out.
- Allocation failure is not modelled: the `malloc`, `strdup` and `realloc` out-of-memory branches of readdir.c:293-296, 309-312 and 330-334. Dafny allocation cannot fail. Freeing memory is not modelled either.
- Integer widths are not modelled. Counts and capacities are unbounded, so `int` overflow of `n`, `arraysz` or `DirStackSize` is not modelled.
- `ReadDir.FilterIsDirectory` and `ReadDir.FilterIsFile`: their own contracts state only the range of the result. Their full behaviour is stated by `HiddenNamePolicy`, `DirTypeNeedsNoStat`, `KnownTypesClassified`, `StatFallback` and `UnmatchedNameRefused`.
- `ReadDir.InitialCapacity`: this is the corrected capacity (see Findings), and it differs from the source for st_size 1..23. For 12..23 the source recovers on the first growth where `malloc(0)` (readdir.c:293) returns a non-NULL block, as on glibc, so only the capacity sequence differs and the collected names do not. Where `malloc(0)` returns NULL, the source's scan fails at once with -1 for st_size 1..23, while the model scans normally.
- The `USE_AVFS` switch is the parameter `avfs`. readdir.c:23-24 defines `__USE_AVFS`, while readdir.c:100 tests `USE_AVFS`, so as written archive support depends on how the build defines it.
- The host menu (`cOsdMenu`) is reduced to item texts and a current index:
  - `Display()` is taken to make the first item current when none is.
  - `Clear()` is taken to empty the list.
  - Drawing, titles and `Skins.Message` are not modelled.
- `CreateMenu` ignores scan errors: a failed scan adds no items, and the previous listing is not kept (the `FIXME: handle errors!` at play.cpp:733).
- `NewDir` appends '/' after the '#' archive marker, so the stored path is `…/x.cbz#/`.
- `Play.Browser.Selected` and `Play.Browser.ProcessKey` (on Ok) require a current item. The source dereferences `Get(Current())`, which is NULL on an empty menu, so Ok on an empty top-level directory is undefined there.
- `Play.Browser.RequestBrowser` requires a non-empty root. `ConfigBrowserRoot` is assumed to be set; its definition is not part of this model.
- `PlayFile` and the player it launches (play.cpp:623-627) are not modelled: `Selected` returns the path it would play.
- `cPlayMenu` is not modelled, because it is UI wiring. `RequestBrowser` models only the three globals its browse entries set.
- The mismatch between the item ids `cPlayMenu` adds and the ids it handles (play.cpp:976-980 against 1012-1033) is left as is.
- `cMyControl::ProcessKey` beyond the speed and pause keys is not modelled. This covers seeks on colour and number keys, Stop, Ok, Back, Menu, audio and subtitles. Their `PlayerSend*` calls go to the player process, which is not part of this model.
- `Hide()` and `ShowReplayMode()` are OSD display and are not modelled.
- `PlayerDvdNav` is a boolean here, because only its non-zero test is used by the modelled keys.
- `Transport.Control.constructor` assumes the player starts at speed 1, unpaused. That initialisation lives in player code that is not part of this model.
- Logging (`dsyslog`, `Error`, `Debug`) is not modelled.
- File names are `seq<char>`, so names that are not valid UTF-8 cannot be represented. For UTF-8 names, byte-wise `strcmp` order equals code-point order, and the ASCII-only case folding of the suffix test agrees with `strcasecmp` in the C locale.
- A single dangling symbolic link fails a whole directory scan: the directory filter stats every DT_LNK entry (readdir.c:170-174), and the failed stat leaves `errno` set, which discards the scan (readdir.c:341-352). `CreateMenu` then lists no subdirectories, and with no filter table no files either. `ReadDir.StatFailureFailsScan` states the scan half; the model keeps this behaviour as written.

## Findings

| source | as written | input that shows it | evidently intended | confidence | as-written member | corrected member |
|---|---|---|---|---|---|---|
| readdir.c:287-338 | `arraysz = st_size / 24` whenever st_size is non-zero, and growth `arraysz *= 2` when st_size / 12 is not larger | a directory whose fstat reports st_size 1..11 (for example 8) and which has one admitted entry: arraysz is 0, the growth keeps 0, and `realloc(names, 0)` (readdir.c:331) follows. If it returns a non-NULL minimal block, `names[0]` is written outside it. If it frees the block and returns NULL, as glibc does, the out-of-memory branch (readdir.c:331-334) returns 0 with the freed pointer as `*namelist`, and `ReadDirectory` frees it a second time (readdir.c:388) | a capacity of at least 1, for example falling back to 16 when the quotient is 0, so that the loop keeps n < arraysz | not executed | ReadDir.SmallDirectoryHasNoRoom | ReadDir.InitialCapacity |
