# photo-organizer: a Dafny model of its decision engine

`photo-organizer` is a single Go program, `main.go`. It moves new photos and
videos from a library's `Incoming/` folder into
`Originals/YYYY/YYYY-MM-DD/`. The date comes from EXIF, the file name, the
modification time or the clock, in that order. The program can also keep a
CSV manifest of the organized files and remove the folders it has emptied.

This project models the program's decision engine and proves properties
about it. The engine has these parts:

- **Classification.** `isMediaFile` and `isPhotoFile` test the lower-cased
  extension against four tables (`media.dfy`).
- **Filename dates.** The five `datePatterns` are each written as a
  leftmost-match scan. `time.Parse` is modelled for the layouts `20060102`
  and `2006-01-02`, with Gregorian leap years (`filename_dates.dfy`,
  `calendar.dfy`).
- **Date fallback.** `getFileDate` is a total function of the EXIF result,
  the `os.Stat` result and the clock, all given as inputs
  (`date_resolver.dfy`).
- **Destination and collision probe.** `getDestination` builds the path.
  `base_N.ext` names are probed until one is free (`planner.dfy`,
  `organizer.dfy`).
- **The move loop.** `organizeFiles` runs on a `Library` object whose
  `files` map (path to size, mtime, EXIF date, hash) and `dirs` set are
  updated in place. Which `MkdirAll`, `Rename`, `copyFile` and `Remove` calls
  fail is an input (`Faults`). Dry runs change nothing.
- **Manifest merge.** `updateManifest` reads the existing rows into a map
  keyed by relative path. It adds a row only for a key that is absent, then
  writes the header followed by every row sorted by key (`manifest.dfy`).
- **Discovery and cleanup.** `findFilesToOrganize` and `cleanupEmptyFolders`
  run over a value tree of the `Incoming/` folder (`tree.dfy`,
  `discovery.dfy`, `cleanup.dfy`).

Two details of the cleanup walk shape the model:

- `filepath.Walk` first reads a folder's entry names, then calls the walk
  function on the folder, and only then visits the entries. The walk
  function may remove the folder (main.go:580-582). Walk still goes through
  the names it read, but each entry's `Lstat` now fails, and the walk
  function returns at once on an error (main.go:565). So nothing below a
  removed folder is entered. A folder is therefore checked while its own
  entries are still in place. A folder whose only entry is an empty folder
  loses that entry but is itself kept until the next run
  (`Cleanup.CheckedBeforeDescending`).
- The cleanup walk, unlike discovery, also enters hidden and system folders.

## Model

| member | source | states |
|---|---|---|
| Text.LowerChar | main.go:167 | ASCII capitals map to their lower-case letters; only ASCII capitals, the KELVIN SIGN and the capital I with dot above change; no result is an ASCII capital |
| Text.CaseMapsPerChar | main.go:167 | ToLower and ToUpper keep the length and map every character on its own |
| Text.LowerOfUpper | main.go:174 | for the modelled case maps, lower-casing after upper-casing gives the lower-cased string exactly when the string holds no DOTLESS I or LONG S, the two characters that upper-case into ASCII |
| Text.LowerIdempotent | main.go:167 | lower-casing twice gives the same result as lower-casing once |
| Text.Itoa | main.go:513 | `%d` of a size gives one or more digits whose decimal value is the size, with no leading zero |
| Text.ItoaInjective | main.go:513 | different sizes are written differently |
| Text.Pad2Digits | main.go:515 | a two-digit field is two digits denoting its value |
| Text.PadLeft | main.go:317 | zero-padding reaches the width, keeps the text as a suffix and adds only zeros |
| Text.StrLessIrreflexive | main.go:541 | the string order of `sort.Strings` is irreflexive |
| Text.StrLessTransitive | main.go:541 | the order is transitive |
| Text.StrLessTotal | main.go:541 | two different strings are ordered one way or the other |
| Text.StrLessAsymmetric | main.go:541 | the order is asymmetric |
| Calendar.DaysIn | main.go:206 | a month has 28 to 31 days, and February has 29 exactly in leap years |
| Calendar.ParseCompact | main.go:130 | a successful "20060102" parse is midnight of a year in 0..9999 |
| Calendar.ParseIso | main.go:139 | a successful "2006-01-02" parse is midnight of a year in 0..9999 |
| Calendar.LeapDay | main.go:206 | 29 February is valid exactly in leap years (2024 and 2000 yes, 2025 and 1900 no) |
| Calendar.YearDigits | main.go:317 | the "2006" field is the year's digits, four of them for years 0..9999, and '-' then the digits for negative years |
| Calendar.ParseCompactFormats | main.go:206 | a successful eight-digit parse formats back to the same text |
| Calendar.CompactRoundTrip | main.go:206 | every midnight of years 0..9999 survives formatting and re-parsing in the eight-digit layout |
| Calendar.ParseIsoFormats | main.go:318 | a successful ISO parse formats back, as the date folder, to the same text |
| Calendar.IsoRoundTrip | main.go:318 | every midnight of years 0..9999 survives formatting as a date folder and re-parsing |
| Calendar.YearPrefixOfDateFolder | main.go:317-318 | the year folder name is the prefix of the date folder name, followed by '-' |
| Media.IsMediaFile | main.go:166-169 | `isMediaFile`: the lower-cased extension is in one of the four tables; its meaning is stated by Media.Classify, Media.ClassifyAgrees and Media.CaseInsensitive |
| Media.IsPhotoFile | main.go:173-175 | `isPhotoFile`: the lower-cased extension is in the photo table; Media.ClassifyAgrees, Media.PhotoIsMedia and Media.CaseInsensitive state its meaning |
| Media.Classify | main.go:164-175 | an extension falls in a table exactly when its lower-cased form is in that table |
| Media.ClassifyAgrees | main.go:166-168 | isMediaFile holds exactly for the union of the four tables, and isPhotoFile exactly for the photo table |
| Media.PhotoIsMedia | main.go:173-174 | every photo extension is a media extension |
| Media.CaseInsensitive | main.go:166-175 | both tests, and the table chosen, agree on an extension and its lower-cased form, and on its upper-cased form unless it holds a DOTLESS I or LONG S |
| Media.DotlessIExample | main.go:173-174 | ".gıf" is not a photo, but its upper-cased form ".GIF" is |
| Media.UpperCaseExamples | main.go:67-99 | ".JPG" is a photo; ".MP4" and ".LRF" are media but not photos |
| Media.UnsupportedExamples | main.go:166-168 | ".txt" and the empty extension are not media |
| FilenameDates.GroupAt | main.go:204 | a capture group has the pattern's length and, except for the ISO form, only digits |
| FilenameDates.LeftmostFrom | main.go:204 | the scan returns the leftmost position where the pattern matches, or none when it matches nowhere |
| FilenameDates.LeftmostIs | main.go:204 | a match with no earlier match is the one the scan returns |
| FilenameDates.Attempt | main.go:204-211 | one pattern's try: the group of its leftmost match, parsed with its layout; FilenameDates.LeftmostFrom, DjiAttemptFails and SonyAttemptSucceeds state its meaning |
| FilenameDates.FirstDate | main.go:203-212 | the loop over the patterns, returning the first attempt that succeeds; FilenameDates.FirstDateIsFirstSuccess, FirstDateNone and FirstDateFromSomePattern state its meaning |
| FilenameDates.DateFromFilename | main.go:202-213 | `getDateFromFilename`: FirstDate over the five patterns in their order; FilenameDates.DateFromFilenameShape, DjiExample and FallThroughExample state its meaning |
| FilenameDates.FirstDateIsFirstSuccess | main.go:202-213 | the date is that of the first pattern, in list order, that both matches and parses |
| FilenameDates.FirstDateNone | main.go:202-213 | there is no date exactly when no pattern both matches and parses |
| FilenameDates.FirstDateFromSomePattern | main.go:202-213 | a date found is always the result of one of the patterns |
| FilenameDates.DateFromFilenameShape | main.go:202-213 | a date from a file name is midnight of a year in 0..9999 |
| FilenameDates.ParseJune19 | main.go:206 | "20250619" parses to 19 June 2025 |
| FilenameDates.DjiExample | main.go:129-130 | `DJI_20250619224111_0001_D.MP4` resolves to 19 June 2025 through the DJI rule |
| FilenameDates.DjiAttemptFails | main.go:130 | a DJI group with month 99 matches but does not parse |
| FilenameDates.SonyAttemptSucceeds | main.go:133 | the Sony clip rule dates `20250619_C0001_DJI_20259999.MP4` to 19 June 2025 |
| FilenameDates.FallThroughExample | main.go:203-210 | a pattern that matches but does not parse falls through to the next pattern |
| DateResolver.GetFileDate | main.go:221-244 | `getFileDate` with the EXIF read, the stat and the clock as inputs; DateResolver.GetFileDateCandidates and the four priority lemmas below state its meaning |
| DateResolver.GetFileDateCandidates | main.go:221-244 | the date is the EXIF date, the file-name date, the mtime or the clock, and an EXIF date no other candidate gives is taken only for photos |
| DateResolver.ExifWinsForPhotos | main.go:226-230 | for a photo, a readable EXIF date wins over everything |
| DateResolver.ExifIgnoredForOthers | main.go:226 | for a non-photo, the EXIF input does not matter |
| DateResolver.FilenameBeatsMtime | main.go:233-235 | without a usable EXIF date, a file-name date wins over the mtime and the clock |
| DateResolver.NonPhotoUsesFilename | main.go:221-235 | a non-photo with a file-name date gets that date |
| DateResolver.NowOnlyWithoutStat | main.go:238-243 | the clock matters only when stat fails |
| Paths.Ext | main.go:222 | `filepath.Ext` is the suffix that starts at the last '.' of the final element, or empty when that element has no '.' |
| Paths.Base | main.go:223 | `filepath.Base` is never empty |
| Paths.RelPath | main.go:500 | `filepath.Rel` of the base itself is ".", and for a path inside the base, joining the base with the result gives the path back |
| Paths.FirstComponent | main.go:507 | the first element of the split is the prefix before the first separator |
| Paths.TrimSuffix | main.go:360 | `strings.TrimSuffix` removes the suffix exactly when it is present |
| Paths.ExtOfJoin | main.go:298 | the extension of `dir/name` is that of `name` |
| Paths.BaseOfJoin | main.go:319 | the base of `dir/name` is `name` |
| Paths.DirOfJoin | main.go:380 | the directory of `dir/name` is `dir` |
| Planner.DateDir | main.go:317-321 | the folder `Originals/<year>/<date>` of a date; Planner.DateDirWithin, Planner.DateDirShape and Calendar.YearPrefixOfDateFolder state its meaning |
| Planner.Destination | main.go:315-322 | `getDestination` given the file's date: the date folder joined with the base name; Planner.DestinationShape and Organizer.DestinationWithin state its meaning |
| Planner.DateDirWithin | main.go:321 | the date folder lies under `Originals/` |
| Planner.DateDirShape | main.go:317-321 | the destination folder is `Originals/YYYY/YYYY-MM-DD`, and YYYY is the first characters of the date folder |
| Planner.DestinationShape | main.go:315-322 | the destination is the date folder joined with the unchanged base name |
| Planner.ProbePath | main.go:359-363 | `fmt.Sprintf("%s_%d%s", base, counter, ext)` with `ext` the destination's extension and `base` the rest; Planner.ProbeExt, ProbeDir, ProbeInjective and FreeNameIsSmallest state its meaning |
| Planner.ProbeExt | main.go:359-363 | a suffixed name keeps the extension of the destination it replaces |
| Planner.ProbeDir | main.go:363 | a suffixed name stays in the folder of the name it replaces |
| Planner.ProbeInjective | main.go:363 | different counters give different probe paths |
| Planner.ProbedCount | main.go:361-368 | counters 1..c-1 give c-1 different paths |
| Planner.ProbeBound | main.go:361-368 | the probe loop tries at most one more counter than there are taken paths |
| Planner.FreeCounter | main.go:361-368 | the probe loop stops at the first counter whose path does not exist |
| Planner.FreeName | main.go:361-368 | the chosen name does not exist |
| Planner.FreeNameIsSmallest | main.go:361-368 | the chosen name is `base_N.ext` for the smallest N ≥ 1 whose path is free |
| Organizer.IncomingOriginalsDisjoint | main.go:885-886 | no path lies both under `Incoming/` and under `Originals/` |
| Organizer.DestinationWithin | main.go:315-322 | every destination lies under `Originals/` |
| Organizer.DecideWithin | main.go:358-368 | a renamed collision stays in the destination's folder tree |
| Organizer.Decide | main.go:351-369 | an existing destination of the same size makes a duplicate, and only then; a moved file's path is free; a free destination is kept as it is |
| Organizer.CollisionPicksSmallestFree | main.go:358-368 | on a collision with a different size, the path is `base_N.ext` for the smallest free N |
| Organizer.SourceDate | main.go:348 | `getFileDate` of a found source, whose stat succeeds, so the clock is never used; DateResolver.NowOnlyWithoutStat states why |
| Organizer.Planned | main.go:348-369 | the destination check of one source: duplicate, or the destination or its first free suffixed name; Organizer.Decide, CollisionPicksSmallestFree, PlannedWithin and PlannedDir state its meaning |
| Organizer.PlannedWithin | main.go:348-369 | every planned path lies under `Originals/` |
| Organizer.DuplicateCountBounds | main.go:354-355 | the duplicates counted are at most the sources, and none exactly when every source is moved |
| Organizer.Library.MkdirAll | main.go:381 | succeeds unless it faults or a file is in the way; it then adds the directory and its parents |
| Organizer.Library.Rename | main.go:387 | on success the content moves to the new path and nothing else changes; on failure nothing changes |
| Organizer.Library.CopyFile | main.go:430-445 | on success the destination holds the source's content with a new mtime; on failure nothing changes |
| Organizer.Library.Remove | main.go:392 | the path is removed unless the call faults |
| Organizer.Library.ChooseDestination | main.go:348-369 | the decision for a source is the planned one |
| Organizer.Library.Probe | main.go:361-368 | the probe loop returns the first free `base_N.ext` |
| Organizer.Library.Transfer | main.go:379-404 | mkdir, then rename or copy and remove: the record returned describes the move, a failure moves nothing, and the capture date is read from the destination |
| Organizer.Library.OrganizeOne | main.go:347-405 | one iteration of the loop: the chain of iterations grows by one, the step `Handle` makes of the state before it, and the loop invariant `Organizing` is kept with its record appended and its duplicate counted |
| Organizer.Library.OrganizeFiles | main.go:331-422 | the iterations are the chain `Handle` makes from the initial state, unique by `ChainUnique`; the final state is the last iteration's, and the records and the duplicate count are theirs; a dry run changes nothing, returns no records and counts the duplicates; in every run, untouched files stay, every removed source and new file is in a record, every record is a completed move into its date folder under `Originals/`, and no source or destination appears twice |
| Organizer.PlannedDir | main.go:348-369 | every planned path lies directly in the date folder of its source's date |
| Organizer.DecideDir | main.go:358-368 | a renamed collision stays in the destination's own folder |
| Organizer.DuplicateCountStep | main.go:354-355 | counting one more source adds one exactly when it is a duplicate |
| Organizer.MkdirOk | main.go:381 | `os.MkdirAll` of a folder succeeds exactly when it is not faulted and no file lies on its chain; Organizer.Library.MkdirAll is proved against it |
| Organizer.Record | main.go:396-404 | the appended FileInfo, read back from the destination, with its capture date from `getFileDate` of the destination; Organizer.MovedRecorded and TransferredEffect state its meaning |
| Organizer.Transferred | main.go:379-404 | the non-dry-run half of one iteration: MkdirAll, then rename or copy-then-remove, then the record; Organizer.TransferredEffect and Organizer.Library.Transfer state its meaning |
| Organizer.Handle | main.go:347-405 | one whole iteration of the loop as a value; Organizer.HandleEffect states its meaning and Organizer.Library.OrganizeOne is proved against it |
| Organizer.Moved | main.go:386-393 | when the rename or the copy succeeds, the destination holds the source's content; when both fail, the files are unchanged |
| Organizer.TransferredEffect | main.go:379-404 | the folder chain is made unless `MkdirAll` fails; a record exists exactly when the folder was made and the rename or the copy succeeded; it then describes the move, with the mtime kept by a rename and set to now by a copy and the capture date read from the destination; the source remains only when its removal after a copy fails |
| Organizer.MovedRecorded | main.go:386-404 | the record of a move that went through describes the move, and nothing else changed |
| Organizer.HandleEffect | main.go:347-405 | one iteration: a duplicate is skipped and a dry run stops, both changing nothing; otherwise a record exists exactly when `MkdirAll` succeeds and the rename or the copy does, and it records the move of the source to its planned destination, directly in the folder of its date; folders are only added |
| Organizer.ProgressStep | main.go:395-404 | a completed move keeps the loop invariant |
| Organizer.ProgressSkip | main.go:354-392 | an iteration that moves nothing keeps the loop invariant |
| Organizer.DateFolderStep | main.go:395-402 | appending a record that lies in its date folder keeps every record in its own |
| Organizer.ChainStep | main.go:347-405 | handling the next source in the state the earlier iterations left extends their chain |
| Organizer.ChainUnique | main.go:347-405 | the loop is deterministic: two chains of iterations over the same sources from the same state are equal |
| Organizer.TallyStep | main.go:347-405 | an iteration that moves nothing, or that moves the source to a free path in its date folder and records it, keeps the invariant: `Progress`, the date folders, folders only added, and a dry run's duplicate count |
| Organizer.TallyHandled | main.go:347-405 | the iteration `Handle` makes for the next source keeps that invariant |
| Organizer.OrganizingStart | main.go:344-345 | with no iterations, no records and no duplicates, the loop invariant holds in the initial state |
| Organizer.OrganizingStep | main.go:347-405 | one more iteration keeps the loop invariant, with its record appended and its duplicate counted |
| Organizer.OrganizingDone | main.go:347-421 | after the last source, the invariant gives the loop's outcome over all the sources |
| Manifest.IndexRows | main.go:469-476 | every row of the index sits under its own `relative_path` column |
| Manifest.IndexRowsKeys | main.go:471-475 | a key is indexed exactly when some row with two or more fields has it |
| Manifest.IndexRowsLastWins | main.go:473 | a repeated key keeps its last row |
| Manifest.ReadExisting | main.go:464-477 | the reading loop gives the first record as the header and the index of the rest |
| Manifest.Headers | main.go:479-495 | the header written is never empty; it is the file's first record when that is non-empty, and the twelve default columns otherwise |
| Manifest.Cents | main.go:514 | the size in hundredths of a MiB, rounded half to even as `%.2f` rounds; Manifest.CentsNearest states its meaning |
| Manifest.FormatMb | main.go:514 | the `file_size_mb` cell: the whole MiB, '.', then two digits of Cents |
| Manifest.CentsNearest | main.go:514 | the `%.2f` megabytes is within half a hundredth of the exact value |
| Manifest.NewRow | main.go:505-521 | the twelve cells of a new manifest row; Manifest.NewRowColumns, EntriesShape and FirstRecordWins state its meaning |
| Manifest.NewRowColumns | main.go:509-521 | a new row has twelve fields, with its key under `relative_path` and its hash under `file_hash` |
| Manifest.EntriesShape | main.go:500-521 | every entry's row is twelve fields wide and carries its key, which is the record's relative path |
| Manifest.Merged | main.go:497-524 | the `existing` map after the loop over the organized files; Manifest.MergedKeys, MergedKeepsExisting, MergedFirstWins, MergedIdempotent and Manifest.AddRecords state its meaning |
| Manifest.MergedKeepsExisting | main.go:501-503 | keys already present keep their rows |
| Manifest.MergedKeys | main.go:497-524 | after the merge the keys are the old keys plus the new records' keys, and nothing else |
| Manifest.MergedFirstWins | main.go:499-523 | a new key gets the row of the first record that has it, and a repeat in the same batch does not replace it |
| Manifest.MergedPresent | main.go:501-503 | merging records whose keys are all present changes nothing |
| Manifest.MergedIdempotent | main.go:497-524 | merging the same keys a second time changes nothing |
| Manifest.MergedKeyed | main.go:522 | the merge keeps every row under its own key |
| Manifest.MergedLengths | main.go:509-522 | the merge adds only rows as wide as the entries |
| Manifest.AddRecords | main.go:497-524 | the loop's map is the merge, and `newCount` is the number of keys not there before, so a key repeated in the batch counts once |
| Manifest.AddRecord | main.go:500-523 | one iteration adds the record's row only when its key is absent, and keeps the count of new keys |
| Manifest.StrictlySortedUnique | main.go:537-541 | two strictly sorted sequences with the same elements are equal, so the written order does not depend on map iteration order |
| Manifest.SortedDistinct | main.go:541 | a strictly sorted sequence has no repeats |
| Manifest.CollectKeys | main.go:537-540 | the collected paths are the map's keys, each once |
| Manifest.InsertSorted | main.go:541 | inserting a new key keeps the sequence strictly sorted and adds exactly that key |
| Manifest.SortPaths | main.go:541 | sorting distinct keys gives a strictly sorted sequence of the same keys |
| Manifest.SortedKeys | main.go:536-541 | the keys of a set in ascending order, each once |
| Manifest.WriteRows | main.go:533-545 | the writer emits the header, then one row per path |
| Manifest.UpdateManifest | main.go:454-553 | fails exactly when the manifest directory or file cannot be created; otherwise writes the header and the merged rows sorted by key, and reports the number of new keys |
| Manifest.IndexRowsOfDistinct | main.go:469-476 | reading back rows that each carry their own key, with no key repeated, gives back those rows by key |
| Manifest.DistinctCard | main.go:537-541 | a strictly sorted sequence has as many elements as the set of them |
| Manifest.Manifest | main.go:533-545 | the rows written: the header, then every merged row in ascending key order; Manifest.ManifestShape, ReadBack and UpdateIdempotent state its meaning |
| Manifest.ManifestShape | main.go:533-545 | the written file is the header, then one row per key, ascending, with each row in its own key's place |
| Manifest.WrittenShape | main.go:533-545 | the same shape for any keyed map |
| Manifest.MergedRowsKeyed | main.go:473 | every merged row sits under its own key |
| Manifest.ExistingRowsKept | main.go:497-524 | old rows are never overwritten, and the keys after the update are the old keys plus the records' relative paths |
| Manifest.FirstRecordWins | main.go:499-523 | a new key gets the row built from the first organized file that has it |
| Manifest.ExistingWidth | main.go:466-476 | when every record is as wide as the header, so is every indexed row, and that width is at least two |
| Manifest.IndexRowsFrom | main.go:471-475 | every indexed row is one of the rows read |
| Manifest.RowLengths | main.go:509-521 | when the header has twelve columns, so does every merged row |
| Manifest.ReadBack | main.go:464-477 | a file written as a header and a keyed map reads back as that header and map |
| Manifest.UpdateIdempotent | main.go:454-553 | a second update with the same records, at any time, rewrites the same file and adds nothing |
| FileTree.VisibleFilesAreFiles | main.go:293 | a file reached through visible names is a file of the tree |
| Discovery.Pruned | main.go:284-288 | a folder is skipped when its name starts with '.' or is one of the seven names at main.go:107-115; Discovery.FoundExactly and SkippedFolderExample state its meaning |
| Discovery.Found | main.go:278-304 | the paths `findFilesToOrganize` collects under a node, in walk order; Discovery.FoundExactly, FoundAreVisibleMedia and FoundComplete state its meaning |
| Discovery.Walk | main.go:278-304 | the walk function appends the paths found under a node, in walk order |
| Discovery.WalkEntries | main.go:278-304 | the walk visits the entries of a folder it enters in order |
| Discovery.FindFilesToOrganize | main.go:275-307 | the result is the found paths of the `Incoming/` tree |
| Discovery.FoundAreVisibleMedia | main.go:284-301 | every path found is a file with a media extension, reached through visible names only |
| Discovery.FoundExactly | main.go:284-301 | a path is found exactly when the walk reaches it and its extension is a media extension; the walk reaches a file under a visible name through folders, the top one included, that are neither hidden nor system folders |
| Discovery.FoundComplete | main.go:293-301 | when no folder is skipped, every visible file with a media extension is found |
| Discovery.SkippedFolderExample | main.go:286-287 | nothing is found inside `PRIVATE/`, and a hidden file is ignored whatever its extension |
| Cleanup.Visible | main.go:572-577 | the count of entries whose names do not start with '.'; Cleanup.VisibleZero and CountVisible state its meaning |
| Cleanup.Empty | main.go:565-580 | a folder the walk removes: a folder with no visible entry; Cleanup.VisibleZero, EmptyHasNoVisibleFiles and SweepDropsOnlyEmpty state its meaning |
| Cleanup.Sweep | main.go:564-585 | a node after the walk: empty folders below it removed, checked before their entries; Cleanup.SweepDropsOnlyEmpty, SweepKeepsVisibleFiles and CheckedBeforeDescending state its meaning |
| Cleanup.VisibleZero | main.go:572-577 | a folder has no visible entries exactly when all its entries are hidden |
| Cleanup.CountVisible | main.go:572-577 | the counting loop counts the entries with visible names |
| Cleanup.SweepFolder | main.go:564-585 | the walk below a folder removes the empty folders, does not enter them, and counts them |
| Cleanup.CleanupEmptyFolders | main.go:561-590 | the top folder is never checked; the result is the swept tree and the number of folders removed |
| Cleanup.SweepDropsOnlyEmpty | main.go:580-583 | only empty folders are dropped; every other entry stays, swept |
| Cleanup.EmptyHasNoVisibleFiles | main.go:572-583 | a folder with only hidden entries holds no file reached through visible names |
| Cleanup.AllHiddenNoVisibleFiles | main.go:572-583 | entries with hidden names hold no file reached through visible names |
| Cleanup.SweepKeepsVisibleFiles | main.go:564-585 | the cleanup never removes a file reached through visible names |
| Cleanup.FoundSurvivesCleanup | main.go:564-585 | every file that discovery would find survives the cleanup |
| Cleanup.CheckedBeforeDescending | main.go:564-585 | a folder holding only an empty folder is kept by this run and removed by the next |

## Left out

- EXIF decoding (`getExifDate`, main.go:184-197) is an input: each file carries the EXIF date its content would give, or None.
- The MD5 hash (`getFileHash`, main.go:253-266) is an opaque string carried with each file's content.
- CSV encoding, quoting and parsing are left out. A file is the sequence of its records. A record count that does not match the header makes the whole read come back empty, as `ReadAll`'s ignored error does.
- File I/O is modelled only as its effect on the `Library` maps and on the tree value. This covers `os.Stat`, `MkdirAll`, `Rename`, `copyFile`, `Remove`, `RemoveAll` and `os.ReadDir`. Which `MkdirAll`, `Rename`, `copyFile` and `Remove` calls fail is an input (`Faults`).
- `Cleanup.SweepFolder`: every `os.RemoveAll` succeeds. The program ignores its error and counts the folder as removed even when the call fails (main.go:581-582); the model does not capture a folder that stays behind.
- Errors reported to the walk function are left out, in both walks. The tree holds only the entries that `Lstat` and `ReadDir` succeed on.
- Symbolic links are leaves of the tree, because `filepath.Walk` does not follow them.
- Nothing ties the tree value to the `Library` maps. Discovery's result is passed to the move loop as its list of sources.
- `Text.LowerChar`: `strings.ToLower` is modelled for ASCII, for the KELVIN SIGN and for the capital I with dot above, the only non-ASCII characters that lower-case into ASCII. Other non-ASCII letters are left unchanged, which cannot affect a table lookup. The manifest's extension column therefore keeps a non-ASCII capital that Go would lower-case.
- `Text.UpperChar`: `strings.ToUpper` is modelled for ASCII and for the DOTLESS I and LONG S, the only non-ASCII characters that upper-case into ASCII. The program itself never upper-cases; the function only states case-insensitivity.
- `filepath.Clean` is not applied. The library root is used as typed and is never cleaned (main.go:874-875), while Go's `filepath.Join` cleans what it builds (main.go:885-888). For a root such as `/photos/`, `./lib/` or `/`, the model's absolute paths and `dirs` entries may therefore keep a doubled or trailing separator where Go's are cleaned. Every model path comes from the same `Join` and relative paths are taken by cutting the root plus a separator, so no relative path, manifest key, base name, extension or decision depends on this. `filepath.Rel` is modelled only for paths inside the base, which is the only way the program uses it.
- Time zones and locations are left out. An instant is a wall-clock date and time to the second.
- One clock value stands for every `time.Now()` of a run. The organized-date column of every new row uses that value.
- `Manifest.CentsNearest`: `float64(size)/(1024*1024)` is exact only below 2^53 bytes. The model divides exactly, which agrees for every real file size.
- `Organizer.Library.CopyFile`: requires the source and destination to differ. The move loop always passes a destination that does not exist, so it never copies a file onto itself. A partly written destination after a failed copy is not modelled.
- `Organizer.Decide`: a directory at the destination path always counts as a collision of a different size, so the source moves to `base_1.ext` or the next free name. In Go, `os.Stat` of a directory reports a size such as 4096, and a source of exactly that size is skipped as a duplicate instead.
- `Organizer.Library.OrganizeFiles`: no clause states that a run without faults moves every source that is not a duplicate. `MkdirAll` could still be blocked by a file sitting where a date folder belongs; `HandleEffect` states the condition for each iteration.
- Command-line handling, `initPhotoLibrary`, `installSkill` and all printed output (main.go:597-926) are left out. The summary counts are kept as results.
- A manifest whose header does not have twelve columns stops reading back once twelve-column rows are added to it. `Manifest.UpdateIdempotent` requires a twelve-column header for that reason.
