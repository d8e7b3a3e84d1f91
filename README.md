# Fish-Tracking-Visualization core, modelled in Dafny

This project models the data-handling core of the fish tracking
visualisation pipeline:

- **the recording-tree validator** (`fishproviz/path_validation.py`).
  - `filter_files` matches the CSV segment files of one camera/day folder
    against the expected segment indices `000000`, `000001`, ….
  - It reports which indices are missing, which files are duplicates, and
    which file names are corrupted.
  - For each index it keeps the lexicographically last file as the
    canonical one.
  - `check_foldersystem` walks camera folders and day folders, checks the
    file count of each day and logs the complaints.
  - When asked, it deletes the duplicates.
- **the day and batch helpers** (`src/utile.py`).
  - Day-name parsing: `get_date`, `get_date_string`, `get_seconds_from_day`.
  - The ordered list of recording days (`get_days_in_order`).
  - The de-duplication of a day's batch files (`filter_filenames`).
  - The row filtering of `read_batch_csv` and the loop of `merge_files`.
- **the feeding statistics** (`src/trajectory/feeding.py`).
  - The clamped start/end frame window of a batch (`get_start_end_index`).
  - The window filter on `FRAME`.
  - The count of visits to the feeding region: runs of consecutive frames.
  - The per-fish, per-day accumulators of `FeedingTrajectory`
    (`reset_data`, `update_feeding_and_visits`).
  - The conversion of clock times to frame offsets (`get_df_idx_from_time`).
  - The date key built from the feeding-time sheet.

The modules are:

- `Wrappers`: `Option` and `Result`.
- `Seqs`: filtering, distinctness and subsequences.
- `Strings`: Python's `int()`, `"{:0Nd}".format`, `str.split`, slicing and
  string ordering on ASCII digits.
- `Sorting`: `list.sort` on strings.
- `Regex`: the two `re.match` patterns of `filter_files`.
- `PathValidation`, `Utile` and `Feeding`: one per source file.

Code that works step by step is imperative Dafny, and each such method is
proved equal to a specification function:

- the index loop of `filter_files`;
- the walk of `check_foldersystem` over a `DataTree` object whose listing the
  deletions change;
- the pop loop of `filter_filenames` over a `NameList`;
- the loop of `merge_files`;
- the `FeedingTrajectory` object whose dictionaries `update_feeding_and_visits`
  changes.

The properties are stated about those functions.

The file system is an explicit inventory value. A directory listing is a
sequence of names in the order the operating system returns them, and the
proofs show that the results do not depend on that order where the code
sorts.

## Model

| member | source | states |
|---|---|---|
| `PathValidation.Render` | fishproviz/path_validation.py:10-123 | the text of every log message: the header, duplicate-day, `_no_fish`, count, folder and deletion lines of `check_foldersystem` and the missing, duplicates and corrupted messages of `filter_files`; the log is kept as entries and rendered by this function |
| `PathValidation.Key` | fishproviz/path_validation.py:88 | `int()` reads the index back from its `{:06d}` key, and an index in `[0, 10^6)` gives exactly six digits |
| `PathValidation.IndexMatches` | fishproviz/path_validation.py:89-92 | a file is a match of index `i` iff it is listed and the pattern built from the key of `i` matches it at its start |
| `PathValidation.Corrupted` | fishproviz/path_validation.py:102-105 | a file is reported corrupted exactly when it is in `files` and the general segment pattern does not match it |
| `PathValidation.MatchedIsNotCorrupted` | fishproviz/path_validation.py:89-105 | a file matched by the pattern of some index is never reported corrupted |
| `Regex.IndexImpliesGeneral` | fishproviz/path_validation.py:89-91 | every name the index pattern of `{:06d}` index `i` matches is also matched by the general pattern (`\d*` in place of the index) |
| `Regex.MatchIgnoresSuffix` | fishproviz/path_validation.py:92 | `re.match` only anchors at the start: a matching name still matches with any text appended |
| `Regex.Literal` | fishproviz/path_validation.py:90 | the formatted camera/day text becomes one atom per character, a literal one for every character other than `.` |
| `PathValidation.Resolve` | fishproviz/path_validation.py:93-100 | the matches of one index give no canonical file iff there are none, and `len - 1` duplicates otherwise |
| `PathValidation.ResolveChoice` | fishproviz/path_validation.py:93-96 | the canonical file is one of the matches and the greatest in string order; duplicates plus canonical is exactly the multiset of matches |
| `PathValidation.ResolveOrderIndependent` | fishproviz/path_validation.py:94 | because the matches are sorted, the canonical file and the duplicates do not depend on the listing order |
| `PathValidation.ResolveDistinct` | fishproviz/path_validation.py:95-96 | for distinct names the canonical file is never among the duplicates |
| `PathValidation.KeyInjective` | fishproviz/path_validation.py:88 | different indices give different `{:06d}` keys |
| `PathValidation.Step` | fishproviz/path_validation.py:93-100 | one iteration: without a match the key is appended to the missing list and nothing else changes; otherwise the missing list is unchanged, `correct_f[key]` is one of the matches, and all matches but one are appended to the duplicates |
| `PathValidation.Scan` | fishproviz/path_validation.py:87-100 | the loop over `range(lo, hi)` as a function of its bounds: never more missing keys than indices; the lemmas below state what each accumulator holds |
| `PathValidation.StepKeys` | fishproviz/path_validation.py:93-100 | one iteration changes only the entry of its own key |
| `PathValidation.ScanKeysInRange` | fishproviz/path_validation.py:87 | no key outside `range(min_idx, n_files)` is ever recorded |
| `PathValidation.ScanIndex` | fishproviz/path_validation.py:87-100 | after the loop, an index has an entry in `correct_f` iff it had a match, and is missing iff it had none; the entry is the greatest match |
| `PathValidation.ScanKeysFromRange` | fishproviz/path_validation.py:87-100 | every recorded key is the key of an index in the range |
| `PathValidation.ScanDuplicateOrigin` | fishproviz/path_validation.py:93-95 | every reported duplicate is a non-canonical match of some index |
| `PathValidation.StepCollects` | fishproviz/path_validation.py:95 | `duplicate_f.extend` keeps earlier duplicates and adds the new ones |
| `PathValidation.ScanCollects` | fishproviz/path_validation.py:87-95 | every non-canonical match of every index ends up in the duplicates |
| `PathValidation.ScanOrderIndependent` | fishproviz/path_validation.py:87-100 | the loop's result depends only on the multiset of matches of each index |
| `PathValidation.ScanDuplicates` | fishproviz/path_validation.py:87-100 | with distinct matches, a name is a duplicate iff it matches some index whose canonical file is a different name |
| `PathValidation.ScanConverges` | fishproviz/path_validation.py:87-100 | if each index keeps only distinct matches that were not duplicates, the loop reports no duplicates |
| `PathValidation.FilterLog` | fishproviz/path_validation.py:107-124 | at most three messages; none exactly when nothing is missing, duplicated or corrupted |
| `PathValidation.FilterLogEntries` | fishproviz/path_validation.py:107-124 | the missing, duplicates and corrupted messages appear exactly when their lists are non-empty, carry those lists, and come in that order |
| `PathValidation.FilterFilesSpec` | fishproviz/path_validation.py:71-125 | the value of `filter_files`: at most three messages, and no duplicates without a message; `FilterFilesPartition`, `FilterFilesKeys`, `FilterFilesDuplicates` and `FilterFilesClean` state the rest |
| `PathValidation.ScanIndices` | fishproviz/path_validation.py:83-100 | the loop computes exactly the missing keys, duplicates and `correct_f` of the specification |
| `PathValidation.FilterFiles` | fishproviz/path_validation.py:71-125 | `filter_files` returns exactly the log, duplicates and `correct_f` of the specification function |
| `PathValidation.FilterFilesPartition` | fishproviz/path_validation.py:87-124 | each index is either in `correct_f`, holding its greatest match, or listed in the missing message, never both |
| `PathValidation.FilterFilesKeys` | fishproviz/path_validation.py:81 | every key of `correct_f` is the key of an index in `range(min_idx, n_files)` |
| `PathValidation.FilterFilesDuplicates` | fishproviz/path_validation.py:92-96 | with distinct file names, a file is a duplicate iff it matches an index whose canonical file is another one |
| `PathValidation.FilterFilesClean` | fishproviz/path_validation.py:87-125 | the log is empty iff every expected index has exactly one file and no file is corrupted |
| `PathValidation.FilterFilesOrderIndependent` | fishproviz/path_validation.py:87-100 | duplicates and `correct_f` do not depend on the listing order of `files` |
| `PathValidation.Without` | fishproviz/path_validation.py:63-64 | the listing without the removed names |
| `PathValidation.FilterFilesConverges` | fishproviz/path_validation.py:61-64 | after the reported duplicates are deleted, a second run finds no duplicates |
| `PathValidation.CsvFiles` | fishproviz/path_validation.py:23-24 | the glob `*.csv` keeps exactly the listed names ending in `.csv` |
| `PathValidation.FilterFilesShape` | fishproviz/path_validation.py:107-125 | duplicates always produce a log message, and the log holds only file messages |
| `PathValidation.ExpectedCount` | fishproviz/path_validation.py:33-51 | the number of csv files a day folder must hold, 4 for a `_1550` folder and `n_files` otherwise; `CheckCount` and `CheckDayRules` state the messages that follow from it |
| `PathValidation.CheckDaySpec` | fishproviz/path_validation.py:23-66 | the messages and the names to delete for one day folder; `CheckDayRules` states its rules and `DayConverges` that a second check deletes nothing |
| `PathValidation.DayChecksRules` | fishproviz/path_validation.py:34-66 | a count mismatch is logged iff the count is wrong; the folder line appears iff there are complaints and the count is right; only duplicates are deleted, and only with `delete` |
| `PathValidation.CheckDayRules` | fishproviz/path_validation.py:23-66 | an empty `_no_fish` folder is skipped, and a non-empty one is reported first; then the same count, folder-line and deletion rules apply to the whole day |
| `PathValidation.RemoveAll` | fishproviz/path_validation.py:63-64 | the `os.remove` loop on a listing: it never grows the listing or adds a name, and when no call raises, none of the removed names is left |
| `PathValidation.RemoveAllKeeps` | fishproviz/path_validation.py:63-64 | removal never adds a name and keeps every name that is not removed |
| `PathValidation.RemoveAllFails` | fishproviz/path_validation.py:64 | removing a name that is not listed raises |
| `PathValidation.RemoveAllComplete` | fishproviz/path_validation.py:63-64 | when all names are listed, removal succeeds iff no name is removed twice, and it then leaves exactly the other names |
| `PathValidation.RemoveAllDistinct` | fishproviz/path_validation.py:63-64 | removal keeps a listing of distinct names distinct |
| `PathValidation.SetEntries` | fishproviz/path_validation.py:64 | changing one day folder's listing leaves every other folder as it was |
| `PathValidation.SetEntriesSame` | fishproviz/path_validation.py:64 | writing a folder's own listing back changes nothing |
| `PathValidation.SetEntriesTwice` | fishproviz/path_validation.py:63-64 | two successive updates of one folder equal the last one |
| `PathValidation.DataTree.constructor` | fishproviz/path_validation.py:9 | the tree holds the given camera folders |
| `PathValidation.RemoveFiles` | fishproviz/path_validation.py:63-64 | the `os.remove` loop leaves the listing of the specification's removal and reports whether it raised |
| `PathValidation.Complain` | fishproviz/path_validation.py:53-66 | the folder line, the deletion and the `filter_files` messages are those of the specification |
| `PathValidation.CheckCount` | fishproviz/path_validation.py:33-66 | the expected count is 4 for a `_1550` folder and `n_files` otherwise; the messages and deletions are those of the specification |
| `PathValidation.CheckDay` | fishproviz/path_validation.py:23-66 | the messages, deletions and outcome for one day folder are those of the specification |
| `PathValidation.SeenNext` | fishproviz/path_validation.py:15-18 | the set of seen days grows by the 8-character day prefix of each day folder |
| `PathValidation.DayOutcome` | fishproviz/path_validation.py:17-66 | one day folder: its listing afterwards holds only names it held before; `DayOutcomeLogs` and `DayOutcomeKeeps` state its log and the case without `delete` |
| `PathValidation.DaysWalk` | fishproviz/path_validation.py:12-66 | the loop over a camera's day folders only appends to the log, keeps the number of camera folders, and does nothing once an `os.remove` has raised |
| `PathValidation.TreeWalk` | fishproviz/path_validation.py:10-66 | the loop over the root listing: the log starts with the `For path:` header and the tree keeps its camera folders |
| `PathValidation.DaysWalkFrame` | fishproviz/path_validation.py:12-66 | walking one camera folder changes only that folder's day listings, and only those already visited |
| `PathValidation.DaysWalkNext` | fishproviz/path_validation.py:16-66 | one more day folder: skipped if its name is not a day, otherwise visited |
| `PathValidation.TreeWalkFrame` | fishproviz/path_validation.py:11-66 | camera folders not yet visited are untouched |
| `PathValidation.DaysWalkStopped` | fishproviz/path_validation.py:64 | once an `os.remove` has raised, nothing further happens within the camera folder |
| `PathValidation.TreeWalkStopped` | fishproviz/path_validation.py:64 | once an `os.remove` has raised, nothing further happens in the whole tree |
| `PathValidation.VisitDay` | fishproviz/path_validation.py:16-66 | one day folder appends the duplicate-day line and the day's messages, and updates its listing |
| `PathValidation.CheckCamera` | fishproviz/path_validation.py:12-66 | the loop over a camera's day folders computes the specification walk of that camera |
| `PathValidation.VisitCamera` | fishproviz/path_validation.py:11-66 | one entry of the root listing: a camera folder is walked as the specification says, any other entry is skipped |
| `PathValidation.CheckFolderSystem` | fishproviz/path_validation.py:9-68 | `check_foldersystem` returns the specification's log and leaves the specification's tree |
| `PathValidation.DayOutcomeLogs` | fishproviz/path_validation.py:15-20 | one day's messages never include the header; the duplicate-day line appears iff its day prefix was seen before |
| `PathValidation.DaysWalkPrefix` | fishproviz/path_validation.py:12-66 | walking a camera folder only appends to the log, and never the header |
| `PathValidation.DaysWalkDuplicates` | fishproviz/path_validation.py:15-20 | within one camera folder, a duplicate-day line is logged exactly for each day folder that repeats an earlier day prefix |
| `PathValidation.TreeWalkHeader` | fishproviz/path_validation.py:10 | the log begins with `For path: …` and holds it only once |
| `PathValidation.TreeWalkDuplicates` | fishproviz/path_validation.py:11-20 | across the tree, the duplicate-day lines are exactly those of repeated days in camera folders whose name has 8 digits |
| `PathValidation.VisitorsLogs` | fishproviz/path_validation.py:16-66 | every camera's visitor satisfies the logging rules |
| `PathValidation.CheckFolderSystemLog` | fishproviz/path_validation.py:9-68 | the complete log: the header first and only once; the duplicate-day lines are exactly the repeated days |
| `PathValidation.DayOutcomeKeeps` | fishproviz/path_validation.py:61 | without `delete` a day visit removes nothing and cannot raise |
| `PathValidation.DaysWalkKeeps` | fishproviz/path_validation.py:61 | a walk whose visits delete nothing leaves the camera folder unchanged |
| `PathValidation.TreeWalkKeeps` | fishproviz/path_validation.py:61 | a walk whose visits delete nothing leaves the tree unchanged |
| `PathValidation.CheckFolderSystemNoDelete` | fishproviz/path_validation.py:9-68 | with `delete` unset, the tree is left unchanged and the walk completes |
| `PathValidation.DayConverges` | fishproviz/path_validation.py:54-66 | after deleting the duplicates, checking the same day again finds nothing to delete |
| `Strings.FormatPadded` | fishproviz/path_validation.py:88 | `"{:0Nd}"`: the result is at least N digits for a non-negative number, and starts with `-` for a negative one |
| `Strings.FormatPaddedWidth` | fishproviz/path_validation.py:88 | a number below `10^N` gives exactly N characters |
| `Strings.ParseFormatPadded` | src/utile.py:94 | `int()` reads back what `"{:0Nd}"` wrote |
| `Strings.FormatPaddedInjective` | fishproviz/path_validation.py:88 | different numbers give different padded texts |
| `Strings.NatToString` | src/trajectory/feeding.py:214 | `%s` of a natural number is digits with no leading zero, whose value is the number |
| `Strings.ParseInt` | src/utile.py:94 | `int()` succeeds exactly on digits, optionally after one `-` or `+`, and gives their value, negated after `-` |
| `Strings.Slice` | src/utile.py:98 | Python slicing: never longer than the string, and the plain slice when the bounds are in range |
| `Strings.Split` | src/trajectory/feeding.py:214 | `str.split` gives at least one part, and no part contains the separator |
| `Strings.JoinSplit` | src/trajectory/feeding.py:214 | joining the parts of a split with the separator gives back the text |
| `Strings.SplitAtSeparator` | src/trajectory/feeding.py:228 | splitting `a + sep + b` splits `a` and `b` separately |
| `Strings.Chunks2` | src/trajectory/feeding.py:229 | `[s[i:i+2] for i in range(0, len(s), 2)]`: half as many pieces as characters, rounded up; two characters each, the last one or two |
| `Strings.Chunks2Join` | src/trajectory/feeding.py:229 | the pieces concatenate to the start time |
| `Strings.LexLeTotal` | fishproviz/path_validation.py:94 | string order is total |
| `Strings.LexLeTransitive` | fishproviz/path_validation.py:94 | string order is transitive |
| `Strings.LexLeAntisymmetric` | fishproviz/path_validation.py:94 | string order is antisymmetric |
| `Sorting.Sort` | src/utile.py:146 | `list.sort` and `sorted` keep the length; `SortSorts` states that the result is a sorted permutation |
| `Sorting.SortSorts` | src/utile.py:146 | `list.sort` gives a sorted permutation of its input |
| `Sorting.SortedUnique` | src/utile.py:81 | a sorted permutation is unique, so any sorting algorithm gives this result |
| `Sorting.SortedLastIsMax` | fishproviz/path_validation.py:96 | `i_f[-1]` of a sorted list is its greatest element |
| `Sorting.PermutationDistinct` | fishproviz/path_validation.py:94 | sorting keeps distinct names distinct |
| `Seqs.Filter` | src/utile.py:80 | a list comprehension with a condition keeps exactly the elements that satisfy it |
| `Seqs.FilterPermutation` | src/utile.py:80 | filtering permuted lists gives permuted results |
| `Seqs.FilterIsSubsequence` | src/utile.py:117-118 | filtering keeps the rows in their order |
| `Seqs.FlatMapAppend` | src/utile.py:80 | the comprehension over a concatenated listing concatenates the results |
| `Seqs.FlatMapMembers` | src/utile.py:80 | an element is in the comprehension's result iff it comes from some listed element |
| `Seqs.FlatMapPermutation` | src/utile.py:80 | permuting the listing permutes the results of the comprehension |
| `Utile.Accept` | src/utile.py:147-153 | `filter_filenames` never returns more names than it got |
| `Utile.NameList.constructor` | src/utile.py:145 | the list holds the given names |
| `Utile.FilterFilenames` | src/utile.py:145-154 | the pop loop empties the list and returns the accepted names of the sorted list |
| `Utile.AcceptKeys` | src/utile.py:151-153 | the k-th accepted name contains the `{:06d}` key of segment k |
| `Utile.AcceptSubsequence` | src/utile.py:149-152 | the accepted names are a subsequence of the sorted names |
| `Utile.AcceptFirst` | src/utile.py:141 | for each segment, the FIRST name in sorted order that contains its key is taken |
| `Utile.AcceptGap` | src/utile.py:149-153 | once a segment key occurs in no remaining name, nothing more is accepted |
| `Utile.FilterFilenamesOrderIndependent` | src/utile.py:146 | the result does not depend on the order of the glob result |
| `Utile.GetDate` | src/utile.py:97-98 | `day[:8]`: at most 8 characters, exactly the first 8 when there are that many |
| `Utile.GetDateString` | src/utile.py:100-101 | `YYYY/MM/DD` from the first eight characters; `DatePieces`, `DateStringPieces` and `DateStringShape` state its pieces and its shape |
| `Utile.DatePieces` | src/utile.py:100-101 | the three slices of `get_date_string` concatenate to `get_date` |
| `Utile.DateStringPieces` | src/utile.py:100-101 | splitting `get_date_string` at `/` gives the year, month and day slices, whose concatenation is `get_date` |
| `Utile.DateStringShape` | src/utile.py:100-101 | for a day name of 8 or more characters: 10 characters, `/` at positions 4 and 7, and the date digits in between |
| `Utile.GetSecondsFromDay` | src/utile.py:92-95 | the result is defined iff both `int()` calls succeed |
| `Utile.SecondsFromDayRoundTrip` | src/utile.py:92-95 | a day name `YYYYMMDD_HHMM…` gives `hours * 3600 + minutes * 60`, a time within the day |
| `Utile.SecondsFromDayBounds` | src/utile.py:94-95 | two-digit fields give at most `99 * 3600 + 99 * 60` |
| `Utile.DayNames` | src/utile.py:80 | the comprehension keeps at most as many names as are listed |
| `Utile.DayNamesMembers` | src/utile.py:80 | a day is listed iff it is `name[:13]` of a listed name whose first 8 characters are numeric |
| `Utile.DayOf` | src/utile.py:80 | one listed name contributes at most one day |
| `Utile.DayNamesShape` | src/utile.py:80 | each day is at most 13 characters and its date is numeric |
| `Utile.DayNamesPermutation` | src/utile.py:80 | permuted listings give permuted days |
| `Utile.DaysInOrder` | src/utile.py:77-84 | never more days than the comprehension found |
| `Utile.DaysInOrderSorted` | src/utile.py:80-81 | without an interval, the days are sorted and are a permutation of the listed days |
| `Utile.DaysInOrderInterval` | src/utile.py:82-83 | an interval within range returns that slice of the sorted days |
| `Utile.DaysInOrderOrderIndependent` | src/utile.py:80-83 | the result does not depend on the order of `os.listdir` |
| `Utile.DropNa` | src/utile.py:115 | `dropna` never adds rows |
| `Utile.DropNaMembers` | src/utile.py:115 | a sample remains iff it comes from a row with all six columns present |
| `Utile.DropNaComplete` | src/utile.py:115 | with no missing value, no row is dropped |
| `Utile.DropErrors` | src/utile.py:116-118 | the last row is always kept |
| `Utile.DropErrorsMembers` | src/utile.py:117-118 | a row remains iff it is the last row, or an earlier row with `x > -1`; no remaining row except the last is an error |
| `Utile.DropErrorsSubsequence` | src/utile.py:117-118 | the order of the rows is kept |
| `Utile.DropErrorsIdempotent` | src/utile.py:116-118 | dropping errors twice is the same as dropping them once |
| `Utile.ReadBatchCsv` | src/utile.py:113-120 | never more rows than the file has |
| `Utile.ReadBatchCsvRules` | src/utile.py:113-120 | with `drop_errors`, the last complete row is kept and is the only possible error row; the result is an ordered subset of the complete rows, and is exactly those rows without `drop_errors` |
| `Utile.MergeFiles` | src/utile.py:122-127 | succeeds iff every file exists, giving one batch per file in order, each read by `read_batch_csv`; otherwise it reports the first missing file |
| `Feeding.BatchIndexIsClamp` | src/trajectory/feeding.py:50-62 | each index is `frame * fps - batch_number * BATCH_SIZE` clamped to `[0, BATCH_SIZE]` |
| `Feeding.BatchIndexMonotone` | src/trajectory/feeding.py:50-62 | a later frame never gives a smaller index |
| `Feeding.GetStartEndIndex` | src/trajectory/feeding.py:45-63 | fails (KeyError) iff there is a table and the date is not in it |
| `Feeding.StartEndIndexRange` | src/trajectory/feeding.py:45-63 | without a table it gives `(0, BATCH_SIZE)`; otherwise both indices are in `[0, BATCH_SIZE]`, in order when the period is |
| `Feeding.Window` | src/trajectory/feeding.py:83 | `FRAME.between`: a row is in the window iff its frame is within the inclusive bounds |
| `Feeding.WindowSubsequence` | src/trajectory/feeding.py:83 | the window keeps the rows in order |
| `Feeding.DropTrailingError` | src/trajectory/feeding.py:80-81 | either the batch unchanged, or the batch without its last row when that row is an error |
| `Feeding.Shift` | src/trajectory/feeding.py:103 | `index_swim_in + 1` adds one to each index |
| `Feeding.Breaks` | src/trajectory/feeding.py:98-100 | the break indices are increasing, lie in `[0, len - 1)`, and are none for at most one frame |
| `Feeding.BreaksMembers` | src/trajectory/feeding.py:98-100 | `k` is a break iff the next frame does not follow frame `k` by exactly one |
| `Feeding.VisitIndices` | src/trajectory/feeding.py:94-105 | the visit indices are empty iff the region has no frames |
| `Feeding.VisitCount` | src/trajectory/feeding.py:95-106 | `n_entries`; `VisitCountBreaks` and `VisitCountIsRuns` state its value, one more than the breaks and the number of maximal runs |
| `Feeding.VisitCountBreaks` | src/trajectory/feeding.py:94-106 | no visit iff no frame; otherwise one more visit than breaks, and never more visits than frames |
| `Feeding.VisitIndicesShape` | src/trajectory/feeding.py:101-105 | the visit indices start at 0, end at the last frame index, and are ordered and in range |
| `Feeding.Runs` | src/trajectory/feeding.py:94-106 | the runs are empty iff there are no frames, and the first run starts at the first frame |
| `Feeding.RunsFlatten` | src/trajectory/feeding.py:94-106 | the runs concatenate to the frames |
| `Feeding.RunsConsecutive` | src/trajectory/feeding.py:98-100 | each run is a block of consecutive frames |
| `Feeding.RunsMaximal` | src/trajectory/feeding.py:98-100 | runs are consecutive and maximal: neighbouring runs do not join up |
| `Feeding.VisitCountIsRuns` | src/trajectory/feeding.py:94-106 | the number of visits is the number of maximal runs of consecutive frames |
| `Feeding.VisitCountExample` | src/trajectory/feeding.py:94-106 | frames 5, 6, 7, 10, 11, 15 make three visits |
| `Feeding.Frames` | src/trajectory/feeding.py:99 | the `FRAME` column, row by row |
| `Feeding.CountsOf` | src/trajectory/feeding.py:83-106 | the three counts of one batch: visits ≤ frames in the region ≤ rows in the window ≤ rows of the batch, and no visit iff no frame in the region |
| `Feeding.SubplotCountsAsWritten` | src/trajectory/feeding.py:79-92 | the counts are defined iff the batch is not empty (`FRAME.array[-1]` raises) |
| `Feeding.SubplotCounts` | src/trajectory/feeding.py:79-106 | corrected counts; defined iff the batch is not empty |
| `Feeding.TrailingErrorCounted` | src/trajectory/feeding.py:80-83 | a one-row batch whose row is an error in the window: as written it counts one window row; corrected, none |
| `Feeding.SubplotCountsBounds` | src/trajectory/feeding.py:83-106 | visits ≤ region frames ≤ window rows ≤ batch rows, and a trailing error row is never counted |
| `Feeding.NoErrorsAfterDrop` | src/trajectory/feeding.py:80-81 | a batch read with `drop_errors` holds no error row once its trailing error is dropped |
| `Feeding.Accumulate` | src/trajectory/feeding.py:153-159 | the keys are the old keys plus the date |
| `Feeding.AccumulateEntries` | src/trajectory/feeding.py:153-159 | the date's entry grows by the value, starting from 0 when absent; other days are unchanged |
| `Feeding.AccumulateAdditive` | src/trajectory/feeding.py:157-159 | two additions to one day equal one addition of their sum, and additions commute |
| `Feeding.AccumulateAllTotals` | src/trajectory/feeding.py:145 | after a sequence of updates, each day's entry is its old entry plus the sum of that day's values; it exists iff it existed or was updated |
| `Feeding.EmptyTables` | src/trajectory/feeding.py:37-39 | one empty dictionary per fish |
| `Feeding.FeedingTrajectory.constructor` | src/trajectory/feeding.py:25-33 | the object starts with one empty dictionary per fish in each table |
| `Feeding.FeedingTrajectory.ResetData` | src/trajectory/feeding.py:36-39 | every table is one empty dictionary per fish |
| `Feeding.FeedingTrajectory.UpdateFeedingAndVisits` | src/trajectory/feeding.py:152-159 | succeeds iff the fish index is a valid Python index, and then adds the three counts to that fish's day; otherwise nothing changes |
| `Feeding.FeedingTrajectory.RecordBatch` | src/trajectory/feeding.py:77-106 | succeeds iff the day's window exists, the batch is not empty and the fish index is valid; then it records the batch's corrected counts |
| `Feeding.GetDfIdxFromTime` | src/trajectory/feeding.py:223-230 | defined iff both times parse |
| `Feeding.WeightedSum` | src/trajectory/feeding.py:228-229 | `sum([int(t) * f for (t, f) in zip(...)])`, `None` for a part `int()` rejects; `WeightedSumTruncates` and `WeightedSumThree` state its value |
| `Feeding.TimeSeconds` | src/trajectory/feeding.py:228 | `hh:mm` in seconds; `TimeSecondsValue` and `TimeSecondsIgnoresSeconds` state its value |
| `Feeding.StartSeconds` | src/trajectory/feeding.py:229 | `hhmmss` in seconds; `StartSecondsValue` states its value |
| `Feeding.WeightedSumTruncates` | src/trajectory/feeding.py:228-229 | `zip` ignores the parts beyond the weights |
| `Feeding.WeightedSumThree` | src/trajectory/feeding.py:229 | three numeric parts give their weighted sum |
| `Feeding.TimeSecondsValue` | src/trajectory/feeding.py:228 | `hh:mm` gives `hh * 3600 + mm * 60` |
| `Feeding.TimeSecondsIgnoresSeconds` | src/trajectory/feeding.py:228 | a third field `hh:mm:ss` is ignored |
| `Feeding.StartSecondsValue` | src/trajectory/feeding.py:229 | `hhmmss` gives `hh * 3600 + mm * 60 + ss` |
| `Feeding.DfIdxFromTimeValue` | src/trajectory/feeding.py:223-230 | the same hour and minute in both arguments give `-ss` |
| `Feeding.DfIdxFromTimeClock` | src/trajectory/feeding.py:223-230 | for any `hh:mm` and any two-digit `HHMMSS` the result is `hh * 3600 + mm * 60 - (HH * 3600 + MM * 60 + SS)` |
| `Feeding.DfIdxFromTimeZero` | src/trajectory/feeding.py:223-230 | `hh:mm` against `hhmm00` gives 0 |
| `Feeding.DateKeyAsWritten` | src/trajectory/feeding.py:214 | the key as the code builds it, defined iff the date splits into three fields that `int()` accepts; `DateKeysOf` gives its value with an unpadded year, and `DateKeyUnpaddedYear` shows the day name it misses (first finding) |
| `Feeding.DateKey` | src/trajectory/feeding.py:214 | the corrected key is defined exactly when the key as written is |
| `Feeding.DateTextSplit` | src/trajectory/feeding.py:214 | a `DD.MM.YY` date splits into its three fields |
| `Feeding.DateKeysOf` | src/trajectory/feeding.py:214 | the key of `DD.MM.YY` is `20` + year + month + day + `_` + feeding time, with an unpadded year as written and a padded year corrected |
| `Feeding.DateKeyRoundTrip` | src/trajectory/feeding.py:214 | the corrected key starts with an 8-digit date that `get_date` reads, followed by `_` and the feeding time; year, month and day read back from it |
| `Feeding.DateKeyAgreesFrom2010` | src/trajectory/feeding.py:214 | for years 10-99 the key as written equals the corrected key |
| `Feeding.DateKeyUnpaddedYear` | src/trajectory/feeding.py:214 | `02.01.07` gives `2070102_…` as written, which is not a day name; the corrected key is `20070102_…` |

## Left out

- The `main` of path_validation.py and its command line are left out. So are `os.listdir`, `glob` and the file system itself: a directory tree is a `DataTree` value, and a listing is a sequence in a given order.
- `isnumeric`, `int()` and the `\d*` of the file-name patterns (fishproviz/path_validation.py lines 90 and 103) are modelled on ASCII digits: the `Digit` class of `Regex.InClass` accepts exactly the characters of `Strings.IsDigit`. Python's `\d` and `isnumeric` also accept other Unicode digits; those, surrounding whitespace and `_` separators are not modelled.
- Regex syntax: the camera and day texts are placed in the patterns verbatim. A `.` in them is a wildcard as in Python. Other regular-expression metacharacters in folder names are not modelled.
- Deletion: when an `os.remove` raises (a name listed twice among the duplicates), Python propagates the exception and returns no log. The model instead stops the walk: `CheckFolderSystem` returns the log gathered up to that point (`TreeWalk`'s partial log) with `ok = false`, and the deletions made before it are kept. The exception itself is not modelled.
- `get_time_for_day` and `get_full_date` are left out: they format through `strftime` and `datetime`.
- `csv_of_the_day` is left out: its glob and its `re.search` run on the file system. Its duplicate rule is `filter_filenames`, which is modelled.
- CSV parsing in `read_batch_csv` is left out (`skiprows`, the delimiter, bad lines). A file is a sequence of rows whose six columns are present or missing. Floats are reals. `reset_index` only renumbers the rows, and a sequence has no index.
- `merge_files` does not read files: the files are a map from name to rows. A missing name stands for the exception `pd.read_csv` raises.
- Plotting, figure output, `pixel_to_cm`, steps and spikes in `subplot_function` are left out. So are `feeding_data_to_csv`, `feeding_data_to_tex` and `set_feeding_box`.
- `FeedingShape.contains` is a given predicate on rows (`inRegion`). Its geometry lives in code that is not part of this model.
- `BATCH_SIZE`, `FRAMES_PER_SECOND`, `N_fishes` and `FEEDINGTIME` come from configuration that is not part of this model, so they are parameters. `int(batch_number)` is taken to be an integer already.
- `feeding_times_start_end_dict` is left out (JSON, CSV and file-existence checks), except the date key its comprehension builds at line 214. The table is given to `FeedingTrajectory` as an optional map.
- Feeding.FeedingTrajectory.RecordBatch: records the corrected counts (trailing error row dropped). The counts as written are `Feeding.SubplotCountsAsWritten`; see Findings.
- Feeding.DateKey: the model uses the year zero-padded to two digits, not the unpadded year the code writes; see Findings.

## Findings

| source | as written | input that shows it | evidently intended | confidence | as-written member | corrected member |
|---|---|---|---|---|---|---|
| src/trajectory/feeding.py:214 | `"20%s"` formats the year with `%s`, so a year below 10 loses its leading zero | date `02.01.07` gives key `2070102_<time>`: 7 digits before `_`, so `get_date` of it is not numeric and no day name matches it | `20070102_<time>`, the year padded like month and day (`%02d`) | high, not executed | `Feeding.DateKeyUnpaddedYear` | `Feeding.DateKeyRoundTrip` |
| src/trajectory/feeding.py:80-81 | `batch.drop(batch.tail(1).index)` discards its result, so the trailing error row stays in the batch and is counted by the window at line 83 | a batch of one row with `x = -1` and `FRAME` inside the window counts 1 row in the feeding period (`sum(feeding_filter)`) | the error row removed before the window is taken, so the sentinel row is not counted | medium, not executed | `Feeding.TrailingErrorCounted` | `Feeding.SubplotCountsBounds` |

The test of `batch.x.array[-1]` at line 80 shows that the trailing sentinel
row is meant to be excluded from the feeding statistics, but the code keeps it
(the second finding). The model records the counts as written in `Feeding.SubplotCountsAsWritten` and
uses the corrected counts (`Feeding.SubplotCounts`) in
`Feeding.FeedingTrajectory.RecordBatch`.
