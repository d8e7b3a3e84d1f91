/** The segment-file validator of fishproviz/path_validation.py: which CSV
    segments of a camera/day folder are canonical, duplicated, missing or
    corrupted (`filter_files`), and the walk over a recording tree that reports
    them and optionally deletes the duplicates (`check_foldersystem`). The
    directory tree is an explicit inventory value held by a `DataTree` object;
    deleting a file removes its name from the listing of its day folder. */
module PathValidation {
  import opened Wrappers
  import opened Strings
  import opened Seqs
  import opened Sorting
  import opened Regex

  // ------------------------------------------------------------ log entries

  /** One line of the validation log. */
  datatype LogEntry =
    | Header(path: string)
    | DuplicateDay(day: string, path: string, camera: string)
    | NoFishNotEmpty
    | CountMismatch(folder: string, expected: int, actual: nat)
    | CorrectCount(folder: string)
    | DeletingDuplicates
    | FilesMissing(keys: seq<string>)
    | FilesDuplicated(names: seq<string>)
    | FilesCorrupted(names: seq<string>)

  /** The text the Python code appends to its log for each entry. */
  function Render(e: LogEntry): string
  {
    match e
    case Header(path) => "For path: " + path
    case DuplicateDay(day, path, camera) => "Duplicate day " + day + " in folder: " + path + "/" + camera + "/"
    case NoFishNotEmpty => "Folders with no_fish suffix should be empty!"
    case CountMismatch(folder, expected, actual) =>
      "In folder " + folder + " the number of csv files is unequal the expected number "
        + IntToString(expected) + ", it is " + IntToString(actual) + " instead"
    case CorrectCount(folder) => "In folder " + folder + " has the correct number of csv files: "
    case DeletingDuplicates => "----DELETING DUPLICATES----"
    case FilesMissing(keys) => "The following files are missing: \n \t\t" + Join(keys, " ")
    case FilesDuplicated(names) => "The following files are duplicates: \n\t" + Join(names, "\n\t")
    case FilesCorrupted(names) => "The following file names are corrupted, maybe wrong folder: \n\t" + Join(names, "\n\t")
  }

  predicate IsFileEntry(e: LogEntry)
  {
    e.FilesMissing? || e.FilesDuplicated? || e.FilesCorrupted?
  }

  // ------------------------------------------------- matching one folder

  /** `"{:06d}".format(i)` */
  function Key(i: int): (r: string)
    ensures ParseInt(r) == Some(i)
    ensures 0 <= i < 1000000 ==> |r| == 6 && AllDigits(r)
  {
    ParseFormatPadded(i, 6);
    if 0 <= i < 1000000 then FormatPaddedWidth(i, 6); FormatPadded(i, 6) else FormatPadded(i, 6)
  }

  /** `[f for f in files if pattern.match(f) is not None]` for the pattern of index `i`. */
  function IndexMatches(c: string, d: string, files: seq<string>, i: int): (r: seq<string>)
    ensures forall f :: f in r <==> f in files && MatchesPrefix(IndexPattern(c, d, Key(i)), f)
  {
    Filter(files, (f: string) => MatchesPrefix(IndexPattern(c, d, Key(i)), f))
  }

  /** `[f for f in files if pattern_general.match(f) is None]` */
  function Corrupted(c: string, d: string, files: seq<string>): (r: seq<string>)
    ensures forall f :: f in r <==> f in files && !MatchesPrefix(GeneralPattern(c, d), f)
  {
    Filter(files, (f: string) => !MatchesPrefix(GeneralPattern(c, d), f))
  }

  /** A file that matches the pattern of some non-negative index is never
      reported as corrupted. */
  lemma MatchedIsNotCorrupted(c: string, d: string, files: seq<string>, i: int, f: string)
    requires i >= 0 && f in IndexMatches(c, d, files, i)
    ensures f !in Corrupted(c, d, files)
  {
    IndexImpliesGeneral(c, d, i, f);
  }

  // ------------------------------------------------- resolving one index

  /** The files found for one index: the chosen one and the others. */
  datatype Resolution = Resolution(canonical: Option<string>, duplicates: seq<string>)

  /** Several matches are sorted; the last is canonical and the rest are duplicates. */
  function Resolve(m: seq<string>): (r: Resolution)
    ensures r.canonical.None? <==> m == []
    ensures |r.duplicates| == if m == [] then 0 else |m| - 1
  {
    if |m| > 1 then
      var sorted := Sort(m);
      Resolution(Some(sorted[|sorted| - 1]), sorted[..|sorted| - 1])
    else if |m| == 0 then Resolution(None, [])
    else Resolution(Some(m[0]), [])
  }

  /** The canonical file is the greatest match in string order, and the
      duplicates are exactly the other matches. */
  lemma ResolveChoice(m: seq<string>)
    requires m != []
    ensures Resolve(m).canonical.value in m
    ensures forall f :: f in m ==> LexLe(f, Resolve(m).canonical.value)
    ensures multiset(Resolve(m).duplicates) + multiset{Resolve(m).canonical.value} == multiset(m)
    ensures forall f :: f in m && f != Resolve(m).canonical.value ==> f in Resolve(m).duplicates
  {
    if |m| > 1 {
      var sorted := Sort(m);
      SortSorts(m);
      var last := sorted[|sorted| - 1];
      var rest := sorted[..|sorted| - 1];
      assert Resolve(m) == Resolution(Some(last), rest);
      assert sorted == rest + [last];
      assert multiset(rest) + multiset{last} == multiset(m);
      assert last in multiset(m);
      forall f | f in m ensures LexLe(f, last) && (f != last ==> f in rest) {
        assert f in multiset(sorted);
        SortedLastIsMax(sorted, f);
        if f != last {
          assert multiset(rest)[f] == multiset(m)[f] > 0;
        }
      }
    } else {
      LexLeReflexive(m[0]);
      assert m == [m[0]];
    }
  }

  /** The choice depends only on which files match, not on the listing order. */
  lemma ResolveOrderIndependent(m1: seq<string>, m2: seq<string>)
    requires multiset(m1) == multiset(m2)
    ensures Resolve(m1) == Resolve(m2)
  {
    assert |m1| == |multiset(m1)| == |multiset(m2)| == |m2|;
    if |m1| > 1 {
      SortSorts(m1);
      SortSorts(m2);
      SortedUnique(Sort(m1), Sort(m2));
    } else if |m1| == 1 {
      assert m1[0] in multiset(m2);
      assert m1 == [m1[0]] && m2 == [m2[0]];
    }
  }

  /** Among distinct names the canonical file is not also a duplicate. */
  lemma ResolveDistinct(m: seq<string>)
    requires Distinct(m) && m != []
    ensures Resolve(m).canonical.value !in Resolve(m).duplicates
  {
    ResolveChoice(m);
    var r := Resolve(m);
    var c := r.canonical.value;
    DistinctCount(m, c);
    assert multiset(m)[c] == multiset(r.duplicates)[c] + 1;
  }

  // ----------------------------------------------------- scanning indices

  /** The three accumulators of the loop over indices. */
  datatype ScanState = ScanState(missing: seq<string>, duplicates: seq<string>, correct: map<string, string>)

  /** One iteration of the loop: the index with key `key` has the matches `m`. */
  function Step(st: ScanState, key: string, m: seq<string>): (r: ScanState)
    ensures m == [] ==> r == st.(missing := st.missing + [key])
    ensures m != [] ==> r.missing == st.missing && key in r.correct && r.correct[key] in m
    ensures m != [] ==> |r.duplicates| == |st.duplicates| + |m| - 1 && r.duplicates[..|st.duplicates|] == st.duplicates
  {
    var r := Resolve(m);
    match r.canonical
    case None => st.(missing := st.missing + [key])
    case Some(f) => ResolveChoice(m); st.(duplicates := st.duplicates + r.duplicates, correct := st.correct[key := f])
  }

  /** The accumulators after indices `lo`, ..., `hi - 1`, where index `i` has
      the key `key(i)` and the matching files `matches(i)`. */
  function Scan(key: int -> string, matches: int -> seq<string>, lo: int, hi: int): (r: ScanState)
    ensures |r.missing| <= if hi <= lo then 0 else hi - lo
    decreases hi - lo
  {
    if hi <= lo then ScanState([], [], map[])
    else Step(Scan(key, matches, lo, hi - 1), key(hi - 1), matches(hi - 1))
  }

  /** The matches of every index of one folder. */
  function Matcher(c: string, d: string, files: seq<string>): int -> seq<string>
  {
    i => IndexMatches(c, d, files, i)
  }

  ghost predicate Injective(key: int -> string)
  {
    forall i, j :: key(i) == key(j) ==> i == j
  }

  /** Zero-padded keys of distinct indices differ. */
  lemma KeyInjective()
    ensures Injective(Key)
  {
    forall i, j | Key(i) == Key(j) ensures i == j {
      FormatPaddedInjective(i, j, 6);
    }
  }

  /** One more index extends the scan by one step. */
  lemma ScanNext(key: int -> string, matches: int -> seq<string>, lo: int, hi: int)
    requires lo <= hi
    ensures Scan(key, matches, lo, hi + 1) == Step(Scan(key, matches, lo, hi), key(hi), matches(hi))
  {
  }

  /** The three branches of one iteration. */
  lemma StepCases(st: ScanState, key: string, m: seq<string>)
    ensures |m| > 1 ==> Step(st, key, m) == ScanState(st.missing, st.duplicates + Sort(m)[..|m| - 1], st.correct[key := Sort(m)[|m| - 1]])
    ensures |m| == 0 ==> Step(st, key, m) == ScanState(st.missing + [key], st.duplicates, st.correct)
    ensures |m| == 1 ==> Step(st, key, m) == ScanState(st.missing, st.duplicates, st.correct[key := m[|m| - 1]])
  {
    if |m| == 1 {
      assert st.duplicates + Resolve(m).duplicates == st.duplicates;
    }
  }

  /** A step records the key of its own index and leaves every other key alone. */
  lemma StepKeys(st: ScanState, key: string, m: seq<string>, k: string)
    ensures var st' := Step(st, key, m);
      && (k != key ==> (k in st'.correct <==> k in st.correct) && (k in st'.missing <==> k in st.missing))
      && (k != key && k in st.correct ==> st'.correct[k] == st.correct[k])
      && (k == key && k !in st.correct ==> (k in st'.correct <==> m != []))
      && (k == key && k !in st.missing ==> (k in st'.missing <==> m == []))
      && (k == key && m != [] ==> k in st'.correct && st'.correct[k] == Resolve(m).canonical.value)
      && st'.duplicates == st.duplicates + Resolve(m).duplicates
  {
  }

  /** No key of an index outside the scanned range is recorded. */
  lemma {:induction false} ScanKeysInRange(key: int -> string, matches: int -> seq<string>, lo: int, hi: int, i: int)
    requires Injective(key)
    requires i < lo || hi <= i
    ensures key(i) !in Scan(key, matches, lo, hi).correct
    ensures key(i) !in Scan(key, matches, lo, hi).missing
    decreases hi - lo
  {
    if lo < hi {
      ScanKeysInRange(key, matches, lo, hi - 1, i);
      StepKeys(Scan(key, matches, lo, hi - 1), key(hi - 1), matches(hi - 1), key(i));
    }
  }

  /** Every index of the range is either missing or has a canonical file, never
      both: it is missing exactly when no file matches it, and its canonical
      file is the one `Resolve` chooses among the matches. */
  lemma {:induction false} ScanIndex(key: int -> string, matches: int -> seq<string>, lo: int, hi: int, i: int)
    requires Injective(key)
    requires lo <= i < hi
    ensures key(i) in Scan(key, matches, lo, hi).correct <==> matches(i) != []
    ensures key(i) in Scan(key, matches, lo, hi).missing <==> matches(i) == []
    ensures key(i) in Scan(key, matches, lo, hi).correct ==>
      Scan(key, matches, lo, hi).correct[key(i)] == Resolve(matches(i)).canonical.value
    decreases hi - lo
  {
    var prev := Scan(key, matches, lo, hi - 1);
    assert Scan(key, matches, lo, hi) == Step(prev, key(hi - 1), matches(hi - 1));
    if i == hi - 1 {
      ScanKeysInRange(key, matches, lo, hi - 1, i);
    } else {
      ScanIndex(key, matches, lo, hi - 1, i);
    }
    StepKeys(prev, key(hi - 1), matches(hi - 1), key(i));
  }

  /** Every recorded key belongs to an index of the range. */
  lemma {:induction false} ScanKeysFromRange(key: int -> string, matches: int -> seq<string>, lo: int, hi: int, k: string)
    requires k in Scan(key, matches, lo, hi).correct || k in Scan(key, matches, lo, hi).missing
    ensures exists i :: lo <= i < hi && k == key(i)
    decreases hi - lo
  {
    if lo < hi {
      StepKeys(Scan(key, matches, lo, hi - 1), key(hi - 1), matches(hi - 1), k);
      if k != key(hi - 1) {
        ScanKeysFromRange(key, matches, lo, hi - 1, k);
      }
    }
  }

  /** Each duplicate was set aside for some index of the range. */
  lemma {:induction false} ScanDuplicateOrigin(key: int -> string, matches: int -> seq<string>, lo: int, hi: int, x: string)
    requires x in Scan(key, matches, lo, hi).duplicates
    ensures exists i :: lo <= i < hi && x in Resolve(matches(i)).duplicates
    decreases hi - lo
  {
    if lo < hi {
      var prev := Scan(key, matches, lo, hi - 1);
      StepKeys(prev, key(hi - 1), matches(hi - 1), key(hi - 1));
      if x in prev.duplicates {
        ScanDuplicateOrigin(key, matches, lo, hi - 1, x);
      }
    }
  }

  /** A step keeps the duplicates found so far and adds those of its index. */
  lemma StepCollects(st: ScanState, key: string, m: seq<string>, x: string)
    requires x in st.duplicates || x in Resolve(m).duplicates
    ensures x in Step(st, key, m).duplicates
  {
    StepKeys(st, key, m, key);
  }

  /** Every duplicate set aside for an index of the range is reported. */
  lemma {:induction false} ScanCollects(key: int -> string, matches: int -> seq<string>, lo: int, hi: int, i: int, x: string)
    requires lo <= i < hi && x in Resolve(matches(i)).duplicates
    ensures x in Scan(key, matches, lo, hi).duplicates
    decreases hi - lo
  {
    if i < hi - 1 {
      ScanCollects(key, matches, lo, hi - 1, i, x);
    }
    StepCollects(Scan(key, matches, lo, hi - 1), key(hi - 1), matches(hi - 1), x);
  }

  /** The scan depends on which files match each index, not on their order. */
  lemma {:induction false} ScanOrderIndependent(key: int -> string, m1: int -> seq<string>, m2: int -> seq<string>, lo: int, hi: int)
    requires forall i :: lo <= i < hi ==> multiset(m1(i)) == multiset(m2(i))
    ensures Scan(key, m1, lo, hi) == Scan(key, m2, lo, hi)
    decreases hi - lo
  {
    if lo < hi {
      ScanOrderIndependent(key, m1, m2, lo, hi - 1);
      ResolveOrderIndependent(m1(hi - 1), m2(hi - 1));
    }
  }

  lemma FirstTwo(s: seq<string>)
    ensures |s| >= 2 ==> s[0] in s && s[1] in s && (Distinct(s) ==> s[0] != s[1])
  {
  }

  /** A distinct list whose elements all equal one value has at most one element. */
  lemma AtMostOne(s: seq<string>, v: string)
    requires Distinct(s) && forall y :: y in s ==> y == v
    ensures |s| <= 1
  {
    FirstTwo(s);
  }

  /** Re-scanning after the reported duplicates are gone finds no duplicates:
      of each index at most the canonical file is left. */
  lemma {:induction false} ScanConverges(key: int -> string, before: int -> seq<string>, after: int -> seq<string>, lo: int, hi: int)
    requires forall i :: lo <= i < hi ==> Distinct(after(i))
    requires forall i, y :: lo <= i < hi && y in after(i) ==> y in before(i) && y !in Resolve(before(i)).duplicates
    ensures Scan(key, after, lo, hi).duplicates == []
    decreases hi - lo
  {
    if lo < hi {
      ScanConverges(key, before, after, lo, hi - 1);
      var m := before(hi - 1);
      var m' := after(hi - 1);
      if m' != [] {
        assert m'[0] in m';
        ResolveChoice(m);
        AtMostOne(m', Resolve(m).canonical.value);
      }
      StepKeys(Scan(key, after, lo, hi - 1), key(hi - 1), m', key(hi - 1));
    }
  }

  // ------------------------------------------------------------ filter_files

  /** The log of one folder: one entry per non-empty list, in the order
      missing, duplicates, corrupted. */
  function FilterLog(missing: seq<string>, duplicates: seq<string>, corrupted: seq<string>): (log: seq<LogEntry>)
    ensures |log| <= 3
    ensures log == [] <==> missing == [] && duplicates == [] && corrupted == []
  {
    var log := if missing != [] then [FilesMissing(missing)] else [];
    var log := if duplicates != [] then log + [FilesDuplicated(duplicates)] else log;
    if corrupted != [] then log + [FilesCorrupted(corrupted)] else log
  }

  /** Each entry of the folder log reports one whole non-empty list, missing
      first and corrupted last. */
  lemma FilterLogEntries(missing: seq<string>, duplicates: seq<string>, corrupted: seq<string>)
    ensures var log := FilterLog(missing, duplicates, corrupted);
      && (forall k :: 0 <= k < |log| ==> IsFileEntry(log[k]))
      && (forall keys :: FilesMissing(keys) in log <==> missing != [] && keys == missing)
      && (forall names :: FilesDuplicated(names) in log <==> duplicates != [] && names == duplicates)
      && (forall names :: FilesCorrupted(names) in log <==> corrupted != [] && names == corrupted)
      && (missing != [] ==> log[0].FilesMissing?)
      && (corrupted != [] ==> log[|log| - 1].FilesCorrupted?)
  {
  }

  /** What `filter_files` returns: the log, the duplicates and the canonical
      file of every index that has one. */
  datatype Filtered = Filtered(log: seq<LogEntry>, duplicates: seq<string>, correct: map<string, string>)

  /** The result of `filter_files(c, d, files, nFiles, minIdx)`. */
  function FilterFilesSpec(c: string, d: string, files: seq<string>, nFiles: int, minIdx: int): (r: Filtered)
    ensures |r.log| <= 3
    ensures |r.log| == 0 ==> r.duplicates == []
  {
    var st := Scan(Key, Matcher(c, d, files), minIdx, nFiles);
    Filtered(FilterLog(st.missing, st.duplicates, Corrupted(c, d, files)), st.duplicates, st.correct)
  }

  /** The loop of `filter_files` over the indices `lo`, ..., `hi - 1`, where
      `keyOf(i)` is the zero-padded key of index `i` and `matches(i)` the files
      its pattern matches. */
  method ScanIndices(keyOf: int -> string, matches: int -> seq<string>, lo: int, hi: int)
    returns (missing: seq<string>, duplicates: seq<string>, correct: map<string, string>)
    ensures ScanState(missing, duplicates, correct) == Scan(keyOf, matches, lo, hi)
  {
    missing := [];
    duplicates := [];
    correct := map[];
    var i := lo;
    while i < hi
      invariant lo <= i && (i <= hi || i == lo)
      invariant ScanState(missing, duplicates, correct) == Scan(keyOf, matches, lo, i)
    {
      var key := keyOf(i);
      var iF := matches(i);
      StepCases(ScanState(missing, duplicates, correct), key, iF);
      ScanNext(keyOf, matches, lo, i);
      if |iF| > 1 {
        iF := Sort(iF);
        duplicates := duplicates + iF[..|iF| - 1];
        correct := correct[key := iF[|iF| - 1]];
      } else if |iF| == 0 {
        missing := missing + [key];
      } else {
        correct := correct[key := iF[|iF| - 1]];
      }
      i := i + 1;
    }
  }

  /** `filter_files`: the pass over the indices, then the corrupted names and the log. */
  method FilterFiles(c: string, d: string, files: seq<string>, nFiles: int, minIdx: int)
    returns (log: seq<LogEntry>, duplicates: seq<string>, correct: map<string, string>)
    ensures Filtered(log, duplicates, correct) == FilterFilesSpec(c, d, files, nFiles, minIdx)
  {
    var missing;
    missing, duplicates, correct := ScanIndices(Key, Matcher(c, d, files), minIdx, nFiles);
    var corrupted := Corrupted(c, d, files);
    log := [];
    if |missing| > 0 {
      log := log + [FilesMissing(missing)];
      assert log == [FilesMissing(missing)];
    }
    if |duplicates| > 0 {
      log := log + [FilesDuplicated(duplicates)];
    }
    if |corrupted| > 0 {
      log := log + [FilesCorrupted(corrupted)];
    }
  }

  // ------------------------------------------------- properties of filter_files

  /** Every expected index is reported missing exactly when no file matches it,
      and otherwise has as canonical file the greatest of its matches. */
  lemma FilterFilesPartition(c: string, d: string, files: seq<string>, nFiles: int, minIdx: int, i: int)
    requires minIdx <= i < nFiles
    ensures var r := FilterFilesSpec(c, d, files, nFiles, minIdx);
      && (Key(i) in r.correct <==> IndexMatches(c, d, files, i) != [])
      && (IndexMatches(c, d, files, i) == [] <==> exists keys :: FilesMissing(keys) in r.log && Key(i) in keys)
      && (Key(i) in r.correct ==>
            && r.correct[Key(i)] in IndexMatches(c, d, files, i)
            && forall f :: f in IndexMatches(c, d, files, i) ==> LexLe(f, r.correct[Key(i)]))
  {
    var m := Matcher(c, d, files);
    var st := Scan(Key, m, minIdx, nFiles);
    assert m(i) == IndexMatches(c, d, files, i);
    KeyInjective();
    ScanIndex(Key, m, minIdx, nFiles, i);
    FilterLogEntries(st.missing, st.duplicates, Corrupted(c, d, files));
    if m(i) != [] {
      ResolveChoice(m(i));
    }
  }

  /** `correct_f` has keys only for expected indices. */
  lemma FilterFilesKeys(c: string, d: string, files: seq<string>, nFiles: int, minIdx: int, k: string)
    requires k in FilterFilesSpec(c, d, files, nFiles, minIdx).correct
    ensures exists i :: minIdx <= i < nFiles && k == Key(i)
  {
    ScanKeysFromRange(Key, Matcher(c, d, files), minIdx, nFiles, k);
  }

  /** When every index's matches are distinct, the duplicates are exactly the
      matches of some index other than its canonical file. */
  lemma {:induction false} ScanDuplicates(key: int -> string, matches: int -> seq<string>, lo: int, hi: int, x: string)
    requires Injective(key)
    requires forall i :: lo <= i < hi ==> Distinct(matches(i))
    ensures var st := Scan(key, matches, lo, hi);
      x in st.duplicates <==>
        exists i :: lo <= i < hi && x in matches(i) && key(i) in st.correct && x != st.correct[key(i)]
  {
    var st := Scan(key, matches, lo, hi);
    if x in st.duplicates {
      ScanDuplicateOrigin(key, matches, lo, hi, x);
      var i :| lo <= i < hi && x in Resolve(matches(i)).duplicates;
      ResolveChoice(matches(i));
      assert x in multiset(matches(i));
      ResolveDistinct(matches(i));
      ScanIndex(key, matches, lo, hi, i);
    }
    if exists i :: lo <= i < hi && x in matches(i) && key(i) in st.correct && x != st.correct[key(i)] {
      var i :| lo <= i < hi && x in matches(i) && key(i) in st.correct && x != st.correct[key(i)];
      ScanIndex(key, matches, lo, hi, i);
      ResolveChoice(matches(i));
      ScanCollects(key, matches, lo, hi, i, x);
    }
  }

  /** Among distinct file names, the duplicates are exactly the files that
      match some expected index without being that index's canonical file. */
  lemma FilterFilesDuplicates(c: string, d: string, files: seq<string>, nFiles: int, minIdx: int, x: string)
    requires Distinct(files)
    ensures var r := FilterFilesSpec(c, d, files, nFiles, minIdx);
      x in r.duplicates <==>
        exists i :: minIdx <= i < nFiles && x in IndexMatches(c, d, files, i)
          && Key(i) in r.correct && x != r.correct[Key(i)]
  {
    var m := Matcher(c, d, files);
    KeyInjective();
    forall i | minIdx <= i < nFiles ensures Distinct(m(i)) {
      FilterDistinct(files, (f: string) => MatchesPrefix(IndexPattern(c, d, Key(i)), f));
    }
    ScanDuplicates(Key, m, minIdx, nFiles, x);
  }

  /** The log is empty exactly when every expected index has exactly one file
      and no file is corrupted. */
  lemma FilterFilesClean(c: string, d: string, files: seq<string>, nFiles: int, minIdx: int)
    ensures FilterFilesSpec(c, d, files, nFiles, minIdx).log == [] <==>
      (forall i :: minIdx <= i < nFiles ==> |IndexMatches(c, d, files, i)| == 1) && Corrupted(c, d, files) == []
  {
    var m := Matcher(c, d, files);
    var st := Scan(Key, m, minIdx, nFiles);
    KeyInjective();
    if st.missing != [] {
      assert st.missing[0] in st.missing;
      ScanKeysFromRange(Key, m, minIdx, nFiles, st.missing[0]);
      var i :| minIdx <= i < nFiles && st.missing[0] == Key(i);
      ScanIndex(Key, m, minIdx, nFiles, i);
      assert |IndexMatches(c, d, files, i)| != 1;
    }
    if st.duplicates != [] {
      assert st.duplicates[0] in st.duplicates;
      ScanDuplicateOrigin(Key, m, minIdx, nFiles, st.duplicates[0]);
      var i :| minIdx <= i < nFiles && st.duplicates[0] in Resolve(m(i)).duplicates;
      assert |IndexMatches(c, d, files, i)| != 1;
    }
    forall i | minIdx <= i < nFiles && |IndexMatches(c, d, files, i)| != 1
      ensures st.missing != [] || st.duplicates != []
    {
      assert m(i) == IndexMatches(c, d, files, i);
      if m(i) == [] {
        ScanIndex(Key, m, minIdx, nFiles, i);
      } else {
        var x := Resolve(m(i)).duplicates[0];
        ScanCollects(Key, m, minIdx, nFiles, i, x);
      }
    }
  }

  /** The duplicates and the canonical files do not depend on the order of the
      listing. */
  lemma FilterFilesOrderIndependent(c: string, d: string, files1: seq<string>, files2: seq<string>, nFiles: int, minIdx: int)
    requires multiset(files1) == multiset(files2)
    ensures FilterFilesSpec(c, d, files1, nFiles, minIdx).duplicates == FilterFilesSpec(c, d, files2, nFiles, minIdx).duplicates
    ensures FilterFilesSpec(c, d, files1, nFiles, minIdx).correct == FilterFilesSpec(c, d, files2, nFiles, minIdx).correct
  {
    var m1 := Matcher(c, d, files1);
    var m2 := Matcher(c, d, files2);
    forall i | minIdx <= i < nFiles ensures multiset(m1(i)) == multiset(m2(i)) {
      FilterPermutation(files1, files2, (f: string) => MatchesPrefix(IndexPattern(c, d, Key(i)), f));
    }
    ScanOrderIndependent(Key, m1, m2, minIdx, nFiles);
  }

  /** `files` without the names in `gone`. */
  function Without(files: seq<string>, gone: seq<string>): (r: seq<string>)
    ensures forall f :: f in r <==> f in files && f !in gone
  {
    Filter(files, (f: string) => f !in gone)
  }

  /** After the reported duplicates are removed, checking the folder again
      reports no duplicates. */
  lemma FilterFilesConverges(c: string, d: string, files: seq<string>, nFiles: int, minIdx: int)
    requires Distinct(files)
    ensures var gone := FilterFilesSpec(c, d, files, nFiles, minIdx).duplicates;
      FilterFilesSpec(c, d, Without(files, gone), nFiles, minIdx).duplicates == []
  {
    var gone := FilterFilesSpec(c, d, files, nFiles, minIdx).duplicates;
    var before := Matcher(c, d, files);
    var left := Without(files, gone);
    var after := Matcher(c, d, left);
    FilterDistinct(files, (f: string) => f !in gone);
    forall i | minIdx <= i < nFiles ensures Distinct(after(i)) {
      FilterDistinct(left, (f: string) => MatchesPrefix(IndexPattern(c, d, Key(i)), f));
    }
    forall i, y | minIdx <= i < nFiles && y in after(i)
      ensures y in before(i) && y !in Resolve(before(i)).duplicates
    {
      assert y in left && MatchesPrefix(IndexPattern(c, d, Key(i)), y);
      if y in Resolve(before(i)).duplicates {
        ScanCollects(Key, before, minIdx, nFiles, i, y);
      }
    }
    ScanConverges(Key, before, after, minIdx, nFiles);
  }

  // ------------------------------------------------------ one day folder

  /** A day folder: its name and the names it lists. */
  datatype DayDir = DayDir(name: string, entries: seq<string>)

  /** A camera folder: its name and its day folders in listing order. */
  datatype CameraDir = CameraDir(name: string, days: seq<DayDir>)

  /** `len(name) == 8 and name.isnumeric()` */
  predicate IsCameraName(n: string)
  {
    |n| == 8 && IsNumeric(n)
  }

  /** `name[:8].isnumeric()` */
  predicate IsDayName(n: string)
  {
    IsNumeric(Slice(n, 0, 8))
  }

  /** Matched by the glob `*.csv`: ends in `.csv` and is not hidden. */
  predicate IsCsvName(n: string)
  {
    EndsWith(n, ".csv") && !(n != [] && n[0] == '.')
  }

  /** The base names of the csv files of a day folder, in listing order. */
  function CsvFiles(entries: seq<string>): (r: seq<string>)
    ensures forall f :: f in r <==> f in entries && IsCsvName(f)
  {
    Filter(entries, IsCsvName)
  }

  /** `"{}/{}/{}".format(path, c, d)` */
  function FolderPath(path: string, c: string, d: string): string
  {
    path + "/" + c + "/" + d
  }

  /** The number of csv files a day folder must hold: 4 on the first
      recording day (`_1550` in the name), `nFiles` otherwise. */
  function ExpectedCount(d: string, nFiles: int): int
  {
    if Contains(d, "_1550") then 4 else nFiles
  }

  /** The messages about one day folder and the files to delete from it. */
  datatype DayReport = DayReport(log: seq<LogEntry>, doomed: seq<string>)

  /** What `filter_files` guarantees about the shape of its result: duplicates
      are always reported, and its log holds only file entries. */
  predicate WellShaped(r: Filtered)
  {
    && (r.duplicates != [] ==> r.log != [])
    && forall e :: e in r.log ==> IsFileEntry(e)
  }

  lemma FilterFilesShape(c: string, d: string, files: seq<string>, nFiles: int, minIdx: int)
    ensures WellShaped(FilterFilesSpec(c, d, files, nFiles, minIdx))
  {
    var st := Scan(Key, Matcher(c, d, files), minIdx, nFiles);
    FilterLogEntries(st.missing, st.duplicates, Corrupted(c, d, files));
  }

  /** Lines 34-66 once `filter_files` has returned `r`: the count check, the
      folder line, the conditional deletion and the messages of `r`. */
  function DayChecks(folder: string, expected: int, count: nat, r: Filtered, delete: bool): DayReport
  {
    var mismatch := count != expected;
    var countLog := if mismatch then [CountMismatch(folder, expected, count)] else [];
    if r.log == [] then DayReport(countLog, [])
    else
      var correctLog := if mismatch then [] else [CorrectCount(folder)];
      var deleting := delete && r.duplicates != [];
      DayReport(countLog + correctLog + (if deleting then [DeletingDuplicates] else []) + r.log,
                if deleting then r.duplicates else [])
  }

  /** The entries of a log assembled from four parts. */
  lemma InFour(a: seq<LogEntry>, b: seq<LogEntry>, c: seq<LogEntry>, d: seq<LogEntry>)
    ensures forall e :: e in a + b + c + d <==> e in a || e in b || e in c || e in d
  {
  }

  /** A count mismatch is reported exactly when the count is wrong; the folder
      line appears exactly when there were complaints and the count was right;
      only the duplicates are deleted, and only when `delete` is set. */
  lemma DayChecksRules(folder: string, expected: int, count: nat, r: Filtered, delete: bool)
    requires WellShaped(r)
    ensures var rep := DayChecks(folder, expected, count, r, delete);
      && ((exists e :: e in rep.log && e.CountMismatch?) <==> count != expected)
      && (forall e :: e in rep.log && e.CountMismatch? ==> e == CountMismatch(folder, expected, count))
      && (CorrectCount(folder) in rep.log <==> count == expected && r.log != [])
      && rep.doomed == (if delete then r.duplicates else [])
      && (DeletingDuplicates in rep.log <==> rep.doomed != [])
      && (forall e :: e in rep.log ==> !e.DuplicateDay? && !e.Header? && !e.NoFishNotEmpty?)
  {
    var rep := DayChecks(folder, expected, count, r, delete);
    var mismatch := count != expected;
    var countLog := if mismatch then [CountMismatch(folder, expected, count)] else [];
    if mismatch {
      assert countLog[0] in rep.log;
    }
    if r.log != [] {
      var correctLog := if mismatch then [] else [CorrectCount(folder)];
      var deleting := delete && r.duplicates != [];
      var delLog := if deleting then [DeletingDuplicates] else [];
      assert rep.log == countLog + correctLog + delLog + r.log;
      InFour(countLog, correctLog, delLog, r.log);
    }
  }

  /** Lines 25-66 for one day folder holding the csv files `files`: an empty
      `_no_fish` folder is skipped, a non-empty one is reported and checked. */
  function CheckDaySpec(path: string, c: string, d: string, files: seq<string>, nFiles: int, delete: bool): DayReport
  {
    var expected := ExpectedCount(d, nFiles);
    var checks := DayChecks(FolderPath(path, c, d), expected, |files|, FilterFilesSpec(c, d, files, expected, 0), delete);
    if Contains(d, "_no_fish") then
      if files == [] then DayReport([], [])
      else DayReport([NoFishNotEmpty] + checks.log, checks.doomed)
    else checks
  }

  /** The per-folder rules of `check_foldersystem`. */
  lemma CheckDayRules(path: string, c: string, d: string, files: seq<string>, nFiles: int, delete: bool)
    ensures var rep := CheckDaySpec(path, c, d, files, nFiles, delete);
      var skipped := Contains(d, "_no_fish") && files == [];
      var expected := ExpectedCount(d, nFiles);
      var r := FilterFilesSpec(c, d, files, expected, 0);
      && (skipped ==> rep == DayReport([], []))
      && (!skipped ==> (rep.log != [] && rep.log[0] == NoFishNotEmpty <==> Contains(d, "_no_fish")))
      && ((exists e :: e in rep.log && e.CountMismatch?) <==> !skipped && |files| != expected)
      && (forall e :: e in rep.log && e.CountMismatch? ==> e == CountMismatch(FolderPath(path, c, d), expected, |files|))
      && (CorrectCount(FolderPath(path, c, d)) in rep.log <==> !skipped && |files| == expected && r.log != [])
      && rep.doomed == (if delete && !skipped then r.duplicates else [])
      && (DeletingDuplicates in rep.log <==> rep.doomed != [])
      && (forall e :: e in rep.log ==> !e.DuplicateDay? && !e.Header?)
  {
    var expected := ExpectedCount(d, nFiles);
    var r := FilterFilesSpec(c, d, files, expected, 0);
    FilterFilesShape(c, d, files, expected, 0);
    DayChecksRules(FolderPath(path, c, d), expected, |files|, r, delete);
  }

  // ------------------------------------------------------ deleting files

  /** `os.remove` of each name in turn. Removing a name that is no longer
      listed raises `FileNotFoundError`: the removal stops there (`ok` is
      false) and the names before it stay removed. */
  function RemoveAll(entries: seq<string>, names: seq<string>): (r: (seq<string>, bool))
    ensures |r.0| <= |entries|
    ensures forall f :: f in r.0 ==> f in entries
    ensures r.1 ==> forall f :: f in names ==> f !in r.0
    decreases |names|
  {
    if names == [] then (entries, true)
    else if names[0] !in entries then (entries, false)
    else RemoveAll(Without(entries, [names[0]]), names[1..])
  }

  /** Removal never adds a name and removes only the given names. */
  lemma {:induction false} RemoveAllKeeps(entries: seq<string>, names: seq<string>, f: string)
    ensures f in RemoveAll(entries, names).0 ==> f in entries
    ensures f in entries && f !in names ==> f in RemoveAll(entries, names).0
    decreases |names|
  {
    if names != [] && names[0] in entries {
      RemoveAllKeeps(Without(entries, [names[0]]), names[1..], f);
    }
  }

  /** A name that is already gone makes the removal fail. */
  lemma {:induction false} RemoveAllFails(entries: seq<string>, names: seq<string>, x: string)
    requires x in names && x !in entries
    ensures !RemoveAll(entries, names).1
    decreases |names|
  {
    if names[0] in entries {
      RemoveAllFails(Without(entries, [names[0]]), names[1..], x);
    }
  }

  lemma DistinctCons(s: seq<string>)
    requires s != []
    ensures Distinct(s) <==> s[0] !in s[1..] && Distinct(s[1..])
  {
    if Distinct(s) {
      forall i, j | 0 <= i < j < |s[1..]| ensures s[1..][i] != s[1..][j] {
        assert s[1..][i] == s[i + 1] && s[1..][j] == s[j + 1];
      }
    }
  }

  /** Removing listed names succeeds exactly when no name is removed twice, and
      then exactly those names are gone. */
  lemma {:induction false} RemoveAllComplete(entries: seq<string>, names: seq<string>)
    requires forall x :: x in names ==> x in entries
    ensures RemoveAll(entries, names).1 <==> Distinct(names)
    ensures RemoveAll(entries, names).1 ==>
      forall f :: f in RemoveAll(entries, names).0 <==> f in entries && f !in names
    decreases |names|
  {
    if names != [] {
      var a := names[0];
      var rest := names[1..];
      var left := Without(entries, [a]);
      DistinctCons(names);
      if a in rest {
        RemoveAllFails(left, rest, a);
      } else {
        forall x | x in rest ensures x in left {
          assert x in names;
        }
        RemoveAllComplete(left, rest);
        forall f ensures f in names <==> f == a || f in rest {
          assert names == [a] + rest;
        }
      }
    }
  }

  /** The listing of day folder `di` of camera `ci` replaced by `entries`. */
  function SetEntries(cams: seq<CameraDir>, ci: int, di: int, entries: seq<string>): (r: seq<CameraDir>)
    ensures |r| == |cams|
    ensures forall k :: 0 <= k < |cams| ==> r[k].name == cams[k].name && |r[k].days| == |cams[k].days|
    ensures forall k :: 0 <= k < |cams| && k != ci ==> r[k] == cams[k]
    ensures forall j :: 0 <= ci < |cams| && 0 <= j < |cams[ci].days| && j != di ==> r[ci].days[j] == cams[ci].days[j]
  {
    if 0 <= ci < |cams| && 0 <= di < |cams[ci].days| then
      cams[ci := CameraDir(cams[ci].name, cams[ci].days[di := DayDir(cams[ci].days[di].name, entries)])]
    else cams
  }

  lemma SetEntriesSame(cams: seq<CameraDir>, ci: int, di: int)
    requires 0 <= ci < |cams| && 0 <= di < |cams[ci].days|
    ensures SetEntries(cams, ci, di, cams[ci].days[di].entries) == cams
  {
    assert cams[ci].days[di := DayDir(cams[ci].days[di].name, cams[ci].days[di].entries)] == cams[ci].days;
  }

  lemma SetEntriesTwice(cams: seq<CameraDir>, ci: int, di: int, a: seq<string>, b: seq<string>)
    ensures SetEntries(SetEntries(cams, ci, di, a), ci, di, b) == SetEntries(cams, ci, di, b)
  {
    if 0 <= ci < |cams| && 0 <= di < |cams[ci].days| {
      var mid := SetEntries(cams, ci, di, a);
      assert mid[ci].days[di := DayDir(mid[ci].days[di].name, b)]
        == cams[ci].days[di := DayDir(cams[ci].days[di].name, b)];
    }
  }

  /** The recording tree below `path`: its entries in listing order. Deleting
      a file removes its name from the listing of its day folder. */
  class DataTree {
    var cameras: seq<CameraDir>

    constructor(cameras: seq<CameraDir>)
      ensures this.cameras == cameras
    {
      this.cameras := cameras;
    }
  }

  /** Lines 63-64: `os.remove` of every name in `names`, in order. */
  method RemoveFiles(tree: DataTree, ci: int, di: int, names: seq<string>) returns (ok: bool)
    requires 0 <= ci < |tree.cameras| && 0 <= di < |tree.cameras[ci].days|
    modifies tree
    ensures var rm := RemoveAll(old(tree.cameras[ci].days[di].entries), names);
      ok == rm.1 && tree.cameras == SetEntries(old(tree.cameras), ci, di, rm.0)
  {
    ghost var orig := tree.cameras;
    ghost var start := tree.cameras[ci].days[di].entries;
    SetEntriesSame(orig, ci, di);
    var k := 0;
    while k < |names|
      invariant 0 <= k <= |names|
      invariant |tree.cameras| == |orig| && |tree.cameras[ci].days| == |orig[ci].days|
      invariant tree.cameras == SetEntries(orig, ci, di, tree.cameras[ci].days[di].entries)
      invariant RemoveAll(tree.cameras[ci].days[di].entries, names[k..]) == RemoveAll(start, names)
    {
      var entries := tree.cameras[ci].days[di].entries;
      assert names[k..] == [names[k]] + names[k + 1..];
      if names[k] !in entries {
        return false;
      }
      SetEntriesTwice(orig, ci, di, entries, Without(entries, [names[k]]));
      tree.cameras := SetEntries(tree.cameras, ci, di, Without(entries, [names[k]]));
      k := k + 1;
    }
    return true;
  }


  /** Lines 53-66: once `filter_files` has reported `r`, the folder line, the
      deletion of the duplicates when `delete` is set, and the report itself. */
  method Complain(tree: DataTree, ci: int, di: int, folder: string, expected: int,
                  count: nat, r: Filtered, delete: bool)
    returns (msgs: seq<LogEntry>, ok: bool)
    requires 0 <= ci < |tree.cameras| && 0 <= di < |tree.cameras[ci].days|
    modifies tree
    ensures var rep := DayChecks(folder, expected, count, r, delete);
      var rm := RemoveAll(old(tree.cameras[ci].days[di].entries), rep.doomed);
      && rep.log == (if count != expected then [CountMismatch(folder, expected, count)] else []) + msgs
      && ok == rm.1
      && tree.cameras == SetEntries(old(tree.cameras), ci, di, rm.0)
  {
    SetEntriesSame(tree.cameras, ci, di);
    msgs := [];
    ok := true;
    if |r.log| > 0 {
      if count == expected {
        msgs := msgs + [CorrectCount(folder)];
      }
      if delete && |r.duplicates| > 0 {
        msgs := msgs + [DeletingDuplicates];
        ok := RemoveFiles(tree, ci, di, r.duplicates);
      }
      msgs := msgs + r.log;
    }
  }

  /** Lines 33-66: the count check against the expected number, `filter_files`
      and the complaints about the folder. */
  method CheckCount(tree: DataTree, path: string, ci: int, di: int, c: string, d: string,
                    files: seq<string>, nFiles: int, delete: bool)
    returns (msgs: seq<LogEntry>, ok: bool)
    requires 0 <= ci < |tree.cameras| && 0 <= di < |tree.cameras[ci].days|
    modifies tree
    ensures var expected := ExpectedCount(d, nFiles);
      var checks := DayChecks(FolderPath(path, c, d), expected, |files|, FilterFilesSpec(c, d, files, expected, 0), delete);
      var rm := RemoveAll(old(tree.cameras[ci].days[di].entries), checks.doomed);
      && msgs == checks.log
      && ok == rm.1
      && tree.cameras == SetEntries(old(tree.cameras), ci, di, rm.0)
  {
    var folder := FolderPath(path, c, d);
    var expected := if Contains(d, "_1550") then 4 else nFiles;
    msgs := if |files| != expected then [CountMismatch(folder, expected, |files|)] else [];
    var log, duplicates, correct := FilterFiles(c, d, files, expected, 0);
    var more;
    more, ok := Complain(tree, ci, di, folder, expected, |files|, Filtered(log, duplicates, correct), delete);
    msgs := msgs + more;
  }

  /** Lines 23-66 for day folder `di` of camera `ci`: the messages it adds to
      the log, whether its deletions went through, and the tree after them. */
  method CheckDay(tree: DataTree, path: string, ci: int, di: int, nFiles: int, delete: bool)
    returns (msgs: seq<LogEntry>, ok: bool)
    requires 0 <= ci < |tree.cameras| && 0 <= di < |tree.cameras[ci].days|
    modifies tree
    ensures var d := old(tree.cameras[ci].days[di]);
      var rep := CheckDaySpec(path, old(tree.cameras[ci].name), d.name, CsvFiles(d.entries), nFiles, delete);
      var rm := RemoveAll(d.entries, rep.doomed);
      && msgs == rep.log
      && ok == rm.1
      && tree.cameras == SetEntries(old(tree.cameras), ci, di, rm.0)
  {
    var c := tree.cameras[ci].name;
    var d := tree.cameras[ci].days[di];
    var files := CsvFiles(d.entries);
    var head := [];
    if Contains(d.name, "_no_fish") {
      if |files| > 0 {
        head := [NoFishNotEmpty];
      } else {
        SetEntriesSame(tree.cameras, ci, di);
        return [], true;
      }
    }
    var rest;
    rest, ok := CheckCount(tree, path, ci, di, c, d.name, files, nFiles, delete);
    msgs := head + rest;
  }


  // ------------------------------------------------------ walking the tree

  /** The state of `check_foldersystem` part-way through: the log so far, the
      tree after the deletions so far, and false once an `os.remove` raised. */
  datatype Walk = Walk(log: seq<LogEntry>, cameras: seq<CameraDir>, ok: bool)

  /** The day prefixes (first eight characters) of the day folders among the
      first `j` entries of a camera folder. */
  function Seen(days: seq<DayDir>, j: int): set<string>
    requires 0 <= j <= |days|
  {
    set k | 0 <= k < j && IsDayName(days[k].name) :: Slice(days[k].name, 0, 8)
  }

  lemma SeenNext(days: seq<DayDir>, j: int)
    requires 0 <= j < |days|
    ensures Seen(days, j + 1)
      == Seen(days, j) + (if IsDayName(days[j].name) then {Slice(days[j].name, 0, 8)} else {})
  {
  }

  /** What visiting one day folder produces: its log lines, its listing after
      the deletions, and false when an `os.remove` raised. */
  datatype Outcome = Outcome(log: seq<LogEntry>, entries: seq<string>, ok: bool)

  /** Lines 17-66 for day folder `d` of camera `c`, after the day prefixes in
      `seen`. */
  function DayOutcome(path: string, c: string, d: DayDir, seen: set<string>, nFiles: int, delete: bool): (r: Outcome)
    ensures forall f :: f in r.entries ==> f in d.entries
  {
    var dup := if Slice(d.name, 0, 8) in seen then [DuplicateDay(d.name, path, c)] else [];
    var rep := CheckDaySpec(path, c, d.name, CsvFiles(d.entries), nFiles, delete);
    var rm := RemoveAll(d.entries, rep.doomed);
    Outcome(dup + rep.log, rm.0, rm.1)
  }

  /** A visit to the day folders of one camera folder. */
  type Visit = (DayDir, set<string>) -> Outcome

  /** Visiting the day folders of camera `c`. */
  function Visitor(path: string, c: string, nFiles: int, delete: bool): Visit
  {
    (d: DayDir, seen: set<string>) => DayOutcome(path, c, d, seen, nFiles, delete)
  }

  /** Visiting the day folders of each camera. */
  function Visitors(path: string, nFiles: int, delete: bool): string -> Visit
  {
    c => Visitor(path, c, nFiles, delete)
  }

  /** Lines 12-66 over the first `j` entries of camera folder `cam`, the
      `ci`-th entry of the tree, visiting each day folder with `visit`. */
  function DaysWalk(w: Walk, ci: int, cam: CameraDir, j: int, visit: Visit): (r: Walk)
    requires 0 <= j <= |cam.days|
    ensures w.log <= r.log && |r.cameras| == |w.cameras|
    ensures !w.ok ==> r == w
    decreases j
  {
    if j == 0 then w
    else
      var v := DaysWalk(w, ci, cam, j - 1, visit);
      if !v.ok || !IsDayName(cam.days[j - 1].name) then v
      else
        var o := visit(cam.days[j - 1], Seen(cam.days, j - 1));
        Walk(v.log + o.log, SetEntries(v.cameras, ci, j - 1, o.entries), o.ok)
  }

  /** Lines 10-66 over the first `i` entries of the tree. */
  function TreeWalk(path: string, cams: seq<CameraDir>, i: int, visitors: string -> Visit): (r: Walk)
    requires 0 <= i <= |cams|
    ensures |r.log| >= 1 && r.log[0] == Header(path) && |r.cameras| == |cams|
  {
    if i == 0 then Walk([Header(path)], cams, true)
    else
      var w := TreeWalk(path, cams, i - 1, visitors);
      if !w.ok || !IsCameraName(cams[i - 1].name) then w
      else DaysWalk(w, i - 1, cams[i - 1], |cams[i - 1].days|, visitors(cams[i - 1].name))
  }

  /** Walking the days of camera `ci` touches only the listings of its first
      `j` day folders. */
  lemma {:induction false} DaysWalkFrame(w: Walk, ci: int, cam: CameraDir, j: int, visit: Visit)
    requires 0 <= j <= |cam.days|
    ensures var r := DaysWalk(w, ci, cam, j, visit);
      && |r.cameras| == |w.cameras|
      && (forall k :: 0 <= k < |w.cameras| && k != ci ==> r.cameras[k] == w.cameras[k])
      && (forall k :: 0 <= k < |w.cameras| ==> r.cameras[k].name == w.cameras[k].name && |r.cameras[k].days| == |w.cameras[k].days|)
      && (0 <= ci < |w.cameras| ==> forall k :: j <= k < |w.cameras[ci].days| ==> r.cameras[ci].days[k] == w.cameras[ci].days[k])
    decreases j
  {
    if j > 0 {
      DaysWalkFrame(w, ci, cam, j - 1, visit);
    }
  }

  /** The next day folder of camera `ci` is still as listed when the walk
      reaches it. */
  lemma DaysWalkNext(w: Walk, ci: int, cam: CameraDir, j: int, visit: Visit)
    requires 0 <= ci < |w.cameras| && w.cameras[ci] == cam && 0 <= j < |cam.days|
    ensures var r := DaysWalk(w, ci, cam, j, visit);
      && |r.cameras| == |w.cameras|
      && r.cameras[ci].name == cam.name
      && |r.cameras[ci].days| == |cam.days|
      && r.cameras[ci].days[j] == cam.days[j]
  {
    DaysWalkFrame(w, ci, cam, j, visit);
  }

  /** After the first `i` cameras the later ones are untouched. */
  lemma {:induction false} TreeWalkFrame(path: string, cams: seq<CameraDir>, i: int, visitors: string -> Visit)
    requires 0 <= i <= |cams|
    ensures var r := TreeWalk(path, cams, i, visitors);
      |r.cameras| == |cams| && forall k :: i <= k < |cams| ==> r.cameras[k] == cams[k]
  {
    if i > 0 {
      TreeWalkFrame(path, cams, i - 1, visitors);
      DaysWalkFrame(TreeWalk(path, cams, i - 1, visitors), i - 1, cams[i - 1], |cams[i - 1].days|,
                    visitors(cams[i - 1].name));
    }
  }

  /** Once an `os.remove` raised, nothing further happens. */
  lemma {:induction false} DaysWalkStopped(w: Walk, ci: int, cam: CameraDir, j: int, k: int, visit: Visit)
    requires 0 <= j <= k <= |cam.days|
    requires !DaysWalk(w, ci, cam, j, visit).ok
    ensures DaysWalk(w, ci, cam, k, visit) == DaysWalk(w, ci, cam, j, visit)
    decreases k
  {
    if k > j {
      DaysWalkStopped(w, ci, cam, j, k - 1, visit);
    }
  }

  lemma {:induction false} TreeWalkStopped(path: string, cams: seq<CameraDir>, i: int, k: int, visitors: string -> Visit)
    requires 0 <= i <= k <= |cams|
    requires !TreeWalk(path, cams, i, visitors).ok
    ensures TreeWalk(path, cams, k, visitors) == TreeWalk(path, cams, i, visitors)
    decreases k
  {
    if k > i {
      TreeWalkStopped(path, cams, i, k - 1, visitors);
    }
  }

  /** `visit` is the visit of `check_foldersystem` to the day folders of camera `c`. */
  ghost predicate Visits(visit: Visit, path: string, c: string, nFiles: int, delete: bool)
  {
    forall d, seen {:trigger DayOutcome(path, c, d, seen, nFiles, delete)} ::
      visit(d, seen) == DayOutcome(path, c, d, seen, nFiles, delete)
  }

  lemma VisitorVisits(path: string, c: string, nFiles: int, delete: bool)
    ensures Visits(Visitor(path, c, nFiles, delete), path, c, nFiles, delete)
  {
  }

  /** Lines 17-66 for day folder `di` of camera `ci`, after the day prefixes
      in `seen`, appending to `log0`. */
  method VisitDay(tree: DataTree, path: string, ci: int, c: string, di: int, seen: set<string>,
                  log0: seq<LogEntry>, nFiles: int, delete: bool, ghost visit: Visit)
    returns (log: seq<LogEntry>, ok: bool)
    requires 0 <= ci < |tree.cameras| && 0 <= di < |tree.cameras[ci].days| && tree.cameras[ci].name == c
    requires Visits(visit, path, c, nFiles, delete)
    modifies tree
    ensures var o := visit(old(tree.cameras[ci].days[di]), seen);
      && log == log0 + o.log
      && ok == o.ok
      && tree.cameras == SetEntries(old(tree.cameras), ci, di, o.entries)
  {
    ghost var o := DayOutcome(path, c, tree.cameras[ci].days[di], seen, nFiles, delete);
    var name := tree.cameras[ci].days[di].name;
    var dup := if Slice(name, 0, 8) in seen then [DuplicateDay(name, path, c)] else [];
    var msgs;
    msgs, ok := CheckDay(tree, path, ci, di, nFiles, delete);
    log := log0 + (dup + msgs);
  }

  /** Lines 12-66 for camera folder `ci`, appending to `log0`. */
  method CheckCamera(tree: DataTree, path: string, ci: int, c: string, log0: seq<LogEntry>, nFiles: int, delete: bool,
                     ghost visit: Visit)
    returns (log: seq<LogEntry>, ok: bool)
    requires 0 <= ci < |tree.cameras| && tree.cameras[ci].name == c
    requires Visits(visit, path, c, nFiles, delete)
    modifies tree
    ensures var cam := old(tree.cameras[ci]);
      Walk(log, tree.cameras, ok) == DaysWalk(Walk(log0, old(tree.cameras), true), ci, cam, |cam.days|, visit)
  {
    var cam := tree.cameras[ci];
    ghost var w := Walk(log0, tree.cameras, true);
    log := log0;
    ok := true;
    var seen: set<string> := {};
    var di := 0;
    while di < |cam.days| && ok
      invariant 0 <= di <= |cam.days|
      invariant seen == Seen(cam.days, di)
      invariant Walk(log, tree.cameras, ok) == DaysWalk(w, ci, cam, di, visit)
    {
      DaysWalkNext(w, ci, cam, di, visit);
      SeenNext(cam.days, di);
      var name := cam.days[di].name;
      if IsDayName(name) {
        log, ok := VisitDay(tree, path, ci, c, di, seen, log, nFiles, delete, visit);
        seen := seen + {Slice(name, 0, 8)};
      }
      di := di + 1;
    }
    if !ok {
      DaysWalkStopped(w, ci, cam, di, |cam.days|, visit);
    }
  }

  /** Lines 11-66 for the `ci`-th entry of the listing `cameras`: a camera
      folder is walked, any other entry is skipped. */
  method VisitCamera(tree: DataTree, path: string, cameras: seq<CameraDir>, ci: int, log0: seq<LogEntry>,
                     nFiles: int, delete: bool)
    returns (log: seq<LogEntry>, ok: bool)
    requires 0 <= ci < |cameras|
    requires Walk(log0, tree.cameras, true) == TreeWalk(path, cameras, ci, Visitors(path, nFiles, delete))
    modifies tree
    ensures Walk(log, tree.cameras, ok) == TreeWalk(path, cameras, ci + 1, Visitors(path, nFiles, delete))
  {
    TreeWalkFrame(path, cameras, ci, Visitors(path, nFiles, delete));
    log, ok := log0, true;
    if IsCameraName(cameras[ci].name) {
      var c := cameras[ci].name;
      VisitorVisits(path, c, nFiles, delete);
      log, ok := CheckCamera(tree, path, ci, c, log0, nFiles, delete, Visitor(path, c, nFiles, delete));
    }
  }

  /** `check_foldersystem(path, n_files, delete)` on the tree: the log it
      returns and the tree it leaves; `ok` is false when an `os.remove`
      raised, in which case no log is returned and the tree keeps the
      deletions made before. */
  method CheckFolderSystem(tree: DataTree, path: string, nFiles: int, delete: bool)
    returns (log: seq<LogEntry>, ok: bool)
    modifies tree
    ensures Walk(log, tree.cameras, ok) == TreeWalk(path, old(tree.cameras), |old(tree.cameras)|, Visitors(path, nFiles, delete))
  {
    ghost var visitors := Visitors(path, nFiles, delete);
    var cameras := tree.cameras;
    log := [Header(path)];
    ok := true;
    var ci := 0;
    while ci < |cameras| && ok
      invariant 0 <= ci <= |cameras|
      invariant Walk(log, tree.cameras, ok) == TreeWalk(path, cameras, ci, visitors)
    {
      log, ok := VisitCamera(tree, path, cameras, ci, log, nFiles, delete);
      ci := ci + 1;
    }
    if !ok {
      TreeWalkStopped(path, cameras, ci, |cameras|, visitors);
    }
  }

  // ------------------------------------------------------ what the walk promises

  /** Day folder `k` of a camera repeats the day of an earlier day folder. */
  ghost predicate RepeatsDay(days: seq<DayDir>, k: int)
    requires 0 <= k < |days|
  {
    IsDayName(days[k].name) && Slice(days[k].name, 0, 8) in Seen(days, k)
  }

  /** The log lines of visiting day folder `d` of camera `c` after the days in
      `seen`: never the header, and the duplicate-day line exactly when the day
      of `d` was seen before. */
  ghost predicate LogsOf(o: Outcome, path: string, c: string, d: DayDir, seen: set<string>)
  {
    && (forall e :: e in o.log ==> !e.Header?)
    && (forall e :: e in o.log && e.DuplicateDay? ==> e == DuplicateDay(d.name, path, c) && Slice(d.name, 0, 8) in seen)
    && (Slice(d.name, 0, 8) in seen ==> DuplicateDay(d.name, path, c) in o.log)
  }

  ghost predicate VisitLogs(visit: Visit, path: string, c: string)
  {
    forall d, seen :: LogsOf(visit(d, seen), path, c, d, seen)
  }

  lemma DayOutcomeLogs(path: string, c: string, d: DayDir, seen: set<string>, nFiles: int, delete: bool)
    ensures LogsOf(DayOutcome(path, c, d, seen, nFiles, delete), path, c, d, seen)
  {
    CheckDayRules(path, c, d.name, CsvFiles(d.entries), nFiles, delete);
  }

  /** Walking a camera only appends to the log, and never the header. */
  lemma {:induction false} DaysWalkPrefix(w: Walk, path: string, ci: int, cam: CameraDir, j: int, visit: Visit)
    requires 0 <= j <= |cam.days|
    requires VisitLogs(visit, path, cam.name)
    ensures var r := DaysWalk(w, ci, cam, j, visit);
      && w.log <= r.log
      && (forall k :: |w.log| <= k < |r.log| ==> !r.log[k].Header?)
    decreases j
  {
    if j > 0 {
      DaysWalkPrefix(w, path, ci, cam, j - 1, visit);
      var v := DaysWalk(w, ci, cam, j - 1, visit);
      var d := cam.days[j - 1];
      if v.ok && IsDayName(d.name) {
        var o := visit(d, Seen(cam.days, j - 1));
        var r := v.log + o.log;
        forall k | |w.log| <= k < |r| ensures !r[k].Header? {
          if k >= |v.log| {
            assert r[k] == o.log[k - |v.log|];
            assert LogsOf(o, path, cam.name, d, Seen(cam.days, j - 1));
          }
        }
      }
    }
  }

  /** Once walking a camera went through, it has reported exactly the day
      folders that repeat an earlier day. */
  lemma {:induction false} DaysWalkDuplicates(w: Walk, path: string, ci: int, cam: CameraDir, j: int, visit: Visit, e: LogEntry)
    requires 0 <= j <= |cam.days|
    requires VisitLogs(visit, path, cam.name)
    requires e.DuplicateDay? && DaysWalk(w, ci, cam, j, visit).ok
    ensures e in DaysWalk(w, ci, cam, j, visit).log <==>
      (e in w.log || exists k :: 0 <= k < j && RepeatsDay(cam.days, k) && e == DuplicateDay(cam.days[k].name, path, cam.name))
    decreases j
  {
    if j > 0 {
      var v := DaysWalk(w, ci, cam, j - 1, visit);
      DaysWalkDuplicates(w, path, ci, cam, j - 1, visit, e);
      var d := cam.days[j - 1];
      if IsDayName(d.name) {
        var o := visit(d, Seen(cam.days, j - 1));
        assert LogsOf(o, path, cam.name, d, Seen(cam.days, j - 1));
        if e in o.log {
          assert RepeatsDay(cam.days, j - 1);
        }
        if RepeatsDay(cam.days, j - 1) && e == DuplicateDay(d.name, path, cam.name) {
          assert e in o.log;
        }
      }
    }
  }

  /** The log of a walk opens with the header line and holds no other. */
  lemma {:induction false} TreeWalkHeader(path: string, cams: seq<CameraDir>, i: int, visitors: string -> Visit)
    requires 0 <= i <= |cams|
    requires forall c :: VisitLogs(visitors(c), path, c)
    ensures var r := TreeWalk(path, cams, i, visitors);
      && r.log != [] && r.log[0] == Header(path)
      && (forall k :: 0 < k < |r.log| ==> !r.log[k].Header?)
  {
    if i > 0 {
      TreeWalkHeader(path, cams, i - 1, visitors);
      var w := TreeWalk(path, cams, i - 1, visitors);
      var cam := cams[i - 1];
      if w.ok && IsCameraName(cam.name) {
        DaysWalkPrefix(w, path, i - 1, cam, |cam.days|, visitors(cam.name));
        var r := DaysWalk(w, i - 1, cam, |cam.days|, visitors(cam.name));
        forall k | 0 < k < |r.log| ensures !r.log[k].Header? {
          if k < |w.log| {
            assert r.log[k] == w.log[k];
          }
        }
        assert r.log[0] == w.log[0];
      }
    }
  }

  /** A walk that went through reports a duplicate day exactly for each day
      folder of a camera folder that repeats the day of an earlier day folder
      of the same camera folder. */
  lemma {:induction false} TreeWalkDuplicates(path: string, cams: seq<CameraDir>, i: int, visitors: string -> Visit, e: LogEntry)
    requires 0 <= i <= |cams|
    requires forall c :: VisitLogs(visitors(c), path, c)
    requires e.DuplicateDay? && TreeWalk(path, cams, i, visitors).ok
    ensures e in TreeWalk(path, cams, i, visitors).log <==>
      exists ci, k :: 0 <= ci < i && IsCameraName(cams[ci].name) && 0 <= k < |cams[ci].days|
        && RepeatsDay(cams[ci].days, k) && e == DuplicateDay(cams[ci].days[k].name, path, cams[ci].name)
  {
    if i > 0 {
      var w := TreeWalk(path, cams, i - 1, visitors);
      var cam := cams[i - 1];
      TreeWalkDuplicates(path, cams, i - 1, visitors, e);
      if IsCameraName(cam.name) {
        DaysWalkDuplicates(w, path, i - 1, cam, |cam.days|, visitors(cam.name), e);
      }
    }
  }

  /** The visitors of `check_foldersystem` write the log lines described. */
  lemma VisitorsLogs(path: string, nFiles: int, delete: bool)
    ensures forall c :: VisitLogs(Visitors(path, nFiles, delete)(c), path, c)
  {
    forall c: string, d: DayDir, seen: set<string> {
      DayOutcomeLogs(path, c, d, seen, nFiles, delete);
    }
  }

  /** `check_foldersystem`: the log opens with "For path: ..." and holds it
      once; when no `os.remove` raised, it reports "Duplicate day ..." exactly
      for each day folder that repeats the day of an earlier day folder of the
      same camera folder. */
  lemma CheckFolderSystemLog(path: string, cams: seq<CameraDir>, nFiles: int, delete: bool, e: LogEntry)
    ensures var r := TreeWalk(path, cams, |cams|, Visitors(path, nFiles, delete));
      && r.log != [] && r.log[0] == Header(path)
      && (forall k :: 0 < k < |r.log| ==> !r.log[k].Header?)
      && (r.ok && e.DuplicateDay? ==>
            (e in r.log <==>
              exists ci, k :: 0 <= ci < |cams| && IsCameraName(cams[ci].name) && 0 <= k < |cams[ci].days|
                && RepeatsDay(cams[ci].days, k) && e == DuplicateDay(cams[ci].days[k].name, path, cams[ci].name)))
  {
    VisitorsLogs(path, nFiles, delete);
    TreeWalkHeader(path, cams, |cams|, Visitors(path, nFiles, delete));
    if TreeWalk(path, cams, |cams|, Visitors(path, nFiles, delete)).ok && e.DuplicateDay? {
      TreeWalkDuplicates(path, cams, |cams|, Visitors(path, nFiles, delete), e);
    }
  }

  /** A visitor that deletes nothing. */
  ghost predicate VisitKeeps(visit: Visit)
  {
    forall d, seen :: visit(d, seen).entries == d.entries && visit(d, seen).ok
  }

  lemma DayOutcomeKeeps(path: string, c: string, d: DayDir, seen: set<string>, nFiles: int)
    ensures DayOutcome(path, c, d, seen, nFiles, false).entries == d.entries
    ensures DayOutcome(path, c, d, seen, nFiles, false).ok
  {
    CheckDayRules(path, c, d.name, CsvFiles(d.entries), nFiles, false);
  }

  lemma {:induction false} DaysWalkKeeps(w: Walk, ci: int, cam: CameraDir, j: int, visit: Visit)
    requires 0 <= j <= |cam.days| && 0 <= ci < |w.cameras| && w.cameras[ci] == cam && w.ok
    requires VisitKeeps(visit)
    ensures DaysWalk(w, ci, cam, j, visit).cameras == w.cameras
    ensures DaysWalk(w, ci, cam, j, visit).ok
    decreases j
  {
    if j > 0 {
      DaysWalkKeeps(w, ci, cam, j - 1, visit);
      SetEntriesSame(w.cameras, ci, j - 1);
    }
  }

  lemma {:induction false} TreeWalkKeeps(path: string, cams: seq<CameraDir>, i: int, visitors: string -> Visit)
    requires 0 <= i <= |cams|
    requires forall c :: VisitKeeps(visitors(c))
    ensures TreeWalk(path, cams, i, visitors).cameras == cams
    ensures TreeWalk(path, cams, i, visitors).ok
  {
    if i > 0 {
      TreeWalkKeeps(path, cams, i - 1, visitors);
      DaysWalkKeeps(TreeWalk(path, cams, i - 1, visitors), i - 1, cams[i - 1], |cams[i - 1].days|,
                    visitors(cams[i - 1].name));
    }
  }

  /** Without `delete`, `check_foldersystem` removes nothing and never raises. */
  lemma CheckFolderSystemNoDelete(path: string, cams: seq<CameraDir>, nFiles: int)
    ensures TreeWalk(path, cams, |cams|, Visitors(path, nFiles, false)).cameras == cams
    ensures TreeWalk(path, cams, |cams|, Visitors(path, nFiles, false)).ok
  {
    forall c: string, d: DayDir, seen: set<string> {
      DayOutcomeKeeps(path, c, d, seen, nFiles);
    }
    TreeWalkKeeps(path, cams, |cams|, Visitors(path, nFiles, false));
  }

  /** Removal keeps a listing free of repeated names. */
  lemma {:induction false} RemoveAllDistinct(entries: seq<string>, names: seq<string>)
    requires Distinct(entries)
    ensures Distinct(RemoveAll(entries, names).0)
    decreases |names|
  {
    if names != [] && names[0] in entries {
      FilterDistinct(entries, (f: string) => f !in [names[0]]);
      RemoveAllDistinct(Without(entries, [names[0]]), names[1..]);
    }
  }

  /** With `delete` set, once the duplicates of a day folder are removed
      without error, checking the folder again finds nothing to delete. */
  lemma DayConverges(path: string, c: string, d: DayDir, seen: set<string>, nFiles: int)
    requires Distinct(d.entries)
    ensures var o := DayOutcome(path, c, d, seen, nFiles, true);
      o.ok ==> CheckDaySpec(path, c, d.name, CsvFiles(o.entries), nFiles, true).doomed == []
  {
    var files := CsvFiles(d.entries);
    var expected := ExpectedCount(d.name, nFiles);
    var rep := CheckDaySpec(path, c, d.name, files, nFiles, true);
    var rm := RemoveAll(d.entries, rep.doomed);
    var after := CsvFiles(rm.0);
    CheckDayRules(path, c, d.name, files, nFiles, true);
    CheckDayRules(path, c, d.name, after, nFiles, true);
    if rm.1 && rep.doomed != [] {
      var dups := rep.doomed;
      FilterDistinct(d.entries, IsCsvName);
      forall x | x in dups ensures x in d.entries {
        var i :| 0 <= i < expected && x in IndexMatches(c, d.name, files, i)
          && Key(i) in FilterFilesSpec(c, d.name, files, expected, 0).correct
          && x != FilterFilesSpec(c, d.name, files, expected, 0).correct[Key(i)]
          by { FilterFilesDuplicates(c, d.name, files, expected, 0, x); }
      }
      RemoveAllComplete(d.entries, dups);
      RemoveAllDistinct(d.entries, dups);
      FilterDistinct(rm.0, IsCsvName);
      FilterDistinct(files, (f: string) => f !in dups);
      DistinctSameElements(after, Without(files, dups));
      FilterFilesOrderIndependent(c, d.name, after, Without(files, dups), expected, 0);
      FilterFilesConverges(c, d.name, files, expected, 0);
    }
  }
}
