/** The file and day helpers of src/utile.py: choosing one CSV segment per
    index for a camera day (`filter_filenames`), reading a segment with its
    drop rules (`read_batch_csv`), merging the segments of a day
    (`merge_files`), and the day-name helpers (`get_days_in_order`,
    `get_seconds_from_day`, `get_date`, `get_date_string`). A CSV file is an
    already-parsed sequence of raw rows; the file system is a map from file
    names to their rows. */
module Utile {
  import opened Wrappers
  import opened Strings
  import opened Seqs
  import opened Sorting

  // --------------------------------------------------- filter_filenames

  /** `"{:06d}".format(i)` */
  function SegmentKey(i: int): string
  {
    FormatPadded(i, 6)
  }

  /** What the pop loop of `filter_filenames` keeps from `s` once the counter
      stands at `i`: a name is kept when it contains the key of the counter,
      and then the counter moves on; any other name is dropped. */
  function Accept(s: seq<string>, i: int): (r: seq<string>)
    ensures |r| <= |s|
  {
    if s == [] then []
    else if Contains(s[0], SegmentKey(i)) then [s[0]] + Accept(s[1..], i + 1)
    else Accept(s[1..], i)
  }

  /** The caller's list object, which `filter_filenames` sorts and empties. */
  class NameList {
    var items: seq<string>

    constructor (items: seq<string>)
      ensures this.items == items
    {
      this.items := items;
    }
  }

  /** `filter_filenames`: sorts the list in place, then pops it from the front
      until it is empty, keeping each name that contains the key of the
      number of names kept so far. The caller's list is left empty. */
  method FilterFilenames(names: NameList) returns (filtered: seq<string>)
    modifies names
    ensures names.items == []
    ensures filtered == Accept(Sort(old(names.items)), 0)
  {
    names.items := Sort(names.items);
    ghost var sorted := names.items;
    var i := 0;
    filtered := [];
    while |names.items| != 0
      invariant filtered + Accept(names.items, i) == Accept(sorted, 0)
      decreases |names.items|
    {
      var f := names.items[0];
      var rest := names.items[1..];
      names.items := rest;
      if Contains(f, SegmentKey(i)) {
        assert Accept([f] + rest, i) == [f] + Accept(rest, i + 1);
        assert filtered + ([f] + Accept(rest, i + 1)) == filtered + [f] + Accept(rest, i + 1);
        filtered := filtered + [f];
        i := i + 1;
      } else {
        assert Accept([f] + rest, i) == Accept(rest, i);
      }
    }
  }

  /** The k-th kept name carries the key `i + k`: the kept names are the
      segments 000000, 000001, ... in that order. */
  lemma {:induction false} AcceptKeys(s: seq<string>, i: int)
    ensures forall k :: 0 <= k < |Accept(s, i)| ==> Contains(Accept(s, i)[k], SegmentKey(i + k))
  {
    if s != [] {
      if Contains(s[0], SegmentKey(i)) {
        var tail := Accept(s[1..], i + 1);
        AcceptKeys(s[1..], i + 1);
        assert Accept(s, i) == [s[0]] + tail;
        forall k | 0 < k < |tail| + 1 ensures Contains(([s[0]] + tail)[k], SegmentKey(i + k)) {
          assert ([s[0]] + tail)[k] == tail[k - 1];
          assert i + 1 + (k - 1) == i + k;
        }
      } else {
        AcceptKeys(s[1..], i);
      }
    }
  }

  /** Only names of the input are kept, in their order. */
  lemma {:induction false} AcceptSubsequence(s: seq<string>, i: int)
    ensures IsSubsequence(Accept(s, i), s)
  {
    if s != [] {
      if Contains(s[0], SegmentKey(i)) {
        AcceptSubsequence(s[1..], i + 1);
        assert Accept(s, i)[1..] == Accept(s[1..], i + 1);
      } else {
        AcceptSubsequence(s[1..], i);
      }
    }
  }

  /** The first name that contains the current key is the one kept for it
      ("it takes the FIRST one"); every name before it is dropped, and the
      search for the next key starts right after it. */
  lemma {:induction false} AcceptFirst(s: seq<string>, i: int, j: int)
    requires 0 <= j < |s| && Contains(s[j], SegmentKey(i))
    requires forall m :: 0 <= m < j ==> !Contains(s[m], SegmentKey(i))
    ensures Accept(s, i) == [s[j]] + Accept(s[j + 1..], i + 1)
  {
    if j > 0 {
      assert !Contains(s[0], SegmentKey(i));
      AcceptFirst(s[1..], i, j - 1);
      assert s[1..][j - 1 + 1..] == s[j + 1..];
    }
  }

  /** When no name contains the current key, nothing at all is kept: a
      missing segment hides every later one. */
  lemma {:induction false} AcceptGap(s: seq<string>, i: int)
    requires forall m :: 0 <= m < |s| ==> !Contains(s[m], SegmentKey(i))
    ensures Accept(s, i) == []
  {
    if s != [] {
      AcceptGap(s[1..], i);
    }
  }

  /** The kept names depend only on which names the caller passed, not on
      their order, because they are sorted first. */
  lemma FilterFilenamesOrderIndependent(a: seq<string>, b: seq<string>)
    requires multiset(a) == multiset(b)
    ensures Accept(Sort(a), 0) == Accept(Sort(b), 0)
  {
    SortSorts(a);
    SortSorts(b);
    SortedUnique(Sort(a), Sort(b));
  }

  // ------------------------------------------------------- day names

  /** `day[:8]`: the yyyymmdd part of a day name. */
  function GetDate(day: string): (r: string)
    ensures |r| <= 8 && |r| <= |day|
    ensures |day| >= 8 ==> r == day[..8]
  {
    Slice(day, 0, 8)
  }

  /** `"%s/%s/%s" % (day[:4], day[4:6], day[6:8])` */
  function GetDateString(day: string): string
  {
    Slice(day, 0, 4) + "/" + Slice(day, 4, 6) + "/" + Slice(day, 6, 8)
  }

  /** A string without the separator splits into itself alone. */
  lemma {:induction false} SplitWithoutSeparator(s: string, sep: char)
    requires sep !in s
    ensures Split(s, sep) == [s]
  {
    if s != [] {
      SplitWithoutSeparator(s[1..], sep);
      assert s[0] != sep;
      assert [s[0]] + s[1..] == s;
    }
  }

  /** The three slices of `get_date_string` spell `get_date(day)`, also for a
      day name shorter than eight characters. */
  lemma DatePieces(day: string)
    ensures Slice(day, 0, 4) + Slice(day, 4, 6) + Slice(day, 6, 8) == GetDate(day)
  {
    var a, b, c := Slice(day, 0, 4), Slice(day, 4, 6), Slice(day, 6, 8);
    var n := |day|;
    if n >= 8 {
      assert a + b + c == day[..8];
    } else if n >= 6 {
      assert c == day[6..n] && a + b + c == day[..n];
    } else if n >= 4 {
      assert b == day[4..n] && c == [] && a + b + c == day[..n];
    } else {
      assert a == day && b == [] && c == [];
    }
  }

  /** The date string is the date with two slashes put in: the pieces between
      the slashes spell `get_date(day)` again. */
  lemma DateStringPieces(day: string)
    requires '/' !in GetDate(day)
    ensures Split(GetDateString(day), '/') == [Slice(day, 0, 4), Slice(day, 4, 6), Slice(day, 6, 8)]
    ensures Join(Split(GetDateString(day), '/'), "") == GetDate(day)
  {
    var a, b, c := Slice(day, 0, 4), Slice(day, 4, 6), Slice(day, 6, 8);
    DatePieces(day);
    assert '/' !in a && '/' !in b && '/' !in c by {
      assert forall ch :: ch in a || ch in b || ch in c ==> ch in a + b + c;
    }
    SplitAtSeparator(a + "/" + b, c, '/');
    SplitAtSeparator(a, b, '/');
    SplitWithoutSeparator(a, '/');
    SplitWithoutSeparator(b, '/');
    SplitWithoutSeparator(c, '/');
    assert GetDateString(day) == (a + ['/'] + b) + ['/'] + c;
    JoinThree(a, b, c);
  }

  lemma JoinThree(a: string, b: string, c: string)
    ensures Join([a, b, c], "") == a + b + c
  {
    assert [a, b, c][1..] == [b, c];
    assert [b, c][1..] == [c];
    assert Join([b, c], "") == b + "" + c == b + c;
    assert Join([a, b, c], "") == a + "" + (b + c);
  }

  /** A full date gives a yyyy/mm/dd string of ten characters. */
  lemma DateStringShape(day: string)
    requires |day| >= 8
    ensures |GetDateString(day)| == 10 && GetDateString(day)[4] == '/' && GetDateString(day)[7] == '/'
    ensures GetDateString(day)[..4] == day[..4] && GetDateString(day)[5..7] == day[4..6] && GetDateString(day)[8..] == day[6..8]
  {
  }

  /** `get_seconds_from_day`: `int(day[9:11])` hours and `int(day[11:13])`
      minutes, in seconds since midnight; `None` is the ValueError raised when
      either field does not read as an integer. */
  function GetSecondsFromDay(day: string): (r: Option<int>)
    ensures r.Some? <==> ParseInt(Slice(day, 9, 11)).Some? && ParseInt(Slice(day, 11, 13)).Some?
  {
    var hours, minutes := ParseInt(Slice(day, 9, 11)), ParseInt(Slice(day, 11, 13));
    if hours.Some? && minutes.Some? then Some(minutes.value * 60 + hours.value * 3600) else None
  }

  /** A day name `yyyymmdd_hhmm...` written with two-digit hour and minute
      fields reads back as that time of day, which lies within the day. */
  lemma SecondsFromDayRoundTrip(date: string, hours: int, minutes: int, rest: string)
    requires |date| == 8 && 0 <= hours < 24 && 0 <= minutes < 60
    ensures GetSecondsFromDay(date + "_" + FormatPadded(hours, 2) + FormatPadded(minutes, 2) + rest)
      == Some(hours * 3600 + minutes * 60)
    ensures 0 <= hours * 3600 + minutes * 60 < 24 * 3600
  {
    var hh, mm := FormatPadded(hours, 2), FormatPadded(minutes, 2);
    FormatPaddedWidth(hours, 2);
    FormatPaddedWidth(minutes, 2);
    DayFields(date + "_" + hh + mm + rest, date, hh, mm, rest);
    ParseFormatPadded(hours, 2);
    ParseFormatPadded(minutes, 2);
  }

  /** Where the hour and minute fields of a day name sit. */
  lemma DayFields(day: string, date: string, hh: string, mm: string, rest: string)
    requires |date| == 8 && |hh| == 2 && |mm| == 2 && day == date + "_" + hh + mm + rest
    ensures Slice(day, 9, 11) == hh && Slice(day, 11, 13) == mm
  {
    assert day[9..11] == hh && day[11..13] == mm;
  }

  /** Any two fields of digits give a time between 0 and 99:99. */
  lemma SecondsFromDayBounds(day: string)
    requires AllDigits(Slice(day, 9, 11)) && AllDigits(Slice(day, 11, 13))
    requires GetSecondsFromDay(day).Some?
    ensures 0 <= GetSecondsFromDay(day).value <= 99 * 3600 + 99 * 60
  {
    var h, m := Slice(day, 9, 11), Slice(day, 11, 13);
    TwoDigitsValue(h);
    TwoDigitsValue(m);
  }

  lemma TwoDigitsValue(s: string)
    requires AllDigits(s) && |s| <= 2
    ensures DigitsValue(s) <= 99
  {
    if |s| == 2 {
      assert s[..1][..0] == [];
    } else if |s| == 1 {
      assert s[..0] == [];
    }
  }

  /** The day a listed folder name contributes: `name[:13]` when
      `name[:8].isnumeric()`, otherwise none. */
  function DayOf(name: string): (r: seq<string>)
    ensures |r| <= 1
  {
    if IsNumeric(Slice(name, 0, 8)) then [Slice(name, 0, 13)] else []
  }

  /** `[name[:13] for name in listing if name[:8].isnumeric()]` */
  function DayNames(listing: seq<string>): (r: seq<string>)
    ensures |r| <= |listing|
  {
    FlatMapLength(listing, DayOf);
    FlatMap(listing, DayOf)
  }

  /** A day name is the first 13 characters of a listed folder whose first 8
      characters are digits, and every such folder gives one. */
  lemma DayNamesMembers(listing: seq<string>, d: string)
    ensures d in DayNames(listing) <==> exists k :: 0 <= k < |listing| && IsNumeric(Slice(listing[k], 0, 8)) && Slice(listing[k], 0, 13) == d
  {
    FlatMapMembers(listing, DayOf, d);
  }

  /** Every day name starts with eight digits and has at most 13 characters. */
  lemma DayNamesShape(listing: seq<string>, d: string)
    requires d in DayNames(listing)
    ensures |d| <= 13 && IsNumeric(GetDate(d))
  {
    DayNamesMembers(listing, d);
    var k :| 0 <= k < |listing| && IsNumeric(Slice(listing[k], 0, 8)) && Slice(listing[k], 0, 13) == d;
    var name := listing[k];
    if |name| >= 13 {
      assert d == name[..13] && d[..8] == name[..8];
    } else {
      assert d == name && GetDate(d) == GetDate(name);
    }
  }

  /** `get_days_in_order` for the listing of the first camera's folder: the
      day names sorted, then cut to `days[interval[0]:interval[1]]` when an
      interval is given. */
  function DaysInOrder(listing: seq<string>, interval: Option<(int, int)>): (r: seq<string>)
    ensures |r| <= |DayNames(listing)|
  {
    var days := Sort(DayNames(listing));
    match interval
    case None => days
    case Some((lo, hi)) => Slice(days, lo, hi)
  }

  /** Without an interval the result is every day name, in ascending order,
      whatever the order of the listing. */
  lemma DaysInOrderSorted(listing: seq<string>)
    ensures Sorted(DaysInOrder(listing, None))
    ensures multiset(DaysInOrder(listing, None)) == multiset(DayNames(listing))
  {
    SortSorts(DayNames(listing));
  }

  /** An interval inside the list selects the consecutive block of the sorted
      days from position `lo` up to, not including, `hi`. */
  lemma DaysInOrderInterval(listing: seq<string>, lo: int, hi: int)
    requires 0 <= lo <= hi <= |DayNames(listing)|
    ensures DaysInOrder(listing, Some((lo, hi))) == DaysInOrder(listing, None)[lo..hi]
    ensures |DaysInOrder(listing, Some((lo, hi)))| == hi - lo
  {
  }

  /** Two listings with the same folders, in any order, give the same days. */
  lemma DaysInOrderOrderIndependent(a: seq<string>, b: seq<string>, interval: Option<(int, int)>)
    requires multiset(a) == multiset(b)
    ensures DaysInOrder(a, interval) == DaysInOrder(b, interval)
  {
    DayNamesPermutation(a, b);
    SortSorts(DayNames(a));
    SortSorts(DayNames(b));
    SortedUnique(Sort(DayNames(a)), Sort(DayNames(b)));
  }

  /** Permuting the listing permutes the day names. */
  lemma DayNamesPermutation(a: seq<string>, b: seq<string>)
    requires multiset(a) == multiset(b)
    ensures multiset(DayNames(a)) == multiset(DayNames(b))
  {
    FlatMapPermutation(a, b, DayOf);
  }

  // ------------------------------------------------------ reading a CSV

  /** One data row of a tracking CSV before `dropna`: the columns `x`, `y`,
      `FRAME`, `time`, `xpx`, `ypx`, each possibly empty. */
  datatype RawRow = RawRow(x: Option<real>, y: Option<real>, frame: Option<int>,
                           time: Option<real>, xpx: Option<real>, ypx: Option<real>)

  /** A row with every column present. */
  datatype Sample = Sample(x: real, y: real, frame: int, time: real, xpx: real, ypx: real)

  predicate Complete(r: RawRow)
  {
    r.x.Some? && r.y.Some? && r.frame.Some? && r.time.Some? && r.xpx.Some? && r.ypx.Some?
  }

  function ToSample(r: RawRow): Sample
    requires Complete(r)
  {
    Sample(r.x.value, r.y.value, r.frame.value, r.time.value, r.xpx.value, r.ypx.value)
  }

  /** `df.dropna(axis="rows", how="any")`: the rows with no empty column, in order. */
  function DropNa(rows: seq<RawRow>): (r: seq<Sample>)
    ensures |r| <= |rows|
  {
    if rows == [] then []
    else (if Complete(rows[0]) then [ToSample(rows[0])] else []) + DropNa(rows[1..])
  }

  /** `dropna` keeps exactly the complete rows and loses none of them. */
  lemma {:induction false} DropNaMembers(rows: seq<RawRow>, s: Sample)
    ensures s in DropNa(rows) <==> exists k :: 0 <= k < |rows| && Complete(rows[k]) && ToSample(rows[k]) == s
  {
    if rows != [] {
      DropNaMembers(rows[1..], s);
      if s in DropNa(rows[1..]) {
        var k :| 0 <= k < |rows[1..]| && Complete(rows[1..][k]) && ToSample(rows[1..][k]) == s;
        assert rows[k + 1] == rows[1..][k];
      }
      if exists k :: 0 <= k < |rows| && Complete(rows[k]) && ToSample(rows[k]) == s {
        var k :| 0 <= k < |rows| && Complete(rows[k]) && ToSample(rows[k]) == s;
        if k > 0 {
          assert rows[1..][k - 1] == rows[k];
        }
      }
    }
  }

  /** A file without empty columns loses no row to `dropna`. */
  lemma {:induction false} DropNaComplete(rows: seq<RawRow>)
    requires forall k :: 0 <= k < |rows| ==> Complete(rows[k])
    ensures |DropNa(rows)| == |rows|
  {
    if rows != [] {
      DropNaComplete(rows[1..]);
    }
  }

  /** A row whose `x` is -1 or below marks a tracking error. */
  predicate IsError(s: Sample)
  {
    s.x <= -1.0
  }

  /** The `drop_errors` rule: error rows are dropped, except the last row of
      the file, which is kept for its time stamp. */
  function DropErrors(s: seq<Sample>): (r: seq<Sample>)
    ensures |r| <= |s|
    ensures s != [] ==> r != [] && r[|r| - 1] == s[|s| - 1]
  {
    if s == [] then [] else Filter(s[..|s| - 1], (t: Sample) => !IsError(t)) + [s[|s| - 1]]
  }

  /** What survives the rule: a row before the last survives exactly when it is
      no error, and no row but the last is an error. */
  lemma DropErrorsMembers(s: seq<Sample>, t: Sample)
    requires s != []
    ensures t in DropErrors(s) <==> (t in s[..|s| - 1] && !IsError(t)) || t == s[|s| - 1]
    ensures forall k :: 0 <= k < |DropErrors(s)| - 1 ==> !IsError(DropErrors(s)[k])
  {
    var r := DropErrors(s);
    var kept := Filter(s[..|s| - 1], (t: Sample) => !IsError(t));
    assert r[..|r| - 1] == kept;
    forall k | 0 <= k < |r| - 1 ensures !IsError(r[k]) {
      assert r[k] == kept[k];
    }
  }

  /** The rows kept are rows of the file, in the file's order. */
  lemma DropErrorsSubsequence(s: seq<Sample>)
    ensures IsSubsequence(DropErrors(s), s)
  {
    if s != [] {
      var p := (t: Sample) => !IsError(t);
      var init := s[..|s| - 1];
      FilterIsSubsequence(init, p);
      SubsequenceAppend(Filter(init, p), init, s[|s| - 1]);
      assert init + [s[|s| - 1]] == s;
    }
  }

  lemma {:induction false} SubsequenceAppend<T>(a: seq<T>, b: seq<T>, x: T)
    requires IsSubsequence(a, b)
    ensures IsSubsequence(a + [x], b + [x])
    decreases |b|
  {
    if a == [] {
      if b != [] {
        assert (b + [x])[1..] == b[1..] + [x];
        SubsequenceAppend(a, b[1..], x);
      } else {
        assert ([] + [x])[1..] == [];
      }
    } else {
      assert (a + [x])[0] == a[0] && (a + [x])[1..] == a[1..] + [x];
      assert (b + [x])[0] == b[0] && (b + [x])[1..] == b[1..] + [x];
      if a[0] == b[0] && IsSubsequence(a[1..], b[1..]) {
        SubsequenceAppend(a[1..], b[1..], x);
      } else {
        SubsequenceAppend(a, b[1..], x);
      }
    }
  }

  /** Applying the rule a second time changes nothing. */
  lemma DropErrorsIdempotent(s: seq<Sample>)
    ensures DropErrors(DropErrors(s)) == DropErrors(s)
  {
    if s != [] {
      var p := (t: Sample) => !IsError(t);
      var r := DropErrors(s);
      var kept := Filter(s[..|s| - 1], p);
      assert r[..|r| - 1] == kept;
      FilterAll(kept, p);
    }
  }

  /** Filtering rows that all pass the test keeps them all. */
  lemma {:induction false} FilterAll<T(!new)>(s: seq<T>, p: T -> bool)
    requires forall k :: 0 <= k < |s| ==> p(s[k])
    ensures Filter(s, p) == s
  {
    if s != [] {
      FilterAll(s[1..], p);
    }
  }

  /** `read_batch_csv`: `dropna`, then the error rule when `drop_errors` is
      set; `reset_index` only renumbers the rows. */
  function ReadBatchCsv(rows: seq<RawRow>, dropErrors: bool): (r: seq<Sample>)
    ensures |r| <= |rows|
  {
    var df := DropNa(rows);
    if dropErrors then DropErrors(df) else df
  }

  /** A batch read with `drop_errors` keeps the last complete row of the file
      and has no error row before it; without it, every complete row is kept. */
  lemma ReadBatchCsvRules(rows: seq<RawRow>, dropErrors: bool)
    ensures dropErrors && DropNa(rows) != [] ==>
      ReadBatchCsv(rows, dropErrors) != [] &&
      ReadBatchCsv(rows, dropErrors)[|ReadBatchCsv(rows, dropErrors)| - 1] == DropNa(rows)[|DropNa(rows)| - 1]
    ensures dropErrors ==> forall k :: 0 <= k < |ReadBatchCsv(rows, dropErrors)| - 1 ==> !IsError(ReadBatchCsv(rows, dropErrors)[k])
    ensures IsSubsequence(ReadBatchCsv(rows, dropErrors), DropNa(rows))
    ensures !dropErrors ==> ReadBatchCsv(rows, dropErrors) == DropNa(rows)
  {
    var df := DropNa(rows);
    if dropErrors {
      DropErrorsSubsequence(df);
      if df != [] {
        var t := df[0];
        DropErrorsMembers(df, t);
      }
    } else {
      SubsequenceRefl(df);
    }
  }

  lemma {:induction false} SubsequenceRefl<T>(s: seq<T>)
    ensures IsSubsequence(s, s)
  {
    if s != [] {
      SubsequenceRefl(s[1..]);
    }
  }

  // ------------------------------------------------------- merge_files

  /** `merge_files`: reads each file in order and collects its batch; a file
      that cannot be read raises (`Err` names the first such file) and no
      batches are returned. */
  method MergeFiles(filenames: seq<string>, dropErrors: bool, files: map<string, seq<RawRow>>)
    returns (r: Result<seq<seq<Sample>>, string>)
    ensures r.Ok? <==> forall k :: 0 <= k < |filenames| ==> filenames[k] in files
    ensures r.Ok? ==> |r.value| == |filenames|
    ensures r.Ok? ==> forall k :: 0 <= k < |filenames| ==> r.value[k] == ReadBatchCsv(files[filenames[k]], dropErrors)
    ensures r.Err? ==> exists k :: (0 <= k < |filenames| && filenames[k] == r.error && filenames[k] !in files
                                    && forall m :: 0 <= m < k ==> filenames[m] in files)
  {
    var batches: seq<seq<Sample>> := [];
    var k := 0;
    while k < |filenames|
      invariant 0 <= k <= |filenames| && |batches| == k
      invariant forall m :: 0 <= m < k ==> filenames[m] in files
      invariant forall m :: 0 <= m < k ==> batches[m] == ReadBatchCsv(files[filenames[m]], dropErrors)
    {
      var f := filenames[k];
      if f !in files {
        return Err(f);
      }
      batches := batches + [ReadBatchCsv(files[f], dropErrors)];
      k := k + 1;
    }
    return Ok(batches);
  }
}
