/** The feeding analysis of src/trajectory/feeding.py: the batch-relative
    window of the feeding period (`get_start_end_index`), the rows eligible
    for the region test, the segmentation of in-region frames into visits,
    the per-(fish, day) accumulators of a `FeedingTrajectory`
    (`reset_data`, `update_feeding_and_visits`), the offset of a clock time
    from the feeding start (`get_df_idx_from_time`) and the day key of the
    feeding-time table. The configuration values `FRAMES_PER_SECOND` and
    `BATCH_SIZE` are parameters, and the region test of the feeding shape is
    a predicate on rows supplied by the caller. */
module Feeding {
  import opened Wrappers
  import opened Strings
  import opened Seqs
  import opened Utile

  // ------------------------------------------------ get_start_end_index

  /** The clamp of `get_start_end_index` for one bound `f` (in seconds): the
      frame `f * fps` made relative to batch `batchNumber`, or 0 / `batchSize`
      when it lies before / after that batch. */
  function BatchIndex(f: int, fps: int, batchNumber: int, batchSize: int): int
  {
    if f * fps < batchNumber * batchSize then 0
    else if f * fps > (batchNumber + 1) * batchSize then batchSize
    else f * fps - batchNumber * batchSize
  }

  /** `max(lo, min(hi, x))` */
  function Clamp(x: int, lo: int, hi: int): int
  {
    if x < lo then lo else if x > hi then hi else x
  }

  /** The clamp is the frame offset into the batch, bounded to `[0, batchSize]`. */
  lemma BatchIndexIsClamp(f: int, fps: int, batchNumber: int, batchSize: int)
    requires batchSize >= 0
    ensures BatchIndex(f, fps, batchNumber, batchSize) == Clamp(f * fps - batchNumber * batchSize, 0, batchSize)
    ensures 0 <= BatchIndex(f, fps, batchNumber, batchSize) <= batchSize
  {
    assert (batchNumber + 1) * batchSize == batchNumber * batchSize + batchSize;
  }

  /** A later time never gives an earlier index. */
  lemma BatchIndexMonotone(f: int, g: int, fps: int, batchNumber: int, batchSize: int)
    requires f <= g && fps >= 0 && batchSize >= 0
    ensures BatchIndex(f, fps, batchNumber, batchSize) <= BatchIndex(g, fps, batchNumber, batchSize)
  {
    BatchIndexIsClamp(f, fps, batchNumber, batchSize);
    BatchIndexIsClamp(g, fps, batchNumber, batchSize);
    var base := batchNumber * batchSize;
    MulMonotone(f, g, fps);
    ClampMonotone(f * fps - base, g * fps - base, 0, batchSize);
  }

  lemma MulMonotone(f: int, g: int, k: int)
    requires f <= g && k >= 0
    ensures f * k <= g * k
  {
    assert g * k - f * k == (g - f) * k;
  }

  lemma ClampMonotone(x: int, y: int, lo: int, hi: int)
    requires x <= y && lo <= hi
    ensures Clamp(x, lo, hi) <= Clamp(y, lo, hi)
  {
  }

  /** `get_start_end_index(date, batch_number)`: the whole batch when there is
      no table of feeding times, the KeyError of a day missing from the table
      (`Err` holds the day), and otherwise the clamped start and end. */
  function GetStartEndIndex(startEndTimes: Option<map<string, (int, int)>>, date: string,
                            batchNumber: int, fps: int, batchSize: int): (r: Result<(int, int), string>)
    ensures r.Err? <==> startEndTimes.Some? && date !in startEndTimes.value
  {
    match startEndTimes
    case None => Ok((0, batchSize))
    case Some(table) =>
      if date !in table then Err(date)
      else
        var (fStart, fEnd) := table[date];
        Ok((BatchIndex(fStart, fps, batchNumber, batchSize), BatchIndex(fEnd, fps, batchNumber, batchSize)))
  }

  /** Both indices lie in `[0, batchSize]`, a feeding period that does not
      end before it starts gives `start <= end`, and without a table the
      window is the whole batch. */
  lemma StartEndIndexRange(startEndTimes: Option<map<string, (int, int)>>, date: string,
                           batchNumber: int, fps: int, batchSize: int)
    requires batchSize >= 0 && fps >= 0
    ensures startEndTimes.None? ==> GetStartEndIndex(startEndTimes, date, batchNumber, fps, batchSize) == Ok((0, batchSize))
    ensures GetStartEndIndex(startEndTimes, date, batchNumber, fps, batchSize).Ok? ==>
      var (s, e) := GetStartEndIndex(startEndTimes, date, batchNumber, fps, batchSize).value;
      0 <= s <= batchSize && 0 <= e <= batchSize
    ensures startEndTimes.Some? && date in startEndTimes.value && startEndTimes.value[date].0 <= startEndTimes.value[date].1 ==>
      var (s, e) := GetStartEndIndex(startEndTimes, date, batchNumber, fps, batchSize).value;
      s <= e
  {
    if startEndTimes.Some? && date in startEndTimes.value {
      var (fStart, fEnd) := startEndTimes.value[date];
      BatchIndexIsClamp(fStart, fps, batchNumber, batchSize);
      BatchIndexIsClamp(fEnd, fps, batchNumber, batchSize);
      if fStart <= fEnd {
        BatchIndexMonotone(fStart, fEnd, fps, batchNumber, batchSize);
      }
    }
  }

  // ------------------------------------------------ the FRAME window

  /** `batch[batch.FRAME.between(start_idx, end_idx)]`: the rows whose frame
      number lies in the window, both bounds included, in batch order. */
  function Window(batch: seq<Sample>, lo: int, hi: int): (r: seq<Sample>)
    ensures forall t :: t in r <==> t in batch && lo <= t.frame <= hi
    ensures |r| <= |batch|
  {
    Filter(batch, (t: Sample) => lo <= t.frame <= hi)
  }

  /** The rows of the window keep their batch order. */
  lemma WindowSubsequence(batch: seq<Sample>, lo: int, hi: int)
    ensures IsSubsequence(Window(batch, lo, hi), batch)
  {
    FilterIsSubsequence(batch, (t: Sample) => lo <= t.frame <= hi);
  }

  /** The trailing row of a batch is dropped when it is an error row (`x <= -1`). */
  function DropTrailingError(batch: seq<Sample>): (r: seq<Sample>)
    ensures |r| <= |batch|
    ensures r == batch || (batch != [] && IsError(batch[|batch| - 1]) && r == batch[..|batch| - 1])
  {
    if batch != [] && IsError(batch[|batch| - 1]) then batch[..|batch| - 1] else batch
  }

  // ------------------------------------------------ visits

  /** `[f + 1 for f in s]` */
  function Shift(s: seq<int>): (r: seq<int>)
    ensures |r| == |s|
    ensures forall k :: 0 <= k < |s| ==> r[k] == s[k] + 1
  {
    seq(|s|, k requires 0 <= k < |s| => s[k] + 1)
  }

  /** `np.where(frames[1:] - frames[:-1] != 1)[0]`: the positions `k` after
      which the next frame is not the following frame number, in increasing
      order. */
  function Breaks(frames: seq<int>): (r: seq<int>)
    ensures forall j :: 0 <= j < |r| ==> 0 <= r[j] < |frames| - 1
    ensures forall j :: 0 < j < |r| ==> r[j - 1] < r[j]
    ensures |frames| > 0 ==> |r| <= |frames| - 1
    ensures |frames| <= 1 ==> r == []
  {
    if |frames| < 2 then []
    else (if frames[1] - frames[0] != 1 then [0] else []) + Shift(Breaks(frames[1..]))
  }

  /** A position is a break exactly when the next frame does not follow it. */
  lemma {:induction false} BreaksMembers(frames: seq<int>, k: int)
    ensures k in Breaks(frames) <==> 0 <= k < |frames| - 1 && frames[k + 1] - frames[k] != 1
  {
    if |frames| >= 2 {
      var rest := Breaks(frames[1..]);
      var head := if frames[1] - frames[0] != 1 then [0] else [];
      assert Breaks(frames) == head + Shift(rest);
      ShiftMembers(rest, k);
      BreaksMembers(frames[1..], k - 1);
      if 1 <= k < |frames| - 1 {
        assert frames[1..][k] == frames[k + 1] && frames[1..][k - 1] == frames[k];
      }
    }
  }

  lemma ShiftMembers(s: seq<int>, k: int)
    ensures k in Shift(s) <==> k - 1 in s
  {
    if k - 1 in s {
      var j :| 0 <= j < |s| && s[j] == k - 1;
      assert Shift(s)[j] == k;
    }
  }

  /** `index_visits`: empty when there are no in-region rows, otherwise 0, the
      position after every break, and the last position. */
  function VisitIndices(frames: seq<int>): (r: seq<int>)
    ensures frames == [] <==> r == []
  {
    if frames == [] then [] else [0] + Shift(Breaks(frames)) + [|frames| - 1]
  }

  /** `n_entries`: 0 without in-region rows, else `len(index_visits) - 1`. */
  function VisitCount(frames: seq<int>): nat
  {
    if frames == [] then 0 else |VisitIndices(frames)| - 1
  }

  /** The visit count is 0 exactly when no row is in the region, and
      otherwise one more than the number of breaks; it never exceeds the
      number of in-region rows. */
  lemma VisitCountBreaks(frames: seq<int>)
    ensures VisitCount(frames) == 0 <==> frames == []
    ensures frames != [] ==> VisitCount(frames) == 1 + |Breaks(frames)|
    ensures VisitCount(frames) <= |frames|
  {
  }

  /** `index_visits` starts at 0, ends at the last position, never goes down
      and stays inside the in-region rows. */
  lemma VisitIndicesShape(frames: seq<int>)
    requires frames != []
    ensures VisitIndices(frames)[0] == 0
    ensures VisitIndices(frames)[|VisitIndices(frames)| - 1] == |frames| - 1
    ensures forall j :: 0 < j < |VisitIndices(frames)| ==> VisitIndices(frames)[j - 1] <= VisitIndices(frames)[j]
    ensures forall j :: 0 <= j < |VisitIndices(frames)| ==> 0 <= VisitIndices(frames)[j] < |frames|
  {
    var b := Breaks(frames);
    var v := VisitIndices(frames);
    assert v == [0] + Shift(b) + [|frames| - 1];
    forall j | 0 < j < |v| ensures v[j - 1] <= v[j] {
      if j == 1 {
        assert v[0] == 0;
      } else if j < |v| - 1 {
        assert v[j - 1] == b[j - 2] + 1 && v[j] == b[j - 1] + 1;
      } else {
        assert v[j - 1] == b[j - 2] + 1;
      }
    }
    forall j | 0 <= j < |v| ensures 0 <= v[j] < |frames| {
      if 0 < j < |v| - 1 {
        assert v[j] == b[j - 1] + 1;
      }
    }
  }

  /** The maximal runs of consecutive frame numbers, in order: the visits. */
  function Runs(frames: seq<int>): (r: seq<seq<int>>)
    ensures frames == [] <==> r == []
    ensures frames != [] ==> r[0] != [] && r[0][0] == frames[0]
  {
    if |frames| <= 1 then (if frames == [] then [] else [frames])
    else
      var rest := Runs(frames[1..]);
      if frames[1] - frames[0] == 1 then [[frames[0]] + rest[0]] + rest[1..]
      else [[frames[0]]] + rest
  }

  /** The concatenation of a list of runs. */
  function Flatten(runs: seq<seq<int>>): seq<int>
  {
    if runs == [] then [] else runs[0] + Flatten(runs[1..])
  }

  /** A run of frame numbers, each one after the other. */
  predicate Consecutive(run: seq<int>)
  {
    forall j :: 0 < j < |run| ==> run[j] == run[j - 1] + 1
  }

  /** Non-empty runs of consecutive frames. */
  predicate AllConsecutive(runs: seq<seq<int>>)
  {
    forall j :: 0 <= j < |runs| ==> runs[j] != [] && Consecutive(runs[j])
  }

  /** No run ends right before the frame that starts the next one. */
  predicate Separated(runs: seq<seq<int>>)
    requires forall j :: 0 <= j < |runs| ==> runs[j] != []
  {
    forall j :: 0 < j < |runs| ==> runs[j][0] - runs[j - 1][|runs[j - 1]| - 1] != 1
  }

  /** The runs spell the frames. */
  lemma {:induction false} RunsFlatten(frames: seq<int>)
    ensures Flatten(Runs(frames)) == frames
  {
    if |frames| == 1 {
      assert Flatten(Runs(frames)) == frames + Flatten([]);
    } else if |frames| > 1 {
      var rest := Runs(frames[1..]);
      RunsFlatten(frames[1..]);
      var r := Runs(frames);
      assert frames == [frames[0]] + frames[1..];
      if frames[1] - frames[0] == 1 {
        var first := [frames[0]] + rest[0];
        assert r == [first] + rest[1..];
        assert r[1..] == rest[1..];
        assert Flatten(rest) == rest[0] + Flatten(rest[1..]);
        assert Flatten(r) == first + Flatten(rest[1..]);
      } else {
        assert r[1..] == rest;
        assert Flatten(r) == [frames[0]] + Flatten(rest);
      }
    }
  }

  /** Each run is a non-empty stretch of consecutive frame numbers. */
  lemma {:induction false} RunsConsecutive(frames: seq<int>)
    ensures AllConsecutive(Runs(frames))
  {
    if |frames| > 1 {
      var rest := Runs(frames[1..]);
      RunsConsecutive(frames[1..]);
      var r := Runs(frames);
      if frames[1] - frames[0] == 1 {
        var first := [frames[0]] + rest[0];
        assert r == [first] + rest[1..];
        assert Consecutive(first) by {
          forall j | 0 < j < |first| ensures first[j] == first[j - 1] + 1 {
            if j > 1 {
              assert first[j] == rest[0][j - 1] && first[j - 1] == rest[0][j - 2];
            }
          }
        }
        forall j | 0 < j < |r| ensures r[j] != [] && Consecutive(r[j]) {
          assert r[j] == rest[j];
        }
      } else {
        assert r == [[frames[0]]] + rest;
        forall j | 0 < j < |r| ensures r[j] != [] && Consecutive(r[j]) {
          assert r[j] == rest[j - 1];
        }
      }
    }
  }

  /** The last frame of a run is never followed by the next frame number at
      the start of the next run: the runs are maximal. */
  lemma {:induction false} RunsMaximal(frames: seq<int>)
    ensures AllConsecutive(Runs(frames)) && Separated(Runs(frames))
  {
    RunsConsecutive(frames);
    if |frames| > 1 {
      var rest := Runs(frames[1..]);
      RunsMaximal(frames[1..]);
      if frames[1] - frames[0] == 1 {
        SeparatedMerge(frames[0], rest);
      } else {
        assert rest[0][0] == frames[1];
        SeparatedCons(frames[0], rest);
      }
    }
  }

  /** A frame joined to the front of the first run keeps the runs separated. */
  lemma SeparatedMerge(x: int, rest: seq<seq<int>>)
    requires rest != [] && forall j :: 0 <= j < |rest| ==> rest[j] != []
    requires Separated(rest)
    ensures var r := [[x] + rest[0]] + rest[1..];
      (forall j :: 0 <= j < |r| ==> r[j] != []) && Separated(r)
  {
    var r := [[x] + rest[0]] + rest[1..];
    forall j | 0 < j < |r| ensures r[j][0] - r[j - 1][|r[j - 1]| - 1] != 1 {
      assert r[j] == rest[j];
      if j > 1 {
        assert r[j - 1] == rest[j - 1];
      } else {
        assert r[j - 1][|r[j - 1]| - 1] == rest[0][|rest[0]| - 1];
      }
    }
  }

  /** A frame that does not precede the first run starts a run of its own. */
  lemma SeparatedCons(x: int, rest: seq<seq<int>>)
    requires forall j :: 0 <= j < |rest| ==> rest[j] != []
    requires Separated(rest)
    requires rest != [] ==> rest[0][0] - x != 1
    ensures var r := [[x]] + rest;
      (forall j :: 0 <= j < |r| ==> r[j] != []) && Separated(r)
  {
    var r := [[x]] + rest;
    forall j | 0 < j < |r| ensures r[j][0] - r[j - 1][|r[j - 1]| - 1] != 1 {
      assert r[j] == rest[j - 1];
      if j > 1 {
        assert r[j - 1] == rest[j - 2];
      }
    }
  }

  /** The visit count of the source is the number of maximal runs. */
  lemma {:induction false} VisitCountIsRuns(frames: seq<int>)
    ensures VisitCount(frames) == |Runs(frames)|
  {
    if |frames| >= 2 {
      VisitCountIsRuns(frames[1..]);
      var head := if frames[1] - frames[0] != 1 then [0] else [];
      assert Breaks(frames) == head + Shift(Breaks(frames[1..]));
    }
  }

  /** Frames 5, 6, 7, 10, 11, 15 are three visits. */
  lemma VisitCountExample()
    ensures VisitCount([5, 6, 7, 10, 11, 15]) == 3
  {
    VisitCountBreaks([5, 6, 7, 10, 11, 15]);
    BreaksCons(5, [6, 7, 10, 11, 15]);
    BreaksCons(6, [7, 10, 11, 15]);
    BreaksCons(7, [10, 11, 15]);
    BreaksCons(10, [11, 15]);
    BreaksCons(11, [15]);
  }

  /** One more frame in front adds a break exactly when the next frame does
      not follow it. */
  lemma BreaksCons(x: int, rest: seq<int>)
    requires rest != []
    ensures |Breaks([x] + rest)| == (if rest[0] - x != 1 then 1 else 0) + |Breaks(rest)|
  {
    assert ([x] + rest)[1..] == rest;
  }

  /** `feeding_b.FRAME` */
  function Frames(rows: seq<Sample>): (r: seq<int>)
    ensures |r| == |rows|
    ensures forall k :: 0 <= k < |rows| ==> r[k] == rows[k].frame
  {
    seq(|rows|, k requires 0 <= k < |rows| => rows[k].frame)
  }

  // ------------------------------------------------ counts of one batch

  /** What one batch adds for its fish and day: frames in the feeding region
      (`feeding_size`), visits (`n_entries`) and rows in the window
      (`sum(feeding_filter)`). */
  datatype BatchCounts = BatchCounts(feedingSize: nat, visits: nat, numDfFeeding: nat)

  function CountsOf(rows: seq<Sample>, lo: int, hi: int, inRegion: Sample -> bool): (r: BatchCounts)
    ensures r.visits <= r.feedingSize <= r.numDfFeeding <= |rows|
    ensures r.visits == 0 <==> r.feedingSize == 0
  {
    var eligible := Window(rows, lo, hi);
    var feeding := Filter(eligible, inRegion);
    VisitCountBreaks(Frames(feeding));
    BatchCounts(|feeding|, VisitCount(Frames(feeding)), |eligible|)
  }

  /** The counts of `subplot_function` as written: the trailing error row is
      not removed, because the result of `batch.drop(...)` is discarded.
      An empty batch raises (`batch.FRAME.array[-1]`). */
  function SubplotCountsAsWritten(batch: seq<Sample>, lo: int, hi: int, inRegion: Sample -> bool): (r: Option<BatchCounts>)
    ensures r.Some? <==> batch != []
  {
    if batch == [] then None else Some(CountsOf(batch, lo, hi, inRegion))
  }

  /** The counts with the trailing error row dropped before the window is
      taken, as the check on `batch.x.array[-1]` intends. */
  function SubplotCounts(batch: seq<Sample>, lo: int, hi: int, inRegion: Sample -> bool): (r: Option<BatchCounts>)
    ensures r.Some? <==> batch != []
  {
    if batch == [] then None else Some(CountsOf(DropTrailingError(batch), lo, hi, inRegion))
  }

  /** A batch of one error row inside the window: as written, it is counted
      among the rows of the feeding period. */
  lemma TrailingErrorCounted()
    ensures var t := Sample(-1.0, 0.0, 3, 0.0, 0.0, 0.0);
      SubplotCountsAsWritten([t], 0, 10, (u: Sample) => false) == Some(BatchCounts(0, 0, 1))
      && SubplotCounts([t], 0, 10, (u: Sample) => false) == Some(BatchCounts(0, 0, 0))
  {
    var t := Sample(-1.0, 0.0, 3, 0.0, 0.0, 0.0);
    assert [t][1..] == [];
    assert Window([t], 0, 10) == [t];
    assert [t][..0] == [];
  }

  /** The counts are ordered: visits <= frames in the region <= rows in the
      window <= rows in the batch; and a trailing error row is never among
      the rows counted. */
  lemma SubplotCountsBounds(batch: seq<Sample>, lo: int, hi: int, inRegion: Sample -> bool)
    requires batch != []
    ensures var c := SubplotCounts(batch, lo, hi, inRegion).value;
      c.visits <= c.feedingSize <= c.numDfFeeding <= |batch|
    ensures IsError(batch[|batch| - 1]) ==>
      SubplotCounts(batch, lo, hi, inRegion) == Some(CountsOf(batch[..|batch| - 1], lo, hi, inRegion))
  {
    var eligible := Window(DropTrailingError(batch), lo, hi);
    VisitCountBreaks(Frames(Filter(eligible, inRegion)));
  }

  /** With the trailing error row dropped, a batch read with `drop_errors`
      holds no error row at all. */
  lemma NoErrorsAfterDrop(rows: seq<RawRow>)
    ensures forall k :: 0 <= k < |DropTrailingError(ReadBatchCsv(rows, true))| ==>
      !IsError(DropTrailingError(ReadBatchCsv(rows, true))[k])
  {
    var b := ReadBatchCsv(rows, true);
    ReadBatchCsvRules(rows, true);
    var d := DropTrailingError(b);
    forall k | 0 <= k < |d| ensures !IsError(d[k]) {
      if k == |b| - 1 {
        assert d == b && !IsError(b[|b| - 1]);
      } else {
        assert d[k] == b[k];
      }
    }
  }

  // ------------------------------------------------ the accumulators

  /** Python's `xs[i]` on a list of length `n`: a negative index counts from
      the end. */
  function PyIndex(i: int, n: nat): int
  {
    if i < 0 then i + n else i
  }

  /** The value of `date`, an absent date counting as 0. */
  function Get(m: map<string, int>, date: string): int
  {
    if date in m then m[date] else 0
  }

  /** One `+=` of `update_feeding_and_visits` on one dictionary. */
  function Accumulate(m: map<string, int>, date: string, v: int): (r: map<string, int>)
    ensures r.Keys == m.Keys + {date}
  {
    m[date := Get(m, date) + v]
  }

  /** The entry for `date` grows by exactly `v`, every other entry is kept. */
  lemma AccumulateEntries(m: map<string, int>, date: string, v: int, other: string)
    ensures Get(Accumulate(m, date, v), date) == Get(m, date) + v
    ensures other != date ==> Get(Accumulate(m, date, v), other) == Get(m, other)
    ensures other != date ==> (other in Accumulate(m, date, v) <==> other in m)
  {
  }

  /** Two additions to the same entry add up, and additions to two entries
      may be made in either order. */
  lemma AccumulateAdditive(m: map<string, int>, d1: string, a: int, d2: string, b: int)
    ensures d1 == d2 ==> Accumulate(Accumulate(m, d1, a), d2, b) == Accumulate(m, d1, a + b)
    ensures Accumulate(Accumulate(m, d1, a), d2, b) == Accumulate(Accumulate(m, d2, b), d1, a)
  {
    if d1 != d2 {
      var x := Accumulate(Accumulate(m, d1, a), d2, b);
      var y := Accumulate(Accumulate(m, d2, b), d1, a);
      assert x.Keys == y.Keys;
      forall k | k in x ensures x[k] == y[k] {
        assert Get(Accumulate(m, d1, a), d2) == Get(m, d2);
        assert Get(Accumulate(m, d2, b), d1) == Get(m, d1);
      }
    }
  }

  /** A sequence of `(date, value)` additions applied in order. */
  function AccumulateAll(m: map<string, int>, updates: seq<(string, int)>): (r: map<string, int>)
    decreases |updates|
  {
    if updates == [] then m else AccumulateAll(Accumulate(m, updates[0].0, updates[0].1), updates[1..])
  }

  /** The sum of the values added to `date`. */
  function Total(updates: seq<(string, int)>, date: string): int
  {
    if updates == [] then 0 else (if updates[0].0 == date then updates[0].1 else 0) + Total(updates[1..], date)
  }

  /** After any sequence of additions an entry holds exactly the sum of what
      was added to it, and it exists exactly when it existed or was added to. */
  lemma {:induction false} AccumulateAllTotals(m: map<string, int>, updates: seq<(string, int)>, date: string)
    ensures Get(AccumulateAll(m, updates), date) == Get(m, date) + Total(updates, date)
    ensures date in AccumulateAll(m, updates) <==> date in m || exists k :: 0 <= k < |updates| && updates[k].0 == date
    decreases |updates|
  {
    if updates != [] {
      var m' := Accumulate(m, updates[0].0, updates[0].1);
      AccumulateAllTotals(m', updates[1..], date);
      AccumulateEntries(m, updates[0].0, updates[0].1, date);
      if exists k :: 0 <= k < |updates[1..]| && updates[1..][k].0 == date {
        var k :| 0 <= k < |updates[1..]| && updates[1..][k].0 == date;
        assert updates[k + 1].0 == date;
      }
      if exists k :: 0 <= k < |updates| && updates[k].0 == date {
        var k :| 0 <= k < |updates| && updates[k].0 == date;
        if k > 0 {
          assert updates[1..][k - 1].0 == date;
        }
      }
    }
  }

  /** `N` empty dictionaries. */
  function EmptyTables(n: nat): (r: seq<map<string, int>>)
    ensures |r| == n && forall i :: 0 <= i < n ==> r[i] == map[]
  {
    seq(n, i => map[])
  }

  /** The object that accumulates feeding statistics for every fish. */
  class FeedingTrajectory {
    /** `N_fishes` */
    const nFishes: nat
    /** The table of feeding periods read at construction; `None` when no table exists. */
    const startEndTimes: Option<map<string, (int, int)>>
    /** `FRAMES_PER_SECOND` and `BATCH_SIZE` */
    const fps: int
    const batchSize: int
    var feedingTimes: seq<map<string, int>>
    var visits: seq<map<string, int>>
    var numDfFeeding: seq<map<string, int>>

    /** One dictionary per fish in each table, and the three dictionaries of
        a fish have the same days. */
    predicate Valid()
      reads this
    {
      |feedingTimes| == nFishes && |visits| == nFishes && |numDfFeeding| == nFishes
      && forall i :: 0 <= i < nFishes ==>
        feedingTimes[i].Keys == visits[i].Keys && visits[i].Keys == numDfFeeding[i].Keys
    }

    constructor (nFishes: nat, startEndTimes: Option<map<string, (int, int)>>, fps: int, batchSize: int)
      ensures Valid()
      ensures this.nFishes == nFishes && this.startEndTimes == startEndTimes
      ensures this.fps == fps && this.batchSize == batchSize
      ensures feedingTimes == EmptyTables(nFishes) && visits == EmptyTables(nFishes)
      ensures numDfFeeding == EmptyTables(nFishes)
    {
      this.nFishes := nFishes;
      this.startEndTimes := startEndTimes;
      this.fps := fps;
      this.batchSize := batchSize;
      new;
      ResetData();
    }

    /** `reset_data`: one empty dictionary per fish in each table. */
    method ResetData()
      modifies this
      ensures Valid()
      ensures feedingTimes == EmptyTables(nFishes) && visits == EmptyTables(nFishes)
      ensures numDfFeeding == EmptyTables(nFishes)
    {
      feedingTimes := EmptyTables(nFishes);
      visits := EmptyTables(nFishes);
      numDfFeeding := EmptyTables(nFishes);
    }

    /** `update_feeding_and_visits`: adds the three counts to the entries of
        `(fish_id, date)`, an absent day starting from 0. A fish index
        outside the list raises IndexError (`ok` is false) and changes
        nothing. */
    method UpdateFeedingAndVisits(fishId: int, date: string, feedingSize: int, visitCount: int, numDf: int)
      returns (ok: bool)
      requires Valid()
      modifies this
      ensures Valid()
      ensures ok <==> -(nFishes as int) <= fishId < nFishes
      ensures ok ==> var i := PyIndex(fishId, nFishes);
        feedingTimes == old(feedingTimes)[i := Accumulate(old(feedingTimes)[i], date, feedingSize)]
        && visits == old(visits)[i := Accumulate(old(visits)[i], date, visitCount)]
        && numDfFeeding == old(numDfFeeding)[i := Accumulate(old(numDfFeeding)[i], date, numDf)]
      ensures !ok ==> feedingTimes == old(feedingTimes) && visits == old(visits) && numDfFeeding == old(numDfFeeding)
    {
      if !(-(nFishes as int) <= fishId < nFishes) {
        return false;
      }
      var i := PyIndex(fishId, nFishes);
      feedingTimes := feedingTimes[i := Accumulate(feedingTimes[i], date, feedingSize)];
      visits := visits[i := Accumulate(visits[i], date, visitCount)];
      numDfFeeding := numDfFeeding[i := Accumulate(numDfFeeding[i], date, numDf)];
      ok := true;
    }

    /** The bookkeeping of `subplot_function` for one batch: the window of
        the feeding period, the rows in the region among those of the
        window, their visits, and the update of the accumulators. A day
        missing from the table of feeding periods or an empty batch raises
        before anything is recorded. */
    method RecordBatch(batch: seq<Sample>, date: string, batchNumber: int, fishId: int, inRegion: Sample -> bool)
      returns (ok: bool)
      requires Valid()
      modifies this
      ensures Valid()
      ensures var w := GetStartEndIndex(startEndTimes, date, batchNumber, fps, batchSize);
        ok <==> w.Ok? && batch != [] && -(nFishes as int) <= fishId < nFishes
      ensures ok ==>
        var (lo, hi) := GetStartEndIndex(startEndTimes, date, batchNumber, fps, batchSize).value;
        var c := SubplotCounts(batch, lo, hi, inRegion).value;
        var i := PyIndex(fishId, nFishes);
        feedingTimes == old(feedingTimes)[i := Accumulate(old(feedingTimes)[i], date, c.feedingSize)]
        && visits == old(visits)[i := Accumulate(old(visits)[i], date, c.visits)]
        && numDfFeeding == old(numDfFeeding)[i := Accumulate(old(numDfFeeding)[i], date, c.numDfFeeding)]
      ensures !ok ==> feedingTimes == old(feedingTimes) && visits == old(visits) && numDfFeeding == old(numDfFeeding)
    {
      var w := GetStartEndIndex(startEndTimes, date, batchNumber, fps, batchSize);
      if w.Err? || batch == [] {
        return false;
      }
      var (lo, hi) := w.value;
      var c := SubplotCounts(batch, lo, hi, inRegion).value;
      ok := UpdateFeedingAndVisits(fishId, date, c.feedingSize, c.visits, c.numDfFeeding);
    }
  }

  // ------------------------------------------------ get_df_idx_from_time

  /** `sum([int(t) * f for (t, f) in zip(parts, weights)])`: pairs beyond the
      shorter list are ignored; `None` is the ValueError of a part that is
      not an integer. */
  function WeightedSum(parts: seq<string>, weights: seq<int>): Option<int>
  {
    if parts == [] || weights == [] then Some(0)
    else
      var head := ParseInt(parts[0]);
      var rest := WeightedSum(parts[1..], weights[1..]);
      if head.Some? && rest.Some? then Some(head.value * weights[0] + rest.value) else None
  }

  /** `hh:mm` in seconds. */
  function TimeSeconds(time: string): Option<int>
  {
    WeightedSum(Split(time, ':'), [3600, 60])
  }

  /** `hhmmss` in seconds. */
  function StartSeconds(startTime: string): Option<int>
  {
    WeightedSum(Chunks2(startTime), [3600, 60, 1])
  }

  /** `get_df_idx_from_time(time, start_time)`: the number of seconds from
      the start time to the time. */
  function GetDfIdxFromTime(time: string, startTime: string): (r: Option<int>)
    ensures r.Some? <==> TimeSeconds(time).Some? && StartSeconds(startTime).Some?
  {
    var t, s := TimeSeconds(time), StartSeconds(startTime);
    if t.Some? && s.Some? then Some(t.value - s.value) else None
  }

  /** Zipping with fewer weights than parts ignores the extra parts. */
  lemma {:induction false} WeightedSumTruncates(parts: seq<string>, extra: seq<string>, weights: seq<int>)
    requires |parts| == |weights|
    ensures WeightedSum(parts + extra, weights) == WeightedSum(parts, weights)
  {
    if parts != [] {
      assert (parts + extra)[0] == parts[0] && (parts + extra)[1..] == parts[1..] + extra;
      WeightedSumTruncates(parts[1..], extra, weights[1..]);
    }
  }

  /** A numeric first part adds its weighted value to the sum of the rest. */
  lemma WeightedSumCons(a: string, parts: seq<string>, w: int, weights: seq<int>, rest: int)
    requires IsNumeric(a) && WeightedSum(parts, weights) == Some(rest)
    ensures WeightedSum([a] + parts, [w] + weights) == Some(DigitsValue(a) * w + rest)
  {
    assert ([a] + parts)[1..] == parts && ([w] + weights)[1..] == weights;
  }

  /** Two numeric parts weighted by two factors. */
  lemma WeightedSumTwo(a: string, b: string, wa: int, wb: int)
    requires IsNumeric(a) && IsNumeric(b)
    ensures WeightedSum([a, b], [wa, wb]) == Some(DigitsValue(a) * wa + DigitsValue(b) * wb)
  {
    assert WeightedSum([], []) == Some(0);
    WeightedSumCons(b, [], wb, [], 0);
    assert [b] + [] == [b] && [wb] + [] == [wb];
    WeightedSumCons(a, [b], wa, [wb], DigitsValue(b) * wb);
    assert [a] + [b] == [a, b] && [wa] + [wb] == [wa, wb];
  }

  lemma WeightedSumThree(a: string, b: string, c: string, wa: int, wb: int, wc: int)
    requires IsNumeric(a) && IsNumeric(b) && IsNumeric(c)
    ensures WeightedSum([a, b, c], [wa, wb, wc]) == Some(DigitsValue(a) * wa + DigitsValue(b) * wb + DigitsValue(c) * wc)
  {
    assert [a, b, c][1..] == [b, c];
    assert [wa, wb, wc][1..] == [wb, wc];
    WeightedSumTwo(b, c, wb, wc);
  }

  /** A digit string holds no separator character. */
  lemma DigitsWithout(s: string, sep: char)
    requires AllDigits(s) && !IsDigit(sep)
    ensures sep !in s
  {
    forall k | 0 <= k < |s| ensures s[k] != sep {
      assert IsDigit(s[k]);
    }
  }

  /** `"hh:mm".split(":")` */
  lemma SplitClock(hh: string, mm: string)
    requires IsNumeric(hh) && IsNumeric(mm)
    ensures Split(hh + ":" + mm, ':') == [hh, mm]
  {
    DigitsWithout(hh, ':');
    DigitsWithout(mm, ':');
    SplitAtSeparator(hh, mm, ':');
    SplitWithoutSeparator(hh, ':');
    SplitWithoutSeparator(mm, ':');
    assert hh + ":" + mm == hh + [':'] + mm;
  }

  /** `hh:mm` reads as `hh` hours and `mm` minutes. */
  lemma TimeSecondsValue(hh: string, mm: string)
    requires IsNumeric(hh) && IsNumeric(mm)
    ensures TimeSeconds(hh + ":" + mm) == Some(DigitsValue(hh) * 3600 + DigitsValue(mm) * 60)
  {
    SplitClock(hh, mm);
    WeightedSumTwo(hh, mm, 3600, 60);
  }

  /** Anything after a second colon is ignored: `zip` stops at the two weights. */
  lemma TimeSecondsIgnoresSeconds(hh: string, mm: string, extra: string)
    requires IsNumeric(hh) && IsNumeric(mm)
    ensures TimeSeconds(hh + ":" + mm + ":" + extra) == TimeSeconds(hh + ":" + mm)
  {
    SplitClock(hh, mm);
    SplitAtSeparator(hh + ":" + mm, extra, ':');
    assert hh + ":" + mm + ":" + extra == (hh + ":" + mm) + [':'] + extra;
    WeightedSumTruncates([hh, mm], Split(extra, ':'), [3600, 60]);
  }

  /** `hhmmss` reads as hours, minutes and seconds. */
  lemma StartSecondsValue(hh: string, mm: string, ss: string)
    requires |hh| == 2 && |mm| == 2 && |ss| == 2
    requires IsNumeric(hh) && IsNumeric(mm) && IsNumeric(ss)
    ensures StartSeconds(hh + mm + ss) == Some(DigitsValue(hh) * 3600 + DigitsValue(mm) * 60 + DigitsValue(ss))
  {
    ChunksOfThree(hh, mm, ss);
    WeightedSumThree(hh, mm, ss, 3600, 60, 1);
  }

  lemma ChunksOfThree(a: string, b: string, c: string)
    requires |a| == 2 && |b| == 2 && |c| == 2
    ensures Chunks2(a + b + c) == [a, b, c]
  {
    ChunksCons(b, c);
    assert Chunks2(c) == [c];
    ChunksCons(a, b + c);
    assert a + b + c == a + (b + c);
  }

  /** A first piece of two characters comes off the front. */
  lemma ChunksCons(x: string, rest: string)
    requires |x| == 2 && rest != []
    ensures Chunks2(x + rest) == [x] + Chunks2(rest)
  {
    var s := x + rest;
    assert s[..2] == x && s[2..] == rest;
  }

  /** The offset of `hh:mm` from the start `hhmmss` is the difference of the
      two clock times; it is 0 when `hh:mm` is the start time. */
  lemma DfIdxFromTimeValue(hh: string, mm: string, ss: string, time: string, start: string)
    requires |hh| == 2 && |mm| == 2 && |ss| == 2
    requires IsNumeric(hh) && IsNumeric(mm) && IsNumeric(ss)
    requires time == hh + ":" + mm && start == hh + mm + ss
    ensures GetDfIdxFromTime(time, start) == Some(-(DigitsValue(ss) as int))
  {
    var clock := DigitsValue(hh) * 3600 + DigitsValue(mm) * 60;
    TimeSecondsValue(hh, mm);
    StartSecondsValue(hh, mm, ss);
    DfIdxOf(time, start, clock, clock + DigitsValue(ss));
  }

  /** For any time `hh:mm` and any start time `HHMMSS` (two digits per
      field), the offset is the time in seconds minus the start time in
      seconds: `hours * 3600 + minutes * 60 - (startHours * 3600 +
      startMinutes * 60 + startSeconds)`, the digit values named by the
      integer parameters. */
  lemma DfIdxFromTimeClock(hh: string, mm: string, sh: string, sm: string, ss: string,
                           hours: int, minutes: int, startHours: int, startMinutes: int, startSeconds: int)
    requires IsNumeric(hh) && IsNumeric(mm)
    requires |sh| == 2 && |sm| == 2 && |ss| == 2
    requires IsNumeric(sh) && IsNumeric(sm) && IsNumeric(ss)
    requires hours == DigitsValue(hh) && minutes == DigitsValue(mm)
    requires startHours == DigitsValue(sh) && startMinutes == DigitsValue(sm) && startSeconds == DigitsValue(ss)
    ensures GetDfIdxFromTime(hh + ":" + mm, sh + sm + ss)
         == Some(hours * 3600 + minutes * 60 - (startHours * 3600 + startMinutes * 60 + startSeconds))
  {
    TimeSecondsOf(hh + ":" + mm, hh, mm, hours, minutes);
    StartSecondsOf(sh + sm + ss, sh, sm, ss, startHours, startMinutes, startSeconds);
    DfIdxOfSums(hh + ":" + mm, sh + sm + ss, hours, minutes, startHours, startMinutes, startSeconds);
  }

  lemma TimeSecondsOf(time: string, hh: string, mm: string, hours: int, minutes: int)
    requires IsNumeric(hh) && IsNumeric(mm) && time == hh + ":" + mm
    requires hours == DigitsValue(hh) && minutes == DigitsValue(mm)
    ensures TimeSeconds(time) == Some(hours * 3600 + minutes * 60)
  {
    TimeSecondsValue(hh, mm);
  }

  lemma StartSecondsOf(start: string, sh: string, sm: string, ss: string, hours: int, minutes: int, seconds: int)
    requires |sh| == 2 && |sm| == 2 && |ss| == 2
    requires IsNumeric(sh) && IsNumeric(sm) && IsNumeric(ss) && start == sh + sm + ss
    requires hours == DigitsValue(sh) && minutes == DigitsValue(sm) && seconds == DigitsValue(ss)
    ensures StartSeconds(start) == Some(hours * 3600 + minutes * 60 + seconds)
  {
    StartSecondsValue(sh, sm, ss);
  }

  /** The clock arithmetic kept apart from the digit strings. */
  lemma DfIdxOfSums(time: string, start: string, hours: int, minutes: int, startHours: int, startMinutes: int, startSeconds: int)
    requires TimeSeconds(time) == Some(hours * 3600 + minutes * 60)
    requires StartSeconds(start) == Some(startHours * 3600 + startMinutes * 60 + startSeconds)
    ensures GetDfIdxFromTime(time, start)
         == Some(hours * 3600 + minutes * 60 - (startHours * 3600 + startMinutes * 60 + startSeconds))
  {
    DfIdxOf(time, start, hours * 3600 + minutes * 60, startHours * 3600 + startMinutes * 60 + startSeconds);
  }

  lemma DfIdxOf(time: string, startTime: string, t: int, s: int)
    requires TimeSeconds(time) == Some(t) && StartSeconds(startTime) == Some(s)
    ensures GetDfIdxFromTime(time, startTime) == Some(t - s)
  {
  }

  /** `"00"` reads as 0: a time equal to a start time `hhmm00` has offset 0. */
  lemma DfIdxFromTimeZero(hh: string, mm: string)
    requires |hh| == 2 && |mm| == 2 && IsNumeric(hh) && IsNumeric(mm)
    ensures GetDfIdxFromTime(hh + ":" + mm, hh + mm + "00") == Some(0)
  {
    assert IsNumeric("00");
    assert DigitsValue("00") == 0 by {
      assert "00"[..1] == "0" && "0"[..0] == [];
    }
    DfIdxFromTimeValue(hh, mm, "00", hh + ":" + mm, hh + mm + "00");
  }

  // ------------------------------------------------ the feeding-day key

  /** The day key of the feeding-time table built from a `dd.mm.yy` date, as
      written: `"20%s%02d%02d_%s"` with the year printed unpadded. `None` is
      the ValueError of a part that is not an integer or the TypeError of a
      date that does not have exactly three parts. */
  function DateKeyAsWritten(d: string, feedingTime: string): Option<string>
  {
    var parts := Split(d, '.');
    if |parts| != 3 then None
    else
      var day, month, year := ParseInt(parts[0]), ParseInt(parts[1]), ParseInt(parts[2]);
      if day.Some? && month.Some? && year.Some? then
        Some("20" + IntToString(year.value) + FormatPadded(month.value, 2) + FormatPadded(day.value, 2) + "_" + feedingTime)
      else None
  }

  /** The day key with the year padded to two digits, like a day folder name. */
  function DateKey(d: string, feedingTime: string): (r: Option<string>)
    ensures r.Some? <==> DateKeyAsWritten(d, feedingTime).Some?
  {
    var parts := Split(d, '.');
    if |parts| != 3 then None
    else
      var day, month, year := ParseInt(parts[0]), ParseInt(parts[1]), ParseInt(parts[2]);
      if day.Some? && month.Some? && year.Some? then
        Some("20" + FormatPadded(year.value, 2) + FormatPadded(month.value, 2) + FormatPadded(day.value, 2) + "_" + feedingTime)
      else None
  }

  /** `dd.mm.yy` written with two-digit fields. */
  function DateText(day: nat, month: nat, year: nat): string
  {
    FormatPadded(day, 2) + "." + FormatPadded(month, 2) + "." + FormatPadded(year, 2)
  }

  lemma DateTextSplit(day: nat, month: nat, year: nat)
    ensures Split(DateText(day, month, year), '.') == [FormatPadded(day, 2), FormatPadded(month, 2), FormatPadded(year, 2)]
  {
    var a, b, c := FormatPadded(day, 2), FormatPadded(month, 2), FormatPadded(year, 2);
    DigitsWithout(a, '.');
    DigitsWithout(b, '.');
    DigitsWithout(c, '.');
    assert DateText(day, month, year) == (a + ['.'] + b) + ['.'] + c;
    SplitAtSeparator(a + ['.'] + b, c, '.');
    SplitAtSeparator(a, b, '.');
    SplitWithoutSeparator(a, '.');
    SplitWithoutSeparator(b, '.');
    SplitWithoutSeparator(c, '.');
  }

  /** Both keys of a date written with two-digit fields, before formatting. */
  lemma DateKeysOf(day: nat, month: nat, year: nat, feedingTime: string)
    ensures DateKeyAsWritten(DateText(day, month, year), feedingTime)
      == Some("20" + IntToString(year) + FormatPadded(month, 2) + FormatPadded(day, 2) + "_" + feedingTime)
    ensures DateKey(DateText(day, month, year), feedingTime)
      == Some("20" + FormatPadded(year, 2) + FormatPadded(month, 2) + FormatPadded(day, 2) + "_" + feedingTime)
  {
    DateTextSplit(day, month, year);
    ParseFormatPadded(day, 2);
    ParseFormatPadded(month, 2);
    ParseFormatPadded(year, 2);
  }

  /** Eight characters made of `20` and three two-digit fields are digits. */
  lemma EightDigits(y: string, m: string, d: string)
    requires |y| == 2 && |m| == 2 && |d| == 2 && AllDigits(y) && AllDigits(m) && AllDigits(d)
    ensures IsNumeric("20" + y + m + d)
  {
    var p := "20" + y + m + d;
    forall k | 0 <= k < 8 ensures IsDigit(p[k]) {
      if k < 2 {
      } else if k < 4 {
        assert p[k] == y[k - 2];
      } else if k < 6 {
        assert p[k] == m[k - 4];
      } else {
        assert p[k] == d[k - 6];
      }
    }
  }

  /** The corrected key of a two-digit date is `20yymmdd_` followed by the
      feeding time: its first eight characters are digits, as in a day
      folder name, and they read back as the year, month and day. */
  lemma DateKeyRoundTrip(day: nat, month: nat, year: nat, feedingTime: string)
    requires day < 100 && month < 100 && year < 100
    ensures DateKey(DateText(day, month, year), feedingTime).Some?
    ensures var key := DateKey(DateText(day, month, year), feedingTime).value;
      |key| == 9 + |feedingTime| && IsNumeric(GetDate(key)) && key[8] == '_' && key[9..] == feedingTime
      && ParseInt(key[2..4]) == Some(year as int) && ParseInt(key[4..6]) == Some(month as int)
      && ParseInt(key[6..8]) == Some(day as int)
  {
    DateKeysOf(day, month, year, feedingTime);
    ParseFormatPadded(day, 2);
    ParseFormatPadded(month, 2);
    ParseFormatPadded(year, 2);
    FormatPaddedWidth(day, 2);
    FormatPaddedWidth(month, 2);
    FormatPaddedWidth(year, 2);
    var y, m, d := FormatPadded(year, 2), FormatPadded(month, 2), FormatPadded(day, 2);
    var key := "20" + y + m + d + "_" + feedingTime;
    KeyLayout(y, m, d, feedingTime, key);
    EightDigits(y, m, d);
  }

  /** Where the fields sit in `20yymmdd_t`. */
  lemma KeyLayout(y: string, m: string, d: string, t: string, key: string)
    requires |y| == 2 && |m| == 2 && |d| == 2 && key == "20" + y + m + d + "_" + t
    ensures |key| == 9 + |t| && key[..8] == "20" + y + m + d && key[8] == '_' && key[9..] == t
    ensures key[2..4] == y && key[4..6] == m && key[6..8] == d
  {
  }

  /** Two-digit numbers print with two digits and no padding. */
  lemma TwoDigitString(year: nat)
    requires 10 <= year < 100
    ensures FormatPadded(year, 2) == IntToString(year)
  {
    var s := NatToString(year);
    assert s == NatToString(year / 10) + [DigitChar(year % 10)];
  }

  /** From 2010 on, the key as written is the corrected key. */
  lemma DateKeyAgreesFrom2010(day: nat, month: nat, year: nat, feedingTime: string)
    requires 10 <= year < 100
    ensures DateKeyAsWritten(DateText(day, month, year), feedingTime) == DateKey(DateText(day, month, year), feedingTime)
  {
    DateKeysOf(day, month, year, feedingTime);
    TwoDigitString(year);
  }

  /** Small numbers printed with and without padding. */
  lemma SmallNumbers()
    ensures FormatPadded(2, 2) == "02" && FormatPadded(1, 2) == "01" && FormatPadded(7, 2) == "07"
    ensures IntToString(7) == "7"
  {
    assert NatToString(2) == "2" && NatToString(1) == "1" && NatToString(7) == "7";
    assert Zeros(1) == "0";
  }

  /** A date before 2010 loses the zero of its year: `02.01.07` becomes
      `2070102_...`, whose first eight characters are not a date, so no day
      folder name can equal it; the corrected key is `20070102_...`. */
  lemma DateKeyUnpaddedYear(feedingTime: string)
    ensures DateText(2, 1, 7) == "02.01.07"
    ensures DateKeyAsWritten(DateText(2, 1, 7), feedingTime) == Some("2070102_" + feedingTime)
    ensures DateKey(DateText(2, 1, 7), feedingTime) == Some("20070102_" + feedingTime)
    ensures !IsNumeric(GetDate("2070102_" + feedingTime))
  {
    SampleDateText();
    SampleKeyAsWritten(feedingTime);
    SampleKeyCorrected(feedingTime);
    SampleKeyNotDate(feedingTime);
  }

  /** The sample date written out. */
  lemma SampleDateText()
    ensures DateText(2, 1, 7) == "02.01.07"
  {
    SmallNumbers();
  }

  /** The as-written key does not start with eight digits. */
  lemma SampleKeyNotDate(feedingTime: string)
    ensures !IsNumeric(GetDate("2070102_" + feedingTime))
  {
    var key := "2070102_" + feedingTime;
    assert GetDate(key) == "2070102_" && !IsDigit(GetDate(key)[7]);
  }

  /** The key of `02.01.07` as the code builds it. */
  lemma SampleKeyAsWritten(feedingTime: string)
    ensures DateKeyAsWritten(DateText(2, 1, 7), feedingTime) == Some("2070102_" + feedingTime)
  {
    SmallNumbers();
    DateKeysOf(2, 1, 7, feedingTime);
    assert "20" + "7" + "01" + "02" + "_" + feedingTime == "2070102_" + feedingTime;
  }

  /** The key of `02.01.07` with the year padded. */
  lemma SampleKeyCorrected(feedingTime: string)
    ensures DateKey(DateText(2, 1, 7), feedingTime) == Some("20070102_" + feedingTime)
  {
    SmallNumbers();
    DateKeysOf(2, 1, 7, feedingTime);
    assert "20" + "07" + "01" + "02" + "_" + feedingTime == "20070102_" + feedingTime;
  }
}
