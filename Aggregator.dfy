/** The arithmetic of `plot_moving_avg` and `plot_exit_pie`: the stride
    `STEP`, the bucket end dates, each bucket's breakdown of exits by
    destination as exact proportions, and the one-count-per-record pie table. */
module Aggregator {
  import opened Results
  import opened Records
  import opened Dates

  // ---------------------------------------------------------------------
  // Stride and bucket positions
  // ---------------------------------------------------------------------

  /** `STEP = days_back // 90 or 1`. Python's `//` floors; Dafny's `/` is
      Euclidean, and the two agree for the positive divisor 90. A zero
      quotient falls back to 1; a negative one is kept. */
  function Step(daysBack: int): (step: int)
    ensures step != 0
    ensures 0 <= daysBack < 90 ==> step == 1
    ensures (daysBack >= 90 || daysBack < 0) ==> 90 * step <= daysBack < 90 * step + 90
    ensures step > 0 <==> daysBack >= 0
  {
    var q := daysBack / 90;
    if q == 0 then 1 else q
  }

  /** Python's `range(start, stop, step)` for a non-zero step: start,
      start + step, ... while strictly before `stop` in the step's direction. */
  function PyRange(start: int, stop: int, step: int): (r: seq<int>)
    requires step != 0
    ensures |r| > 0 ==> r[0] == start
    ensures step > 0 ==> forall k :: 0 <= k < |r| ==> start <= r[k] < stop
    ensures step < 0 ==> forall k :: 0 <= k < |r| ==> stop < r[k] <= start
    ensures |r| == 0 <==> (if step > 0 then stop <= start else start <= stop)
    decreases if step > 0 then stop - start else start - stop
  {
    if (step > 0 && start < stop) || (step < 0 && start > stop) then
      [start] + PyRange(start + step, stop, step)
    else
      []
  }

  /** The k-th value of a range is start + k * step. */
  lemma {:induction false} PyRangeAt(start: int, stop: int, step: int, k: nat)
    requires step != 0
    requires k < |PyRange(start, stop, step)|
    ensures PyRange(start, stop, step)[k] == start + k * step
    decreases k
  {
    if k > 0 {
      PyRangeAt(start + step, stop, step, k - 1);
      assert PyRange(start, stop, step)[k] == PyRange(start + step, stop, step)[k - 1];
      assert start + step + (k - 1) * step == start + k * step;
    }
  }

  /** The range stops at the first value start + n * step that reaches `stop`. */
  lemma {:induction false} PyRangeStops(start: int, stop: int, step: int)
    requires step != 0
    ensures step > 0 ==> start + |PyRange(start, stop, step)| * step >= stop
    ensures step < 0 ==> start + |PyRange(start, stop, step)| * step <= stop
    decreases if step > 0 then stop - start else start - stop
  {
    var r := PyRange(start, stop, step);
    if r != [] {
      var n := |PyRange(start + step, stop, step)|;
      PyRangeStops(start + step, stop, step);
      assert |r| == n + 1;
      assert start + (n + 1) * step == start + step + n * step;
    }
  }

  /** The bucket end dates `last - i` for each `i` the loop visits. */
  function Ends(last: int, idx: seq<int>): (ends: seq<int>)
    ensures |ends| == |idx|
    ensures forall k :: 0 <= k < |idx| ==> ends[k] == last - idx[k]
  {
    seq(|idx|, k requires 0 <= k < |idx| => last - idx[k])
  }

  /** The values of `i` in `for i in range(0, days_back, STEP)`: from 0
      towards days_back, never reaching it; a negative days_back still visits
      the offset 0. */
  function Offsets(daysBack: int): (offsets: seq<int>)
    ensures |offsets| > 0 ==> offsets[0] == 0
    ensures daysBack >= 0 ==> forall k :: 0 <= k < |offsets| ==> 0 <= offsets[k] < daysBack
    ensures daysBack < 0 ==> |offsets| > 0 && forall k :: 0 <= k < |offsets| ==> daysBack < offsets[k] <= 0
  {
    PyRange(0, daysBack, Step(daysBack))
  }

  /** For days_back >= 0 there are ceil(days_back / STEP) buckets: STEP is
      max(1, days_back // 90) and the offsets are 0, STEP, 2 STEP, ... below
      days_back (none when days_back is 0). */
  lemma BucketCount(daysBack: int)
    requires daysBack >= 0
    ensures Step(daysBack) >= 1
    ensures Step(daysBack) == if daysBack / 90 == 0 then 1 else daysBack / 90
    ensures var n, s := |Offsets(daysBack)|, Step(daysBack);
      n * s >= daysBack && (n == 0 || (n - 1) * s < daysBack)
    ensures |Offsets(daysBack)| == (daysBack + Step(daysBack) - 1) / Step(daysBack)
    ensures |Offsets(daysBack)| == 0 <==> daysBack == 0
  {
    var s := Step(daysBack);
    var r := Offsets(daysBack);
    PyRangeStops(0, daysBack, s);
    if r != [] {
      PyRangeAt(0, daysBack, s, |r| - 1);
    }
    DivBetween(daysBack + s - 1, s, |r|);
  }

  /** Division is pinned down by bracketing: n * s <= x < n * s + s. */
  lemma DivBetween(x: int, s: int, n: int)
    requires s > 0
    requires n * s <= x < n * s + s
    ensures x / s == n
  {
    var q, m := x / s, x % s;
    assert x == q * s + m && 0 <= m < s;
    if q > n {
      MulMonotone(n + 1, q, s);
      assert false;
    } else if q < n {
      MulMonotone(q + 1, n, s);
      assert false;
    }
  }

  lemma MulMonotone(a: int, b: int, s: int)
    requires a <= b && 0 <= s
    ensures a * s <= b * s
  {
    assert b * s - a * s == (b - a) * s;
  }

  /** days_back = 180 gives STEP = 2 and the 90 offsets 0, 2, ..., 178. */
  lemma HalfYearExample(daysBack: int)
    requires daysBack == 180
    ensures Step(daysBack) == 2
    ensures |Offsets(daysBack)| == 90
    ensures forall k :: 0 <= k < 90 ==> Offsets(daysBack)[k] == 2 * k
  {
    BucketCount(daysBack);
    var s := Step(daysBack);
    assert s == 2;
    var n := |PyRange(0, daysBack, s)|;
    assert n * 2 >= 180 && (n == 0 || (n - 1) * 2 < 180);
    forall k | 0 <= k < 90 ensures Offsets(daysBack)[k] == 2 * k {
      PyRangeAt(0, daysBack, s, k);
    }
  }

  // ---------------------------------------------------------------------
  // Per-bucket breakdown
  // ---------------------------------------------------------------------

  /** One row of the moving-average table: the bucket's end date (the row
      index) and the proportion of each destination. */
  datatype Bucket = Bucket(end: int, breakdown: map<string, real>)

  /** `df[(df['date'] > start) & (df['date'] <= end)]` with start = end - m:
      the fetched records dated in (end - m, end]. */
  function Window(fetched: seq<ExitRecord>, m: int, end: int): (w: seq<ExitRecord>)
    ensures |w| <= |fetched|
    ensures forall k :: 0 <= k < |w| ==> end - m < w[k].date <= end
  {
    Between(fetched, end - m, end)
  }

  /** `{dest: count(dest) / n_exits for dest in dests}`. Python's `int / int`
      raises on a zero divisor, so a bucket with no exits is an error as soon
      as there is any destination to divide for. */
  function Breakdown(sub: seq<ExitRecord>, dests: seq<string>): (r: Result<map<string, real>>)
    ensures r.Err? <==> |dests| > 0 && |sub| == 0
    ensures r.Err? ==> r.error == ZeroDivision
    ensures r.Ok? ==> forall d :: d in r.value <==> d in dests
  {
    if |dests| > 0 && |sub| == 0 then Err(ZeroDivision)
    else Ok(map d | d in dests :: Share(Count(sub, d), |sub|))
  }

  /** `count / total` as an exact real. */
  function Share(count: nat, total: nat): real
    requires total > 0
  {
    count as real / total as real
  }

  /** A share of a whole lies in [0, 1] and, times the whole, gives back the
      part. */
  lemma ShareBounds(count: nat, total: nat)
    requires 0 < total && count <= total
    ensures Share(count, total) * (total as real) == count as real
    ensures 0.0 <= Share(count, total) <= 1.0
  {
  }

  lemma ShareAdd(a: nat, b: nat, total: nat)
    requires total > 0
    ensures Share(a, total) + Share(b, total) == Share(a + b, total)
  {
  }

  lemma ShareWhole(total: nat)
    requires total > 0
    ensures Share(total, total) == 1.0
  {
  }

  /** Each destination's value is its share of the bucket, count / n_exits,
      and lies in [0, 1]. */
  lemma BreakdownValues(sub: seq<ExitRecord>, dests: seq<string>)
    requires |sub| > 0
    ensures var r := Breakdown(sub, dests);
      r.Ok? && forall d :: d in dests ==>
        r.value[d] == Share(Count(sub, d), |sub|) && 0.0 <= r.value[d] <= 1.0
  {
    forall d | d in dests
      ensures 0.0 <= Share(Count(sub, d), |sub|) <= 1.0
    {
      ShareBounds(Count(sub, d), |sub|);
    }
  }

  /** The sum of the breakdown's values over the listed destinations. */
  function SumOver(dests: seq<string>, bd: map<string, real>): real
    requires forall d :: d in dests ==> d in bd
  {
    if dests == [] then 0.0 else bd[dests[0]] + SumOver(dests[1..], bd)
  }

  /** The sum of the per-destination counts over the listed destinations. */
  function SumCounts(rows: seq<ExitRecord>, dests: seq<string>): nat
  {
    if dests == [] then 0 else Count(rows, dests[0]) + SumCounts(rows, dests[1..])
  }

  /** How many of the listed destinations equal `v`. */
  function Hits(dests: seq<string>, v: string): nat
  {
    if dests == [] then 0 else (if dests[0] == v then 1 else 0) + Hits(dests[1..], v)
  }

  lemma {:induction false} HitsDistinct(dests: seq<string>, v: string)
    requires Distinct(dests)
    ensures Hits(dests, v) == if v in dests then 1 else 0
  {
    if dests != [] {
      HitsDistinct(dests[1..], v);
      if dests[0] == v {
        assert v !in dests[1..];
      }
    }
  }

  lemma {:induction false} SumCountsSnoc(rows: seq<ExitRecord>, x: ExitRecord, dests: seq<string>)
    ensures SumCounts(rows + [x], dests) == SumCounts(rows, dests) + Hits(dests, x.dest)
  {
    if dests != [] {
      SumCountsSnoc(rows, x, dests[1..]);
      assert (rows + [x])[..|rows + [x]| - 1] == rows;
    }
  }

  /** When every record's destination is listed exactly once, the counts add
      up to the number of records. */
  lemma {:induction false} SumCountsTotal(rows: seq<ExitRecord>, dests: seq<string>)
    requires Distinct(dests)
    requires forall k :: 0 <= k < |rows| ==> rows[k].dest in dests
    ensures SumCounts(rows, dests) == |rows|
  {
    if rows == [] {
      ZeroCounts(dests);
    } else {
      var init, x := rows[..|rows| - 1], rows[|rows| - 1];
      SumCountsTotal(init, dests);
      assert rows == init + [x];
      SumCountsSnoc(init, x, dests);
      HitsDistinct(dests, x.dest);
    }
  }

  lemma {:induction false} ZeroCounts(dests: seq<string>)
    ensures SumCounts([], dests) == 0
  {
    if dests != [] {
      ZeroCounts(dests[1..]);
    }
  }

  lemma {:induction false} SumOverShares(sub: seq<ExitRecord>, dests: seq<string>, bd: map<string, real>)
    requires |sub| > 0
    requires forall d :: d in dests ==> d in bd && bd[d] == Share(Count(sub, d), |sub|)
    ensures SumOver(dests, bd) == Share(SumCounts(sub, dests), |sub|)
  {
    if dests != [] {
      SumOverShares(sub, dests[1..], bd);
      ShareAdd(Count(sub, dests[0]), SumCounts(sub, dests[1..]), |sub|);
    } else {
      assert Share(0, |sub|) == 0.0;
    }
  }

  /** A non-empty bucket's proportions over the fetched destinations add up
      to exactly 1. */
  lemma BreakdownSumsToOne(sub: seq<ExitRecord>, dests: seq<string>)
    requires |sub| > 0
    requires Distinct(dests)
    requires forall k :: 0 <= k < |sub| ==> sub[k].dest in dests
    ensures Breakdown(sub, dests).Ok?
    ensures SumOver(dests, Breakdown(sub, dests).value) == 1.0
  {
    var bd := Breakdown(sub, dests).value;
    SumOverShares(sub, dests, bd);
    SumCountsTotal(sub, dests);
    ShareWhole(|sub|);
  }

  /** Two exits on the window's last day, one permanent and one unknown,
      split the bucket half and half; the breakdown names only those two
      destinations, since only they occur in the fetched records. */
  lemma EvenSplitExample(day: int, m: int)
    requires m > 0
    ensures var recs := [ExitRecord(day, "Permanent Exit"), ExitRecord(day, "Unknown/Other")];
      Breakdown(Window(recs, m, day), Dests(recs))
        == Ok(map["Permanent Exit" := 0.5, "Unknown/Other" := 0.5])
  {
    var a, b := ExitRecord(day, "Permanent Exit"), ExitRecord(day, "Unknown/Other");
    var recs := [a, b];
    assert recs[..1] == [a];
    assert Between([a], day - m, day) == [a];
    assert Window(recs, m, day) == recs;
    assert DestColumn(recs) == ["Permanent Exit", "Unknown/Other"];
    assert DestColumn(recs)[..1] == ["Permanent Exit"];
    assert Dests(recs) == ["Permanent Exit", "Unknown/Other"];
    assert Count(recs[..1], "Permanent Exit") == 1 && Count(recs[..1], "Unknown/Other") == 0;
    assert Count(recs, "Permanent Exit") == 1;
    assert Count(recs, "Unknown/Other") == 1;
    assert Share(1, 2) == 0.5;
    var bd := Breakdown(recs, Dests(recs)).value;
    var expected := map["Permanent Exit" := 0.5, "Unknown/Other" := 0.5];
    assert bd.Keys == expected.Keys;
    assert bd["Permanent Exit"] == 0.5 && bd["Unknown/Other"] == 0.5;
    assert bd == expected;
  }

  // ---------------------------------------------------------------------
  // The moving series
  // ---------------------------------------------------------------------

  /** The bucket boundaries for offset i can be computed:
      end = last - timedelta(days=i) and start = end - timedelta(days=m). */
  predicate BucketDatesFit(m: int, last: int, i: int)
  {
    DaysBefore(last, i).Ok? && DaysBefore(last - i, m).Ok?
  }

  /** One pass of the loop body for offset i: the two date subtractions,
      then the breakdown of (start, end]. */
  function BucketAt(fetched: seq<ExitRecord>, dests: seq<string>, m: int, last: int, i: int): (r: Result<Bucket>)
    ensures r == Err(DateOverflow) <==> !BucketDatesFit(m, last, i)
    ensures r == Err(ZeroDivision) <==>
      BucketDatesFit(m, last, i) && |dests| > 0 && Window(fetched, m, last - i) == []
    ensures r.Err? ==> r.error == DateOverflow || r.error == ZeroDivision
    ensures r.Ok? ==>
      r.value.end == last - i && Breakdown(Window(fetched, m, last - i), dests) == Ok(r.value.breakdown)
  {
    match DaysBefore(last, i)
    case Err(e) => Err(e)
    case Ok(end) =>
      match DaysBefore(end, m)
      case Err(e) => Err(e)
      case Ok(start) =>
        match Breakdown(Between(fetched, start, end), dests)
        case Err(e) => Err(e)
        case Ok(bd) => Ok(Bucket(end, bd))
  }

  /** The buckets for the given offsets, in loop order; the first bucket
      that fails stops the computation with its error. */
  function SeriesOver(fetched: seq<ExitRecord>, dests: seq<string>, m: int, last: int, offsets: seq<int>)
    : (r: Result<seq<Bucket>>)
    ensures r.Err? ==> r.error == DateOverflow || r.error == ZeroDivision
    ensures r.Ok? ==> |r.value| == |offsets|
  {
    if offsets == [] then Ok([])
    else
      match SeriesOver(fetched, dests, m, last, offsets[..|offsets| - 1])
      case Err(e) => Err(e)
      case Ok(s) =>
        match BucketAt(fetched, dests, m, last, offsets[|offsets| - 1])
        case Err(e) => Err(e)
        case Ok(b) => Ok(s + [b])
  }

  /** The bucket at position k is the first of the loop to fail. */
  predicate FailsFirstAt(fetched: seq<ExitRecord>, dests: seq<string>, m: int, last: int, offsets: seq<int>, k: int)
  {
    && 0 <= k < |offsets|
    && BucketAt(fetched, dests, m, last, offsets[k]).Err?
    && forall j :: 0 <= j < k ==> BucketAt(fetched, dests, m, last, offsets[j]).Ok?
  }

  /** The series succeeds iff every bucket does, and then holds those
      buckets in order; otherwise it fails with the error of the first
      bucket that fails. */
  lemma {:induction false} SeriesOverShape(fetched: seq<ExitRecord>, dests: seq<string>, m: int, last: int, offsets: seq<int>)
    ensures var r := SeriesOver(fetched, dests, m, last, offsets);
      && (r.Ok? <==> forall k :: 0 <= k < |offsets| ==> BucketAt(fetched, dests, m, last, offsets[k]).Ok?)
      && (r.Ok? ==> forall k :: 0 <= k < |offsets| ==> BucketAt(fetched, dests, m, last, offsets[k]) == Ok(r.value[k]))
      && (r.Err? ==> exists k ::
            FailsFirstAt(fetched, dests, m, last, offsets, k) && BucketAt(fetched, dests, m, last, offsets[k]) == Err(r.error))
  {
    if offsets != [] {
      var init := offsets[..|offsets| - 1];
      SeriesOverShape(fetched, dests, m, last, init);
      assert forall k :: 0 <= k < |init| ==> init[k] == offsets[k];
      var ri := SeriesOver(fetched, dests, m, last, init);
      var r := SeriesOver(fetched, dests, m, last, offsets);
      if ri.Err? {
        var k :| FailsFirstAt(fetched, dests, m, last, init, k) &&
          BucketAt(fetched, dests, m, last, init[k]) == Err(ri.error);
        assert FailsFirstAt(fetched, dests, m, last, offsets, k);
      } else if r.Err? {
        assert FailsFirstAt(fetched, dests, m, last, offsets, |offsets| - 1);
      }
    }
  }

  /** Once a prefix of the loop has failed, the whole loop fails the same
      way. */
  lemma {:induction false} SeriesErrSticks(fetched: seq<ExitRecord>, dests: seq<string>, m: int, last: int, offsets: seq<int>, j: int)
    requires 0 <= j <= |offsets|
    requires SeriesOver(fetched, dests, m, last, offsets[..j]).Err?
    ensures SeriesOver(fetched, dests, m, last, offsets) == SeriesOver(fetched, dests, m, last, offsets[..j])
    decreases |offsets| - j
  {
    if j < |offsets| {
      assert offsets[..j + 1][..j] == offsets[..j];
      SeriesErrSticks(fetched, dests, m, last, offsets, j + 1);
    } else {
      assert offsets[..j] == offsets;
    }
  }

  /** One step of the loop: a series over a prefix of the offsets extends
      by the next bucket, or the whole series fails with that bucket's
      error. */
  lemma SeriesStep(fetched: seq<ExitRecord>, dests: seq<string>, m: int, last: int, offsets: seq<int>, j: int, moving: seq<Bucket>)
    requires 0 <= j < |offsets|
    requires SeriesOver(fetched, dests, m, last, offsets[..j]) == Ok(moving)
    ensures var b := BucketAt(fetched, dests, m, last, offsets[j]);
      && (b.Ok? ==> SeriesOver(fetched, dests, m, last, offsets[..j + 1]) == Ok(moving + [b.value]))
      && (b.Err? ==> SeriesOver(fetched, dests, m, last, offsets) == Err(b.error))
  {
    assert offsets[..j + 1][..j] == offsets[..j];
    assert offsets[..j + 1][j] == offsets[j];
    if BucketAt(fetched, dests, m, last, offsets[j]).Err? {
      SeriesErrSticks(fetched, dests, m, last, offsets, j + 1);
    }
  }

  /** Where a series fails: a division error only at an empty window, an
      overflow only where a bucket's dates cannot be computed. */
  lemma SeriesErrorsLocated(fetched: seq<ExitRecord>, dests: seq<string>, m: int, last: int, offsets: seq<int>)
    ensures var r, ends := SeriesOver(fetched, dests, m, last, offsets), Ends(last, offsets);
      && (r == Err(ZeroDivision) ==> exists k :: 0 <= k < |ends| && Window(fetched, m, ends[k]) == [])
      && (r == Err(DateOverflow) ==> exists k :: 0 <= k < |offsets| && !BucketDatesFit(m, last, offsets[k]))
  {
    var r, ends := SeriesOver(fetched, dests, m, last, offsets), Ends(last, offsets);
    SeriesOverShape(fetched, dests, m, last, offsets);
    if r.Err? {
      var k :| FailsFirstAt(fetched, dests, m, last, offsets, k) &&
        BucketAt(fetched, dests, m, last, offsets[k]) == Err(r.error);
      assert ends[k] == last - offsets[k];
    }
  }

  /** When every bucket's dates can be computed and there is a destination
      to divide for, the series fails exactly when some window is empty. */
  lemma SeriesFailsIffEmpty(fetched: seq<ExitRecord>, dests: seq<string>, m: int, last: int, offsets: seq<int>)
    requires |dests| > 0
    requires forall k :: 0 <= k < |offsets| ==> BucketDatesFit(m, last, offsets[k])
    ensures var r, ends := SeriesOver(fetched, dests, m, last, offsets), Ends(last, offsets);
      r.Err? <==> exists k :: 0 <= k < |ends| && Window(fetched, m, ends[k]) == []
  {
    var r, ends := SeriesOver(fetched, dests, m, last, offsets), Ends(last, offsets);
    SeriesOverShape(fetched, dests, m, last, offsets);
    if r.Err? {
      var k :| FailsFirstAt(fetched, dests, m, last, offsets, k) &&
        BucketAt(fetched, dests, m, last, offsets[k]) == Err(r.error);
      assert ends[k] == last - offsets[k];
    }
    if k :| 0 <= k < |ends| && Window(fetched, m, ends[k]) == [] {
      assert ends[k] == last - offsets[k];
      assert BucketAt(fetched, dests, m, last, offsets[k]) == Err(ZeroDivision);
    }
  }

  /** A successful series holds, at position k, the bucket ending at
      ends[k] with the breakdown of its non-empty window. */
  lemma SeriesBuckets(fetched: seq<ExitRecord>, dests: seq<string>, m: int, last: int, offsets: seq<int>)
    requires |dests| > 0
    ensures var r, ends := SeriesOver(fetched, dests, m, last, offsets), Ends(last, offsets);
      r.Ok? ==> |r.value| == |ends| && forall k :: 0 <= k < |ends| ==>
        && r.value[k].end == ends[k]
        && |Window(fetched, m, ends[k])| > 0
        && Breakdown(Window(fetched, m, ends[k]), dests) == Ok(r.value[k].breakdown)
  {
    var r, ends := SeriesOver(fetched, dests, m, last, offsets), Ends(last, offsets);
    SeriesOverShape(fetched, dests, m, last, offsets);
    if r.Ok? {
      forall k | 0 <= k < |ends|
        ensures r.value[k].end == ends[k]
        ensures |Window(fetched, m, ends[k])| > 0
        ensures Breakdown(Window(fetched, m, ends[k]), dests) == Ok(r.value[k].breakdown)
      {
        assert ends[k] == last - offsets[k];
        assert BucketAt(fetched, dests, m, last, offsets[k]) == Ok(r.value[k]);
      }
    }
  }

  /** `plot_moving_avg` up to the plot: compute first = last - (m + days_back),
      fetch (first, last], then one bucket per offset. */
  function MovingSeries(members: seq<ExitRecord>, m: int, daysBack: int, last: int): (r: Result<seq<Bucket>>)
    ensures r.Err? ==> r.error == DateOverflow || r.error == MissingDestColumn || r.error == ZeroDivision
    ensures r.Ok? ==> |r.value| == |Offsets(daysBack)|
  {
    match DaysBefore(last, m + daysBack)
    case Err(e) => Err(e)
    case Ok(first) =>
      var fetched := Between(members, first, last);
      if fetched == [] then Err(MissingDestColumn)
      else SeriesOver(fetched, Dests(fetched), m, last, Offsets(daysBack))
  }

  /** What the moving series computes. An overflow computing first stops it;
      otherwise the missing-column error comes exactly when nothing was
      fetched. A division error means some bucket was empty, an overflow in
      the loop that some bucket's dates could not be computed; when every
      bucket's dates can be, the division error comes exactly when some
      bucket is empty. On success there is one bucket per offset i, in loop
      order, with end date last - i and the breakdown of the window
      (last - i - m, last - i]. */
  lemma MovingSeriesOutcome(members: seq<ExitRecord>, m: int, daysBack: int, last: int)
    ensures var fits := DaysBefore(last, m + daysBack).Ok?;
      var fetched := Between(members, last - (m + daysBack), last);
      var offsets := Offsets(daysBack);
      var ends := Ends(last, offsets);
      var r := MovingSeries(members, m, daysBack, last);
      && (!fits ==> r == Err(DateOverflow))
      && (fits ==> (r == Err(MissingDestColumn) <==> fetched == []))
      && (r == Err(ZeroDivision) ==>
            fits && fetched != [] && exists k :: 0 <= k < |ends| && Window(fetched, m, ends[k]) == [])
      && (r == Err(DateOverflow) ==>
            !fits || exists k :: 0 <= k < |offsets| && !BucketDatesFit(m, last, offsets[k]))
      && (fits && fetched != [] && (forall k :: 0 <= k < |offsets| ==> BucketDatesFit(m, last, offsets[k])) ==>
            (r == Err(ZeroDivision) <==> exists k :: 0 <= k < |ends| && Window(fetched, m, ends[k]) == []))
      && (r.Ok? ==> |r.value| == |ends| && forall k :: 0 <= k < |ends| ==>
            && r.value[k].end == ends[k]
            && |Window(fetched, m, ends[k])| > 0
            && Breakdown(Window(fetched, m, ends[k]), Dests(fetched)) == Ok(r.value[k].breakdown))
  {
    var fetched := Between(members, last - (m + daysBack), last);
    var offsets := Offsets(daysBack);
    var ends := Ends(last, offsets);
    var r := MovingSeries(members, m, daysBack, last);
    if DaysBefore(last, m + daysBack).Ok? && fetched != [] {
      var dests := Dests(fetched);
      assert r == SeriesOver(fetched, dests, m, last, offsets);
      SeriesErrorsLocated(fetched, dests, m, last, offsets);
      SeriesBuckets(fetched, dests, m, last, offsets);
      if forall k :: 0 <= k < |offsets| ==> BucketDatesFit(m, last, offsets[k]) {
        SeriesFailsIffEmpty(fetched, dests, m, last, offsets);
      }
    }
  }

  /** The breakdown of a non-empty window over the fetched records has a
      value for each fetched destination and no other, each value is the
      destination's count in the window over the window's total and lies in
      [0, 1], and the values add up to 1. */
  lemma WindowBreakdown(fetched: seq<ExitRecord>, m: int, end: int)
    requires |Window(fetched, m, end)| > 0
    ensures var sub, dests := Window(fetched, m, end), Dests(fetched);
      var r := Breakdown(sub, dests);
      && r.Ok?
      && (forall d :: d in r.value <==> d in dests)
      && (forall d :: d in dests ==> r.value[d] == Share(Count(sub, d), |sub|) && 0.0 <= r.value[d] <= 1.0)
      && SumOver(dests, r.value) == 1.0
  {
    var sub, dests := Window(fetched, m, end), Dests(fetched);
    BreakdownValues(sub, dests);
    WindowDestsListed(fetched, m, end);
    BreakdownSumsToOne(sub, dests);
  }

  /** Every bucket of a successful moving series is such a breakdown: its
      values are the proportions of its window and add up to 1. */
  lemma MovingBreakdownsAreProportions(members: seq<ExitRecord>, m: int, daysBack: int, last: int)
    ensures var fetched := Between(members, last - (m + daysBack), last);
      var r := MovingSeries(members, m, daysBack, last);
      r.Ok? ==> forall k :: 0 <= k < |r.value| ==>
        var bd, sub := r.value[k].breakdown, Window(fetched, m, r.value[k].end);
        && |sub| > 0
        && (forall d :: d in bd <==> d in Dests(fetched))
        && (forall d :: d in Dests(fetched) ==> bd[d] == Share(Count(sub, d), |sub|) && 0.0 <= bd[d] <= 1.0)
        && SumOver(Dests(fetched), bd) == 1.0
  {
    var fetched := Between(members, last - (m + daysBack), last);
    var ends := Ends(last, Offsets(daysBack));
    var r := MovingSeries(members, m, daysBack, last);
    MovingSeriesOutcome(members, m, daysBack, last);
    if r.Ok? {
      forall k | 0 <= k < |r.value|
        ensures var bd, sub := r.value[k].breakdown, Window(fetched, m, r.value[k].end);
          && |sub| > 0
          && (forall d :: d in bd <==> d in Dests(fetched))
          && (forall d :: d in Dests(fetched) ==> bd[d] == Share(Count(sub, d), |sub|) && 0.0 <= bd[d] <= 1.0)
          && SumOver(Dests(fetched), bd) == 1.0
      {
        assert r.value[k].end == ends[k];
        WindowBreakdown(fetched, m, ends[k]);
      }
    }
  }

  /** Every record of a window over the fetched records has its destination
      among the fetched destinations. */
  lemma WindowDestsListed(fetched: seq<ExitRecord>, m: int, end: int)
    ensures var sub := Window(fetched, m, end);
      forall k :: 0 <= k < |sub| ==> sub[k].dest in Dests(fetched)
  {
    var sub := Window(fetched, m, end);
    forall k | 0 <= k < |sub| ensures sub[k].dest in Dests(fetched) {
      BetweenMembership(fetched, end - m, end, sub[k]);
      var j :| 0 <= j < |fetched| && fetched[j] == sub[k];
    }
  }

  // ---------------------------------------------------------------------
  // Where the buckets lie
  // ---------------------------------------------------------------------

  /** Ends at offsets of a positive stride strictly decrease. */
  lemma EndsDecrease(daysBack: int, last: int, j: int, k: int)
    requires daysBack >= 0
    requires 0 <= j < k < |Offsets(daysBack)|
    ensures Ends(last, Offsets(daysBack))[j] > Ends(last, Offsets(daysBack))[k]
  {
    var s, idx := Step(daysBack), Offsets(daysBack);
    PyRangeAt(0, daysBack, s, j);
    PyRangeAt(0, daysBack, s, k);
    MulStrict(j, k, s);
    assert idx[j] < idx[k];
  }

  lemma MulStrict(j: int, k: int, s: int)
    requires j < k && s > 0
    ensures j * s < k * s
  {
    MulMonotone(j + 1, k, s);
    assert (j + 1) * s == j * s + s;
  }

  /** For days_back >= 0 the stride is positive, the bucket end dates start
      at `last` and strictly decrease, and every window (end - m, end] lies
      inside the fetched range (first, last]; so filtering the fetched
      records gives the same window as filtering all members. */
  lemma MovingWindowsInsideFetch(members: seq<ExitRecord>, m: int, daysBack: int, last: int)
    requires daysBack >= 0
    ensures var first, ends := last - (m + daysBack), Ends(last, Offsets(daysBack));
      && Step(daysBack) >= 1
      && (|ends| > 0 ==> ends[0] == last)
      && (forall k :: 0 <= k < |ends| ==> first < ends[k] - m && ends[k] <= last)
      && (forall j, k :: 0 <= j < k < |ends| ==> ends[j] > ends[k])
      && (forall k :: 0 <= k < |ends| ==>
            Window(Between(members, first, last), m, ends[k]) == Between(members, ends[k] - m, ends[k]))
  {
    var first, ends := last - (m + daysBack), Ends(last, Offsets(daysBack));
    forall j, k | 0 <= j < k < |ends| ensures ends[j] > ends[k] {
      EndsDecrease(daysBack, last, j, k);
    }
    forall k | 0 <= k < |ends|
      ensures Window(Between(members, first, last), m, ends[k]) == Between(members, ends[k] - m, ends[k])
    {
      BetweenNested(members, first, last, ends[k] - m, ends[k]);
    }
  }

  /** A negative days_back is not rejected: the stride is negative, the loop
      still runs (at least the offset 0), and the end dates move forward from
      `last`. The first window (last - m, last] then reaches before the
      fetched range (first, last]. Once days_back <= -m nothing is fetched
      at all, so the chart fails on the missing column, unless first already
      lies past 9999-12-31 and the subtraction overflows. */
  lemma NegativeDaysBack(members: seq<ExitRecord>, m: int, daysBack: int, last: int)
    requires daysBack < 0
    ensures var first, ends := last - (m + daysBack), Ends(last, Offsets(daysBack));
      var r := MovingSeries(members, m, daysBack, last);
      && Step(daysBack) < 0
      && |ends| > 0 && ends[0] == last
      && (forall k :: 0 < k < |ends| ==> ends[k] > last)
      && last - m < first
      && (first > MaxDate ==> r == Err(DateOverflow))
      && (daysBack <= -m && DaysBefore(last, m + daysBack).Ok? ==> r == Err(MissingDestColumn))
  {
    var first := last - (m + daysBack);
    if daysBack <= -m {
      BetweenEmptyRange(members, first, last);
    }
  }

  /** For m >= 0 and days_back >= 0 the loop cannot overflow once first was
      computed: every end and start date lies in [first, last]. */
  lemma ForwardBucketsFit(m: int, daysBack: int, last: int)
    requires m >= 0 && daysBack >= 0 && IsDate(last)
    requires DaysBefore(last, m + daysBack).Ok?
    ensures forall k :: 0 <= k < |Offsets(daysBack)| ==> BucketDatesFit(m, last, Offsets(daysBack)[k])
  {
  }

  /** The outcome for a request with m >= 0 and days_back >= 0 from a real
      date `last`: an overflow exactly when m + days_back exceeds the
      `timedelta` range or first falls before 0001-01-01 (so days_back =
      1000000 overflows from every day before 1000091, which is in year
      2739); otherwise the missing-column error exactly when nothing was
      fetched, and the division error exactly when some bucket is empty. */
  lemma ForwardOutcome(members: seq<ExitRecord>, m: int, daysBack: int, last: int)
    requires m >= 0 && daysBack >= 0 && IsDate(last)
    ensures var first, r := last - (m + daysBack), MovingSeries(members, m, daysBack, last);
      var fetched, ends := Between(members, first, last), Ends(last, Offsets(daysBack));
      var overflow := m + daysBack > MaxDeltaDays || first < MinDate;
      && (r == Err(DateOverflow) <==> overflow)
      && (r == Err(MissingDestColumn) <==> !overflow && fetched == [])
      && (r == Err(ZeroDivision) <==>
            !overflow && fetched != [] && exists k :: 0 <= k < |ends| && Window(fetched, m, ends[k]) == [])
  {
    MovingSeriesOutcome(members, m, daysBack, last);
    if DaysBefore(last, m + daysBack).Ok? {
      ForwardBucketsFit(m, daysBack, last);
    }
  }

  // ---------------------------------------------------------------------
  // The pie table
  // ---------------------------------------------------------------------

  /** One row of the pie's table: the record plus the `count` column. */
  datatype PieRow = PieRow(date: int, dest: string, count: nat)

  /** `df['count'] = 1`: every record gets a count of one. */
  function WithCount(df: seq<ExitRecord>): (rows: seq<PieRow>)
    ensures |rows| == |df|
    ensures forall k :: 0 <= k < |df| ==> rows[k] == PieRow(df[k].date, df[k].dest, 1)
  {
    seq(|df|, k requires 0 <= k < |df| => PieRow(df[k].date, df[k].dest, 1))
  }

  /** A slice's size: the sum of `count` over the rows named `dest`, which is
      how `px.pie(values='count', names='dest')` sizes its slices. */
  function SliceTotal(rows: seq<PieRow>, dest: string): nat
  {
    if rows == [] then 0
    else SliceTotal(rows[..|rows| - 1], dest) + (if rows[|rows| - 1].dest == dest then rows[|rows| - 1].count else 0)
  }

  /** The sum of the slice sizes over the listed destinations. */
  function SumSlices(rows: seq<PieRow>, dests: seq<string>): nat
  {
    if dests == [] then 0 else SliceTotal(rows, dests[0]) + SumSlices(rows, dests[1..])
  }

  /** With one count per record, a slice's size is the number of records
      going to that destination. */
  lemma {:induction false} SliceTotalIsCount(df: seq<ExitRecord>, dest: string)
    ensures SliceTotal(WithCount(df), dest) == Count(df, dest)
  {
    if df != [] {
      var init := df[..|df| - 1];
      SliceTotalIsCount(init, dest);
      assert WithCount(df)[..|df| - 1] == WithCount(init);
    }
  }

  lemma {:induction false} SumSlicesIsSumCounts(df: seq<ExitRecord>, dests: seq<string>)
    ensures SumSlices(WithCount(df), dests) == SumCounts(df, dests)
  {
    if dests != [] {
      SumSlicesIsSumCounts(df, dests[1..]);
      SliceTotalIsCount(df, dests[0]);
    }
  }

  /** `plot_exit_pie`'s table: compute first = last - m, then the records of
      (first, last], one count each; with nothing fetched there is no `dest`
      column to name slices by. */
  function PieTable(members: seq<ExitRecord>, m: int, last: int): (r: Result<seq<PieRow>>)
    ensures r.Err? ==> r.error == DateOverflow || r.error == MissingDestColumn
    ensures r.Ok? ==> |r.value| > 0 && forall k :: 0 <= k < |r.value| ==> r.value[k].count == 1
  {
    match DaysBefore(last, m)
    case Err(e) => Err(e)
    case Ok(first) =>
      var fetched := Between(members, first, last);
      if fetched == [] then Err(MissingDestColumn) else Ok(WithCount(fetched))
  }

  /** The pie overflows exactly when last - m cannot be computed. Past
      that, it fails on the missing column exactly when no record is dated
      in (last - m, last]. On success it has one row of count 1 per such record, each destination's
      slice equals its record count, and the slices add up to the number of
      records. */
  lemma PieOutcome(members: seq<ExitRecord>, m: int, last: int)
    ensures var fetched, r := Between(members, last - m, last), PieTable(members, m, last);
      && (r == Err(DateOverflow) <==> !DaysBefore(last, m).Ok?)
      && (r == Err(MissingDestColumn) <==> DaysBefore(last, m).Ok? && fetched == [])
      && (r.Ok? ==>
            && |r.value| == |fetched|
            && (forall k :: 0 <= k < |fetched| ==> r.value[k] == PieRow(fetched[k].date, fetched[k].dest, 1))
            && (forall d :: SliceTotal(r.value, d) == Count(fetched, d))
            && SumSlices(r.value, Dests(fetched)) == |fetched|)
  {
    var fetched := Between(members, last - m, last);
    forall d ensures SliceTotal(WithCount(fetched), d) == Count(fetched, d) {
      SliceTotalIsCount(fetched, d);
    }
    SumSlicesIsSumCounts(fetched, Dests(fetched));
    SumCountsTotal(fetched, Dests(fetched));
  }
}
