/**
 * The timeline chart's data (jobtracker-core/src/job_app.rs,
 * `add_bar_chart_stats`): the gap-filled axis of UTC calendar days from the
 * earliest job through today, the jobs grouped by day in list order, the
 * stacked placement of one unit-high bar per job, and the inverse mapping
 * from a clicked chart coordinate back to a job.
 */
module Timeline {
  import opened Wrappers
  import opened Jobs

  const SECONDS_PER_DAY: int := 86400

  /** Largest value of a Rust `usize` on a 64-bit target. */
  const USIZE_MAX: nat := 0xFFFF_FFFF_FFFF_FFFF

  /** `timestamp.date_naive()` for a UTC instant, as a day number since 1970-01-01 (floor division). */
  function DayOf(t: Timestamp): int {
    t / SECONDS_PER_DAY
  }

  /** The day a job is plotted on. */
  function JobDay(j: Job): int {
    DayOf(j.timestamp)
  }

  // ---------------------------------------------------------------------
  // Day axis

  /** The smallest day of any job, or `today` when there are none. */
  function EarliestDay(jobs: seq<Job>, today: int): (d: int)
    ensures forall k :: 0 <= k < |jobs| ==> d <= JobDay(jobs[k])
    ensures jobs == [] ==> d == today
    ensures jobs != [] ==> exists k :: 0 <= k < |jobs| && JobDay(jobs[k]) == d
  {
    if jobs == [] then today
    else if |jobs| == 1 then JobDay(jobs[0])
    else
      var rest := EarliestDay(jobs[..|jobs| - 1], today);
      if JobDay(jobs[|jobs| - 1]) < rest then JobDay(jobs[|jobs| - 1]) else rest
  }

  /** The days `first`, `first + 1`, ..., `last`; empty when `first > last`. */
  function DayRange(first: int, last: int): (r: seq<int>)
    ensures |r| == if first <= last then last - first + 1 else 0
    ensures forall i :: 0 <= i < |r| ==> r[i] == first + i
  {
    seq(if first <= last then last - first + 1 else 0, i => first + i)
  }

  /**
   * The loop that collects every day from the earliest through today,
   * stepping one day at a time.
   */
  method DayAxis(earliest: int, today: int) returns (days: seq<int>)
    ensures days == DayRange(earliest, today)
  {
    days := [];
    var d := earliest;
    while d <= today
      invariant earliest <= today ==> d <= today + 1
      invariant earliest > today ==> d == earliest
      invariant d >= earliest
      invariant days == DayRange(earliest, d - 1)
      decreases today - d
    {
      days := days + [d];
      d := d + 1;
    }
  }

  /**
   * The axis is contiguous: it starts at `first`, ends at `last`, each day is
   * one after the one before, so it is strictly increasing, i.e. it is the
   * sorted list of its own elements.
   */
  lemma DayRangeContiguous(first: int, last: int)
    ensures first <= last ==> DayRange(first, last)[0] == first
    ensures first <= last ==> DayRange(first, last)[|DayRange(first, last)| - 1] == last
    ensures first > last <==> DayRange(first, last) == []
    ensures forall i :: 0 < i < |DayRange(first, last)| ==>
      DayRange(first, last)[i] == DayRange(first, last)[i - 1] + 1
    ensures forall i, j :: 0 <= i < j < |DayRange(first, last)| ==>
      DayRange(first, last)[i] < DayRange(first, last)[j]
    ensures forall d :: d in DayRange(first, last) <==> first <= d <= last
  {
    var r := DayRange(first, last);
    forall d | first <= d <= last ensures d in r {
      assert r[d - first] == d;
    }
  }

  // ---------------------------------------------------------------------
  // Bucketing

  /** The jobs dated `d`, in list order. */
  function OnDay(jobs: seq<Job>, d: int): (r: seq<Job>)
    ensures |r| <= |jobs|
    ensures forall j :: j in r ==> j in jobs && JobDay(j) == d
  {
    if jobs == [] then []
    else
      var last := jobs[|jobs| - 1];
      OnDay(jobs[..|jobs| - 1], d) + (if JobDay(last) == d then [last] else [])
  }

  /**
   * The map from each axis day to its jobs: start with an empty list per
   * day, then walk the jobs in order and append each to its day's list if
   * that day is on the axis.
   */
  method Bucket(jobs: seq<Job>, days: seq<int>) returns (buckets: map<int, seq<Job>>)
    ensures buckets.Keys == set d | d in days
    ensures forall d :: d in buckets ==> buckets[d] == OnDay(jobs, d)
  {
    buckets := map d | d in days :: [];
    for i := 0 to |jobs|
      invariant buckets.Keys == set d | d in days
      invariant forall d :: d in buckets ==> buckets[d] == OnDay(jobs[..i], d)
    {
      assert jobs[..i + 1][..i] == jobs[..i];
      var day := JobDay(jobs[i]);
      if day in buckets {
        buckets := buckets[day := buckets[day] + [jobs[i]]];
      }
    }
    assert jobs[..|jobs|] == jobs;
  }

  /** The chart data: the day axis (already sorted) and the jobs of each axis day. */
  datatype Chart = Chart(dates: seq<int>, buckets: map<int, seq<Job>>)

  /** The chart for a job list on day `today`. */
  function ChartOf(jobs: seq<Job>, today: int): Chart {
    var dates := DayRange(EarliestDay(jobs, today), today);
    Chart(dates, map d | d in dates :: OnDay(jobs, d))
  }

  /** The bucketing part of `add_bar_chart_stats`, from the job list and today's date. */
  method BuildChart(jobs: seq<Job>, today: int) returns (c: Chart)
    ensures c == ChartOf(jobs, today)
  {
    var earliest := EarliestDay(jobs, today);
    var dates := DayAxis(earliest, today);
    var buckets := Bucket(jobs, dates);
    c := Chart(dates, buckets);
  }

  /** The jobs in the bucket drawn at axis position `i` (none if the day has no bucket). */
  function BucketAt(c: Chart, i: nat): seq<Job>
    requires i < |c.dates|
  {
    if c.dates[i] in c.buckets then c.buckets[c.dates[i]] else []
  }

  /** Where a job sits inside its day's bucket: the number of earlier jobs on the same day. */
  function StackIndex(jobs: seq<Job>, p: nat): nat
    requires p < |jobs|
  {
    |OnDay(jobs[..p], JobDay(jobs[p]))|
  }

  /** Each job is in its own day's bucket at its stack index, and earlier same-day jobs sit lower. */
  lemma {:induction false} OnDayStack(jobs: seq<Job>, p: nat)
    requires p < |jobs|
    ensures StackIndex(jobs, p) < |OnDay(jobs, JobDay(jobs[p]))|
    ensures OnDay(jobs, JobDay(jobs[p]))[StackIndex(jobs, p)] == jobs[p]
  {
    var d := JobDay(jobs[p]);
    OnDayPrefix(jobs, p + 1, d);
    assert jobs[..p + 1][..p] == jobs[..p];
  }

  /** The bucket of a prefix is a prefix of the bucket. */
  lemma {:induction false} OnDayPrefix(jobs: seq<Job>, n: nat, d: int)
    requires n <= |jobs|
    ensures OnDay(jobs[..n], d) <= OnDay(jobs, d)
    decreases |jobs|
  {
    if n < |jobs| {
      OnDayPrefix(jobs[..|jobs| - 1], n, d);
      assert jobs[..|jobs| - 1][..n] == jobs[..n];
    } else {
      assert jobs[..n] == jobs;
    }
  }

  /** Stacking is stable: of two jobs on the same day, the earlier in the list sits lower. */
  lemma StackIndexStable(jobs: seq<Job>, p: nat, q: nat)
    requires p < q < |jobs| && JobDay(jobs[p]) == JobDay(jobs[q])
    ensures StackIndex(jobs, p) < StackIndex(jobs, q)
  {
    var d := JobDay(jobs[p]);
    OnDayStack(jobs[..q], p);
    assert jobs[..q][..p] == jobs[..p];
  }

  /** A job is in no bucket but its own day's. */
  lemma OnlyOwnDay(jobs: seq<Job>, j: Job, d: int)
    requires j in OnDay(jobs, d)
    ensures JobDay(j) == d
  {
  }

  /** How many jobs are dated from `lo` up to but excluding `hi`. */
  function CountBetween(jobs: seq<Job>, lo: int, hi: int): nat {
    if jobs == [] then 0
    else
      CountBetween(jobs[..|jobs| - 1], lo, hi)
      + (if lo <= JobDay(jobs[|jobs| - 1]) < hi then 1 else 0)
  }

  /** Sum of the bucket sizes of the `n` days from `lo`. */
  function SumBuckets(jobs: seq<Job>, lo: int, n: nat): nat {
    if n == 0 then 0 else SumBuckets(jobs, lo, n - 1) + |OnDay(jobs, lo + n - 1)|
  }

  /** Widening the window by one day adds that day's bucket. */
  lemma {:induction false} CountBetweenStep(jobs: seq<Job>, lo: int, hi: int)
    requires lo <= hi
    ensures CountBetween(jobs, lo, hi + 1) == CountBetween(jobs, lo, hi) + |OnDay(jobs, hi)|
  {
    if jobs != [] {
      CountBetweenStep(jobs[..|jobs| - 1], lo, hi);
    }
  }

  /** The buckets of `n` consecutive days hold exactly the jobs dated in those days. */
  lemma {:induction false} SumBucketsCounts(jobs: seq<Job>, lo: int, n: nat)
    ensures SumBuckets(jobs, lo, n) == CountBetween(jobs, lo, lo + n)
  {
    if n == 0 {
      CountBetweenEmpty(jobs, lo);
    } else {
      SumBucketsCounts(jobs, lo, n - 1);
      CountBetweenStep(jobs, lo, lo + n - 1);
    }
  }

  lemma {:induction false} CountBetweenEmpty(jobs: seq<Job>, lo: int)
    ensures CountBetween(jobs, lo, lo) == 0
  {
    if jobs != [] {
      CountBetweenEmpty(jobs[..|jobs| - 1], lo);
    }
  }

  /** How many jobs are dated on or before `today`. */
  function CountUpTo(jobs: seq<Job>, today: int): nat {
    if jobs == [] then 0
    else CountUpTo(jobs[..|jobs| - 1], today) + (if JobDay(jobs[|jobs| - 1]) <= today then 1 else 0)
  }

  /** With `lo` at or below every job's day, the window up to `today` is everything up to today. */
  lemma {:induction false} CountBetweenFromEarliest(jobs: seq<Job>, lo: int, today: int)
    requires forall k :: 0 <= k < |jobs| ==> lo <= JobDay(jobs[k])
    ensures CountBetween(jobs, lo, today + 1) == CountUpTo(jobs, today)
  {
    if jobs != [] {
      CountBetweenFromEarliest(jobs[..|jobs| - 1], lo, today);
    }
  }

  // ---------------------------------------------------------------------
  // Placement and hit-test

  /**
   * One bar of the stacked chart: drawn at `x`, one unit high, its base at
   * `base`, so it covers heights from `base` up to `base + 1`.
   */
  datatype Bar = Bar(x: nat, base: nat, job: Job)

  /** The bars of the day at axis position `i`, stacked in bucket order. */
  function DayBars(i: nat, bucket: seq<Job>): (r: seq<Bar>)
    ensures |r| == |bucket|
    ensures forall k :: 0 <= k < |r| ==> r[k] == Bar(i, k, bucket[k])
  {
    seq(|bucket|, k requires 0 <= k < |bucket| => Bar(i, k, bucket[k]))
  }

  /** The bars of the first `n` axis days, day by day. */
  function Placement(c: Chart, n: nat): seq<Bar>
    requires n <= |c.dates|
  {
    if n == 0 then [] else Placement(c, n - 1) + DayBars(n - 1, BucketAt(c, n - 1))
  }

  /** All bars of the chart. */
  function Bars(c: Chart): seq<Bar> {
    Placement(c, |c.dates|)
  }

  /** Every bar of the placement is the job at stack position `base` of day `x`. */
  lemma {:induction false} PlacementBar(c: Chart, n: nat, p: nat)
    requires n <= |c.dates| && p < |Placement(c, n)|
    ensures Placement(c, n)[p].x < n
    ensures Placement(c, n)[p].base < |BucketAt(c, Placement(c, n)[p].x)|
    ensures Placement(c, n)[p].job == BucketAt(c, Placement(c, n)[p].x)[Placement(c, n)[p].base]
  {
    var prev := Placement(c, n - 1);
    if p >= |prev| {
      assert Placement(c, n)[p] == DayBars(n - 1, BucketAt(c, n - 1))[p - |prev|];
    } else {
      PlacementBar(c, n - 1, p);
      assert Placement(c, n)[p] == prev[p];
    }
  }

  /** Every job of every bucket is drawn: day `i`, stack position `k` has its bar. */
  lemma {:induction false} PlacementHasBar(c: Chart, n: nat, i: nat, k: nat)
    requires n <= |c.dates| && i < n && k < |BucketAt(c, i)|
    ensures Bar(i, k, BucketAt(c, i)[k]) in Placement(c, n)
  {
    var prev := Placement(c, n - 1);
    if i == n - 1 {
      assert Placement(c, n)[|prev| + k] == Bar(i, k, BucketAt(c, i)[k]);
    } else {
      PlacementHasBar(c, n - 1, i, k);
    }
  }

  /** `f64::floor`. */
  function Floor(x: real): int {
    x.Floor
  }

  /** `f64::round`: to the nearest integer, halves away from zero. */
  function Round(x: real): (r: int)
    ensures x >= 0.0 ==> r as real - 0.5 <= x < r as real + 0.5
    ensures x < 0.0 ==> r as real - 0.5 < x <= r as real + 0.5
  {
    if x >= 0.0 then (x + 0.5).Floor else -((-x + 0.5).Floor)
  }

  /** A float-to-`usize` cast of an integral value: saturating at both ends. */
  function SaturatingUsize(n: int): (r: nat)
    ensures 0 <= n <= USIZE_MAX ==> r == n
    ensures n < 0 ==> r == 0
    ensures n > USIZE_MAX ==> r == USIZE_MAX
  {
    if n < 0 then 0 else if n > USIZE_MAX then USIZE_MAX else n
  }

  /**
   * The click handler's lookup: the day at `round(x)` and, within its
   * bucket, the job at `floor(y)`, both cast to `usize`; nothing when either
   * is out of range.
   */
  function HitTest(c: Chart, x: real, y: real): Option<Job> {
    var day := SaturatingUsize(Round(x));
    if day < |c.dates| && c.dates[day] in c.buckets then
      var jobs := c.buckets[c.dates[day]];
      var stack := SaturatingUsize(Floor(y));
      if stack < |jobs| then Some(jobs[stack]) else None
    else None
  }

  /** Every list of the chart is indexable by `usize`, as every Rust `Vec` is. */
  predicate FitsUsize(c: Chart) {
    |c.dates| <= USIZE_MAX && forall d :: d in c.buckets ==> |c.buckets[d]| <= USIZE_MAX
  }

  /** A click at the centre of a bar hits that bar's job. */
  lemma HitTestAtBar(c: Chart, b: Bar)
    requires FitsUsize(c)
    requires b in Bars(c)
    ensures HitTest(c, b.x as real, b.base as real + 0.5) == Some(b.job)
  {
    var p :| 0 <= p < |Bars(c)| && Bars(c)[p] == b;
    PlacementBar(c, |c.dates|, p);
    assert c.dates[b.x] in c.buckets;
    assert forall d :: d in c.buckets ==> |c.buckets[d]| <= USIZE_MAX;
    assert Round(b.x as real) == b.x;
    assert Floor(b.base as real + 0.5) == b.base;
  }

  /**
   * Placement and hit-test are inverse: a click hits a job exactly when the
   * click's day and stack indices are those of a bar, and then it hits that
   * bar's job. Negative coordinates count as index 0.
   */
  lemma HitTestInverse(c: Chart, x: real, y: real)
    ensures HitTest(c, x, y).Some? <==>
      exists b :: b in Bars(c) && b.x == SaturatingUsize(Round(x)) && b.base == SaturatingUsize(Floor(y))
    ensures forall b :: (b in Bars(c) && b.x == SaturatingUsize(Round(x)) &&
                         b.base == SaturatingUsize(Floor(y))) ==> HitTest(c, x, y) == Some(b.job)
  {
    var i := SaturatingUsize(Round(x));
    var k := SaturatingUsize(Floor(y));
    forall b | b in Bars(c) && b.x == i && b.base == k
      ensures HitTest(c, x, y) == Some(b.job)
    {
      var p :| 0 <= p < |Bars(c)| && Bars(c)[p] == b;
      PlacementBar(c, |c.dates|, p);
    }
    if HitTest(c, x, y).Some? {
      PlacementHasBar(c, |c.dates|, i, k);
    }
  }

  /** Clicks left of the axis or below the chart act like clicks on index 0. */
  lemma NegativeClickSaturates(c: Chart, x: real, y: real)
    requires x < 0.0 && y < 0.0
    ensures HitTest(c, x, y) == HitTest(c, 0.0, 0.0)
  {
  }

  // ---------------------------------------------------------------------
  // The chart built from a job list

  /**
   * A job dated on or before today is in the chart's bucket at axis position
   * `day - earliest`, the position of its own day, at its stack index.
   */
  lemma ChartPlacesJob(jobs: seq<Job>, today: int, p: nat)
    requires p < |jobs| && JobDay(jobs[p]) <= today
    ensures var c := ChartOf(jobs, today);
      var i := JobDay(jobs[p]) - EarliestDay(jobs, today);
      && 0 <= i < |c.dates| && c.dates[i] == JobDay(jobs[p])
      && StackIndex(jobs, p) < |BucketAt(c, i)|
      && BucketAt(c, i)[StackIndex(jobs, p)] == jobs[p]
  {
    DayRangeContiguous(EarliestDay(jobs, today), today);
    OnDayStack(jobs, p);
  }

  /** A job dated after today is in no bucket of the chart. */
  lemma ChartExcludesFuture(jobs: seq<Job>, today: int, j: Job, d: int)
    requires JobDay(j) > today && d in ChartOf(jobs, today).buckets
    ensures j !in ChartOf(jobs, today).buckets[d]
  {
    DayRangeContiguous(EarliestDay(jobs, today), today);
  }

  /** Sum of the sizes of the chart's buckets at the first `n` axis positions. */
  function ChartSize(c: Chart, n: nat): nat
    requires n <= |c.dates|
  {
    if n == 0 then 0 else ChartSize(c, n - 1) + |BucketAt(c, n - 1)|
  }

  /** The bucket at axis position `k` of the chart holds the jobs of day `earliest + k`. */
  lemma ChartBucketsConsecutive(jobs: seq<Job>, today: int)
    ensures forall k :: 0 <= k < |ChartOf(jobs, today).dates| ==>
      BucketAt(ChartOf(jobs, today), k) == OnDay(jobs, EarliestDay(jobs, today) + k)
  {
  }

  /** A chart whose first `n` buckets are the jobs of consecutive days from `lo` sums to `SumBuckets`. */
  lemma {:induction false} ChartSizeOf(c: Chart, jobs: seq<Job>, lo: int, n: nat)
    requires n <= |c.dates|
    requires forall k :: 0 <= k < n ==> BucketAt(c, k) == OnDay(jobs, lo + k)
    ensures ChartSize(c, n) == SumBuckets(jobs, lo, n)
  {
    if n > 0 {
      ChartSizeOf(c, jobs, lo, n - 1);
      assert BucketAt(c, n - 1) == OnDay(jobs, lo + (n - 1));
    }
  }

  /** Each axis position contributes one bar per job in its bucket. */
  lemma {:induction false} PlacementSize(c: Chart, n: nat)
    requires n <= |c.dates|
    ensures |Placement(c, n)| == ChartSize(c, n)
  {
    if n > 0 {
      PlacementSize(c, n - 1);
    }
  }

  /** The per-day bucket sizes over the axis add up to the number of jobs dated on or before today. */
  lemma SumBucketsTotal(jobs: seq<Job>, today: int)
    ensures SumBuckets(jobs, EarliestDay(jobs, today), |ChartOf(jobs, today).dates|) == CountUpTo(jobs, today)
  {
    var lo := EarliestDay(jobs, today);
    SumBucketsCounts(jobs, lo, |ChartOf(jobs, today).dates|);
    if lo <= today {
      CountBetweenFromEarliest(jobs, lo, today);
    } else {
      CountUpToNone(jobs, today);
    }
  }

  /**
   * The chart's buckets together hold exactly as many jobs as are dated on
   * or before today, and that many bars are drawn.
   */
  lemma ChartTotal(jobs: seq<Job>, today: int)
    ensures ChartSize(ChartOf(jobs, today), |ChartOf(jobs, today).dates|) == CountUpTo(jobs, today)
    ensures |Bars(ChartOf(jobs, today))| == CountUpTo(jobs, today)
  {
    var c := ChartOf(jobs, today);
    ChartBucketsConsecutive(jobs, today);
    ChartSizeOf(c, jobs, EarliestDay(jobs, today), |c.dates|);
    SumBucketsTotal(jobs, today);
    PlacementSize(c, |c.dates|);
  }

  /** With the earliest day after today, no job is dated on or before today. */
  lemma {:induction false} CountUpToNone(jobs: seq<Job>, today: int)
    requires EarliestDay(jobs, today) > today
    ensures CountUpTo(jobs, today) == 0
  {
    if jobs != [] {
      var init := jobs[..|jobs| - 1];
      if init != [] {
        assert EarliestDay(init, today) >= EarliestDay(jobs, today);
        CountUpToNone(init, today);
      }
    }
  }

  /**
   * The placement round trip for the chart of a job list: the job at
   * position `p`, dated on or before today, is drawn at axis position
   * `day - earliest` with its bar based at its stack index, and a click in
   * the middle of that bar selects it.
   */
  lemma ChartRoundTrip(jobs: seq<Job>, today: int, p: nat)
    requires |jobs| <= USIZE_MAX && today - EarliestDay(jobs, today) < USIZE_MAX
    requires p < |jobs| && JobDay(jobs[p]) <= today
    ensures var c := ChartOf(jobs, today);
      var i := JobDay(jobs[p]) - EarliestDay(jobs, today);
      && 0 <= i
      && Bar(i, StackIndex(jobs, p), jobs[p]) in Bars(c)
      && HitTest(c, i as real, StackIndex(jobs, p) as real + 0.5) == Some(jobs[p])
  {
    var c := ChartOf(jobs, today);
    var i := JobDay(jobs[p]) - EarliestDay(jobs, today);
    ChartPlacesJob(jobs, today, p);
    PlacementHasBar(c, |c.dates|, i, StackIndex(jobs, p));
    assert FitsUsize(c);
    HitTestAtBar(c, Bar(i, StackIndex(jobs, p), jobs[p]));
  }

  /**
   * Gap filling: jobs on day `d0` and day `d0 + 5`, viewed on day `d0 + 5`,
   * give an axis of six days whose four middle buckets are empty.
   */
  lemma GapFilled(a: Job, b: Job, d0: int, today: int)
    requires JobDay(a) == d0 && JobDay(b) == d0 + 5 && today == d0 + 5
    ensures |ChartOf([a, b], today).dates| == 6
    ensures BucketAt(ChartOf([a, b], today), 0) == [a]
    ensures BucketAt(ChartOf([a, b], today), 5) == [b]
    ensures forall i :: 1 <= i <= 4 ==> BucketAt(ChartOf([a, b], today), i) == []
  {
    var jobs := [a, b];
    assert EarliestDay(jobs, today) == d0;
    var c := ChartOf(jobs, today);
    assert c.dates == DayRange(d0, today);
    forall i | 0 <= i <= 5 ensures BucketAt(c, i) == OnDay(jobs, d0 + i) {
      assert c.dates[i] == d0 + i;
    }
    OnDayPair(a, b, d0);
    OnDayPair(a, b, today);
    forall i | 1 <= i <= 4 ensures BucketAt(c, i) == [] {
      OnDayPair(a, b, d0 + i);
    }
  }

  lemma OnDayPair(a: Job, b: Job, d: int)
    ensures OnDay([a, b], d) ==
      (if JobDay(a) == d then [a] else []) + (if JobDay(b) == d then [b] else [])
  {
    assert [a, b][..1] == [a];
    assert [a][..0] == [];
  }
}
