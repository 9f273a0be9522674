/**
 * The search filter of the job grid (jobtracker-core/src/job_app.rs, the
 * `filter(...).enumerate()` over the store's jobs): a job is shown when the
 * lower-cased search text occurs in its lower-cased company, role, status
 * text or location.
 */
module JobFilter {
  import opened Wrappers
  import opened Jobs
  import opened AsciiText
  import opened StatusDisplay

  /** The location as the filter sees it: `role_location.unwrap_or_default()`. */
  function LocationText(j: Job): string {
    match j.location
    case Some(l) => l
    case None => ""
  }

  /** Whether the row of `j` is shown for the search text `search`. */
  predicate Matches(j: Job, search: string) {
    var q := Lower(search);
    || q == ""
    || Contains(Lower(j.company), q)
    || Contains(Lower(j.role), q)
    || Contains(Lower(StatusText(j.status)), q)
    || Contains(Lower(LocationText(j)), q)
  }

  /** The jobs shown, in list order. */
  function Filtered(jobs: seq<Job>, search: string): (r: seq<Job>)
    ensures |r| <= |jobs|
    ensures forall j :: j in r <==> j in jobs && Matches(j, search)
  {
    if jobs == [] then []
    else
      var last := jobs[|jobs| - 1];
      Filtered(jobs[..|jobs| - 1], search) + (if Matches(last, search) then [last] else [])
  }

  /** The rows of the grid: each shown job with its index among the shown jobs. */
  function Rows(jobs: seq<Job>, search: string): (r: seq<(nat, Job)>)
    ensures |r| == |Filtered(jobs, search)|
    ensures forall i :: 0 <= i < |r| ==> r[i] == (i, Filtered(jobs, search)[i])
  {
    var shown := Filtered(jobs, search);
    seq(|shown|, i requires 0 <= i < |shown| => (i, shown[i]))
  }

  /** An empty search shows every job. */
  lemma {:induction false} FilterEmptySearch(jobs: seq<Job>)
    ensures Filtered(jobs, "") == jobs
  {
    if jobs != [] {
      FilterEmptySearch(jobs[..|jobs| - 1]);
    }
  }

  /** Filtering distributes over concatenation, so it keeps the relative order of the jobs. */
  lemma {:induction false} FilterAppend(a: seq<Job>, b: seq<Job>, search: string)
    ensures Filtered(a + b, search) == Filtered(a, search) + Filtered(b, search)
    decreases |b|
  {
    if b == [] {
      assert a + b == a;
    } else {
      var init, last := b[..|b| - 1], b[|b| - 1];
      var tail := if Matches(last, search) then [last] else [];
      assert (a + b)[..|a + b| - 1] == a + init;
      assert (a + b)[|a + b| - 1] == last;
      calc {
        Filtered(a + b, search);
        Filtered(a + init, search) + tail;
        { FilterAppend(a, init, search); }
        Filtered(a, search) + Filtered(init, search) + tail;
        Filtered(a, search) + (Filtered(init, search) + tail);
      }
    }
  }

  /** The search ignores letter case. */
  lemma FilterCaseInsensitive(j: Job, search: string)
    ensures Matches(j, search) == Matches(j, Lower(search))
  {
    LowerIdempotent(search);
  }

  /**
   * A search text equal to a status name (in any letter case) matches the
   * status column of exactly the jobs in that status; such jobs are shown.
   */
  lemma StatusSearch(j: Job, s: JobStatus, search: string)
    requires Lower(search) == Lower(StatusText(s))
    ensures Contains(Lower(StatusText(j.status)), Lower(search)) <==> j.status == s
    ensures j.status == s ==> Matches(j, search)
  {
    StatusTextMatch(s, j.status);
  }
}
