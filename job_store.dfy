/**
 * The in-memory job store (jobtracker-core/src/job_store.rs): id
 * assignment, append, positional delete, update of one field by id, and
 * recomputation of the summary counters. Every mutator writes the whole
 * list to the data file afterwards; the outcome of that write is a
 * parameter (`saveOk`), and the file's contents are the `persisted` field.
 */
module Store {
  import opened Wrappers
  import opened Jobs
  import opened SourceParse

  /** The error `save_to_file` propagates: the data file could not be written. */
  datatype StoreError = WriteError

  /** The outcome a mutator returns: a copy of the list, or the save error. */
  type StoreResult = Result<seq<Job>, StoreError>

  // ---------------------------------------------------------------------
  // Identifiers

  /** Largest id in the list, 0 for the empty list. */
  function MaxId(jobs: seq<Job>): (m: U32)
    ensures forall k :: 0 <= k < |jobs| ==> jobs[k].id <= m
    ensures jobs == [] ==> m == 0
    ensures jobs != [] ==> exists k :: 0 <= k < |jobs| && jobs[k].id == m
  {
    if jobs == [] then 0
    else
      var rest := MaxId(jobs[..|jobs| - 1]);
      if jobs[|jobs| - 1].id > rest then jobs[|jobs| - 1].id else rest
  }

  /** No two jobs share an id. */
  predicate UniqueIds(jobs: seq<Job>) {
    forall i, j :: 0 <= i < j < |jobs| ==> jobs[i].id != jobs[j].id
  }

  /** The id `add_job` assigns is new and larger than every id present. */
  lemma NewIdIsFresh(jobs: seq<Job>, j: Job)
    requires j.id == MaxId(jobs) + 1
    ensures forall k :: 0 <= k < |jobs| ==> jobs[k].id < j.id
    ensures UniqueIds(jobs) ==> UniqueIds(jobs + [j])
  {
  }

  /** The list without its element at `i`, the rest in their order. */
  function RemoveAt(jobs: seq<Job>, i: nat): (r: seq<Job>)
    requires i < |jobs|
    ensures |r| == |jobs| - 1
    ensures forall k :: 0 <= k < i ==> r[k] == jobs[k]
    ensures forall k :: i <= k < |r| ==> r[k] == jobs[k + 1]
  {
    jobs[..i] + jobs[i + 1..]
  }

  /**
   * Deleting the job holding the largest id lets the next `add_job` hand out
   * an id no larger than the deleted one: ids are not monotonic over the
   * store's lifetime.
   */
  lemma {:induction false} DeleteMaxLowersNextId(jobs: seq<Job>, i: nat)
    requires i < |jobs| && UniqueIds(jobs) && jobs[i].id == MaxId(jobs)
    ensures |jobs| > 1 ==> MaxId(RemoveAt(jobs, i)) < jobs[i].id
    ensures jobs[i].id > 0 ==> MaxId(RemoveAt(jobs, i)) + 1 <= jobs[i].id
  {
    var r := RemoveAt(jobs, i);
    if r != [] {
      var k :| 0 <= k < |r| && r[k].id == MaxId(r);
      var src := if k < i then k else k + 1;
      assert r[k] == jobs[src] && src != i;
      if src < i {
        assert jobs[src].id != jobs[i].id;
      } else {
        assert jobs[i].id != jobs[src].id;
      }
    }
  }

  /** A concrete case: delete the newer of two jobs, and the next job gets its id again. */
  lemma IdReusedAfterDelete(a: Job, b: Job)
    requires a.id == 1 && b.id == 2
    ensures MaxId(RemoveAt([a, b], 1)) + 1 == b.id
  {
    assert RemoveAt([a, b], 1) == [a];
    assert [a][..0] == [];
  }

  // ---------------------------------------------------------------------
  // Field updates by id

  /** The single-field changes the `update_*` methods make. */
  datatype Edit =
    | SetStatus(status: JobStatus)
    | SetSource(source: JobSource)
    | SetCompany(company: string)
    | SetTimestamp(timestamp: Timestamp)

  /** The job with the one field an edit names replaced. */
  function Apply(j: Job, e: Edit): Job {
    match e
    case SetStatus(s) => j.(status := s)
    case SetSource(s) => j.(source := Some(s))
    case SetCompany(c) => j.(company := c)
    case SetTimestamp(t) => j.(timestamp := t)
  }

  /** An edit keeps id, role and location, and every field it does not name. */
  lemma ApplyFrame(j: Job, e: Edit)
    ensures Apply(j, e).id == j.id && Apply(j, e).role == j.role
    ensures Apply(j, e).location == j.location
    ensures !e.SetStatus? ==> Apply(j, e).status == j.status
    ensures !e.SetSource? ==> Apply(j, e).source == j.source
    ensures !e.SetCompany? ==> Apply(j, e).company == j.company
    ensures !e.SetTimestamp? ==> Apply(j, e).timestamp == j.timestamp
    ensures e.SetStatus? ==> Apply(j, e).status == e.status
    ensures e.SetSource? ==> Apply(j, e).source == Some(e.source)
    ensures e.SetCompany? ==> Apply(j, e).company == e.company
    ensures e.SetTimestamp? ==> Apply(j, e).timestamp == e.timestamp
  {
  }

  /** The position `iter_mut().find(|j| j.id == id)` stops at: the first job with that id. */
  function FirstWithId(jobs: seq<Job>, id: U32): (r: Option<nat>)
    ensures r.Some? ==> r.value < |jobs| && jobs[r.value].id == id
    ensures r.Some? ==> forall k :: 0 <= k < r.value ==> jobs[k].id != id
    ensures r.None? <==> forall k :: 0 <= k < |jobs| ==> jobs[k].id != id
  {
    if jobs == [] then None
    else if jobs[0].id == id then Some(0)
    else match FirstWithId(jobs[1..], id)
      case None => None
      case Some(k) => Some(k + 1)
  }

  /** The list after an `update_*` call: the first job with `id` edited, if there is one. */
  function UpdatedById(jobs: seq<Job>, id: U32, e: Edit): seq<Job> {
    match FirstWithId(jobs, id)
    case None => jobs
    case Some(i) => jobs[i := Apply(jobs[i], e)]
  }

  /**
   * An update changes at most one job, the first holding `id`, and only in
   * the edited field; with no such job the list is unchanged. Ids are kept,
   * so unique ids stay unique and the next id is the same.
   */
  lemma UpdateFrame(jobs: seq<Job>, id: U32, e: Edit)
    ensures |UpdatedById(jobs, id, e)| == |jobs|
    ensures (forall k :: 0 <= k < |jobs| ==> jobs[k].id != id) ==> UpdatedById(jobs, id, e) == jobs
    ensures forall k :: 0 <= k < |jobs| && jobs[k].id != id ==> UpdatedById(jobs, id, e)[k] == jobs[k]
    ensures forall k :: 0 <= k < |jobs| ==> UpdatedById(jobs, id, e)[k].id == jobs[k].id
    ensures UniqueIds(jobs) ==> UniqueIds(UpdatedById(jobs, id, e))
    ensures MaxId(UpdatedById(jobs, id, e)) == MaxId(jobs)
  {
    var r := UpdatedById(jobs, id, e);
    var f := FirstWithId(jobs, id);
    if f.Some? {
      ApplyFrame(jobs[f.value], e);
    }
    assert forall k :: 0 <= k < |jobs| ==> r[k].id == jobs[k].id;
    MaxIdOfSameIds(jobs, r);
  }

  /** Lists with the same ids, position by position, have the same largest id. */
  lemma {:induction false} MaxIdOfSameIds(a: seq<Job>, b: seq<Job>)
    requires |a| == |b| && forall k :: 0 <= k < |a| ==> a[k].id == b[k].id
    ensures MaxId(a) == MaxId(b)
  {
    if a != [] {
      MaxIdOfSameIds(a[..|a| - 1], b[..|b| - 1]);
    }
  }

  // ---------------------------------------------------------------------
  // Summary counters

  /** How many jobs are in status `s`. */
  function CountStatus(jobs: seq<Job>, s: JobStatus): (n: nat)
    ensures n <= |jobs|
  {
    if jobs == [] then 0
    else CountStatus(jobs[..|jobs| - 1], s) + (if jobs[|jobs| - 1].status == s then 1 else 0)
  }

  /** The counters `calculate_summary_stats` produces for a list. */
  function Summarize(jobs: seq<Job>): SummaryCounts {
    SummaryCounts(
      total := |jobs|,
      rejected := CountStatus(jobs, Rejected),
      ghosted := CountStatus(jobs, Ghosted),
      applied := CountStatus(jobs, Applied),
      interviews := CountStatus(jobs, Interview),
      offers := CountStatus(jobs, Offer))
  }

  /** The per-status counters always add up to the total. */
  lemma {:induction false} SummaryAddsUp(jobs: seq<Job>)
    ensures Summarize(jobs).StatusSum() == Summarize(jobs).total == |jobs|
  {
    if jobs != [] {
      SummaryAddsUp(jobs[..|jobs| - 1]);
    }
  }

  /** Counting by status does not depend on the order of the list. */
  lemma {:induction false} CountStatusIsMultisetCount(jobs: seq<Job>, s: JobStatus)
    ensures CountStatus(jobs, s) == |set k | 0 <= k < |jobs| && jobs[k].status == s|
  {
    if jobs != [] {
      var init := jobs[..|jobs| - 1];
      CountStatusIsMultisetCount(init, s);
      var a := set k | 0 <= k < |init| && init[k].status == s;
      var b := set k | 0 <= k < |jobs| && jobs[k].status == s;
      if jobs[|jobs| - 1].status == s {
        assert b == a + {|jobs| - 1};
      } else {
        assert b == a;
      }
    }
  }

  // ---------------------------------------------------------------------
  // The store

  class JobStore {
    /** The jobs, in insertion order. */
    var jobs: seq<Job>
    /** The counters as of the last `CalculateSummaryStats`. */
    var summaryStats: SummaryCounts
    /** The data file's contents: the list as of the last successful save. */
    var persisted: seq<Job>

    /** `JobStore::default()`: no jobs and every counter zero; `file` is what the data file holds. */
    constructor (file: seq<Job>)
      ensures jobs == [] && summaryStats == DefaultSummaryCounts && persisted == file
    {
      jobs := [];
      summaryStats := DefaultSummaryCounts;
      persisted := file;
    }

    /** `save_to_file`: writes the whole list when the write succeeds; the list is never rolled back. */
    method SaveToFile(saveOk: bool) returns (r: StoreResult)
      modifies this`persisted
      ensures persisted == (if saveOk then jobs else old(persisted))
      ensures r == (if saveOk then Success(jobs) else Failure(WriteError))
    {
      if saveOk {
        persisted := jobs;
        r := Success(jobs);
      } else {
        r := Failure(WriteError);
      }
    }

    /** `calculate_summary_stats`: reset the counters, then count every job once. */
    method CalculateSummaryStats()
      modifies this`summaryStats
      ensures summaryStats == Summarize(jobs)
    {
      summaryStats := DefaultSummaryCounts;
      for i := 0 to |jobs|
        invariant summaryStats == Summarize(jobs[..i])
      {
        assert jobs[..i + 1][..i] == jobs[..i];
        var job := jobs[i];
        summaryStats := summaryStats.(total := summaryStats.total + 1);
        match job.status {
          case Rejected => summaryStats := summaryStats.(rejected := summaryStats.rejected + 1);
          case Ghosted => summaryStats := summaryStats.(ghosted := summaryStats.ghosted + 1);
          case Applied => summaryStats := summaryStats.(applied := summaryStats.applied + 1);
          case Interview => summaryStats := summaryStats.(interviews := summaryStats.interviews + 1);
          case Offer => summaryStats := summaryStats.(offers := summaryStats.offers + 1);
        }
      }
      assert jobs[..|jobs|] == jobs;
    }

    /** `jobs.iter().map(|a| a.id).max().unwrap_or(0) + 1`. */
    method NextJobId() returns (id: nat)
      ensures id == MaxId(jobs) + 1
    {
      var max: U32 := 0;
      for i := 0 to |jobs|
        invariant max == MaxId(jobs[..i])
      {
        assert jobs[..i + 1][..i] == jobs[..i];
        if jobs[i].id > max {
          max := jobs[i].id;
        }
      }
      assert jobs[..|jobs|] == jobs;
      id := max + 1;
    }

    /**
     * `add_job`: append a job with the next id, status `Applied`, the given
     * location, the parsed source and the current time `now`, then save.
     * The id must fit a `u32`, which holds while the largest id is below
     * `U32_MAX`.
     */
    method AddJob(company: string, role: string, location: string, source: string,
                  now: Timestamp, saveOk: bool) returns (r: StoreResult)
      requires MaxId(jobs) < U32_MAX
      modifies this`jobs, this`persisted
      ensures jobs == old(jobs) + [Job(MaxId(old(jobs)) + 1, company, role, Some(location),
                                       Applied, now, Some(ParseSource(source)))]
      ensures persisted == (if saveOk then jobs else old(persisted))
      ensures r == (if saveOk then Success(jobs) else Failure(WriteError))
    {
      var id := NextJobId();
      jobs := jobs + [Job(id, company, role, Some(location), Applied, now, Some(ParseSource(source)))];
      r := SaveToFile(saveOk);
    }

    /** `list_jobs`: a copy of the list. */
    method ListJobs() returns (r: StoreResult)
      ensures r == Success(jobs)
    {
      r := Success(jobs);
    }

    /**
     * `delete_job`: remove the job at position `index` and save; an index
     * past the end changes nothing, skips the save and succeeds.
     */
    method DeleteJob(index: nat, saveOk: bool) returns (r: StoreResult)
      modifies this`jobs, this`persisted
      ensures index < |old(jobs)| ==> jobs == RemoveAt(old(jobs), index)
      ensures index < |old(jobs)| ==> persisted == (if saveOk then jobs else old(persisted))
      ensures index < |old(jobs)| ==> r == (if saveOk then Success(jobs) else Failure(WriteError))
      ensures index >= |old(jobs)| ==> jobs == old(jobs) && persisted == old(persisted) && r == Success(jobs)
    {
      if index < |jobs| {
        jobs := jobs[..index] + jobs[index + 1..];
        r := SaveToFile(saveOk);
      } else {
        r := Success(jobs);
      }
    }

    /** The search `iter_mut().find(|j| j.id == id)` performs. */
    method Find(id: U32) returns (r: Option<nat>)
      ensures r == FirstWithId(jobs, id)
    {
      var i := 0;
      while i < |jobs|
        invariant 0 <= i <= |jobs|
        invariant forall k :: 0 <= k < i ==> jobs[k].id != id
      {
        if jobs[i].id == id {
          FirstWithIdIsFirst(jobs, id, i);
          return Some(i);
        }
        i := i + 1;
      }
      r := None;
    }

    /** The body shared by the four `update_*` methods. */
    method Update(id: U32, e: Edit, saveOk: bool) returns (r: StoreResult)
      modifies this`jobs, this`persisted
      ensures jobs == UpdatedById(old(jobs), id, e)
      ensures FirstWithId(old(jobs), id).Some? ==>
        persisted == (if saveOk then jobs else old(persisted)) &&
        r == (if saveOk then Success(jobs) else Failure(WriteError))
      ensures FirstWithId(old(jobs), id).None? ==> persisted == old(persisted) && r == Success(jobs)
    {
      var found := Find(id);
      if found.Some? {
        var i := found.value;
        jobs := jobs[i := Apply(jobs[i], e)];
        r := SaveToFile(saveOk);
      } else {
        r := Success(jobs);
      }
    }

    /** `update_status`. */
    method UpdateStatus(id: U32, status: JobStatus, saveOk: bool) returns (r: StoreResult)
      modifies this`jobs, this`persisted
      ensures jobs == UpdatedById(old(jobs), id, SetStatus(status))
      ensures FirstWithId(old(jobs), id).Some? ==>
        persisted == (if saveOk then jobs else old(persisted)) &&
        r == (if saveOk then Success(jobs) else Failure(WriteError))
      ensures FirstWithId(old(jobs), id).None? ==> persisted == old(persisted) && r == Success(jobs)
    {
      r := Update(id, SetStatus(status), saveOk);
    }

    /** `update_source`. */
    method UpdateSource(id: U32, source: JobSource, saveOk: bool) returns (r: StoreResult)
      modifies this`jobs, this`persisted
      ensures jobs == UpdatedById(old(jobs), id, SetSource(source))
      ensures FirstWithId(old(jobs), id).Some? ==>
        persisted == (if saveOk then jobs else old(persisted)) &&
        r == (if saveOk then Success(jobs) else Failure(WriteError))
      ensures FirstWithId(old(jobs), id).None? ==> persisted == old(persisted) && r == Success(jobs)
    {
      r := Update(id, SetSource(source), saveOk);
    }

    /** `update_company`. */
    method UpdateCompany(id: U32, company: string, saveOk: bool) returns (r: StoreResult)
      modifies this`jobs, this`persisted
      ensures jobs == UpdatedById(old(jobs), id, SetCompany(company))
      ensures FirstWithId(old(jobs), id).Some? ==>
        persisted == (if saveOk then jobs else old(persisted)) &&
        r == (if saveOk then Success(jobs) else Failure(WriteError))
      ensures FirstWithId(old(jobs), id).None? ==> persisted == old(persisted) && r == Success(jobs)
    {
      r := Update(id, SetCompany(company), saveOk);
    }

    /** `update_timestamp`. */
    method UpdateTimestamp(id: U32, timestamp: Timestamp, saveOk: bool) returns (r: StoreResult)
      modifies this`jobs, this`persisted
      ensures jobs == UpdatedById(old(jobs), id, SetTimestamp(timestamp))
      ensures FirstWithId(old(jobs), id).Some? ==>
        persisted == (if saveOk then jobs else old(persisted)) &&
        r == (if saveOk then Success(jobs) else Failure(WriteError))
      ensures FirstWithId(old(jobs), id).None? ==> persisted == old(persisted) && r == Success(jobs)
    {
      r := Update(id, SetTimestamp(timestamp), saveOk);
    }
  }

  /** A job with `id` after `i` jobs without it is the first one. */
  lemma {:induction false} FirstWithIdIsFirst(jobs: seq<Job>, id: U32, i: nat)
    requires i < |jobs| && jobs[i].id == id
    requires forall k :: 0 <= k < i ==> jobs[k].id != id
    ensures FirstWithId(jobs, id) == Some(i)
  {
    if i > 0 {
      FirstWithIdIsFirst(jobs[1..], id, i - 1);
    }
  }
}
