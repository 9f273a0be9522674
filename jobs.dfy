/**
 * The record types of the job tracker (jobtracker-core/src/lib.rs):
 * a `Job`, its `JobStatus` and `JobSource`, and the `SummaryCounts`
 * that the store recomputes from its jobs.
 */
module Jobs {
  import opened Wrappers

  /** Largest value of a Rust `u32`. */
  const U32_MAX: nat := 0xFFFF_FFFF

  /** A Rust `u32`: job ids have this type. */
  type U32 = x: nat | x <= U32_MAX

  /** An instant, in whole seconds since the Unix epoch, UTC. */
  type Timestamp = int

  /** The stage of an application; a job is in exactly one of them. */
  datatype JobStatus = Applied | Interview | Offer | Rejected | Ghosted

  /**
   * Where an application was found. `ZipRecruiter` is not declared in
   * lib.rs but is displayed and parsed by job_source.rs, so it is part of
   * the type here.
   */
  datatype JobSource =
    | Recruiter | LinkedIn | Monster | Indeed | NotProvided | Talent | Glassdoor
    | ZipRecruiter

  /** One tracked job application. */
  datatype Job = Job(
    id: U32,
    company: string,
    role: string,
    location: Option<string>,
    status: JobStatus,
    timestamp: Timestamp,
    source: Option<JobSource>)

  /** Per-status counters and their total, valid as of the last recomputation. */
  datatype SummaryCounts = SummaryCounts(
    total: nat,
    rejected: nat,
    ghosted: nat,
    applied: nat,
    interviews: nat,
    offers: nat)
  {
    /** The five per-status counters added up. */
    function StatusSum(): nat {
      rejected + ghosted + applied + interviews + offers
    }
  }

  /** `SummaryCounts::default()`: every counter zero. */
  const DefaultSummaryCounts := SummaryCounts(0, 0, 0, 0, 0, 0)

  /** `JobSource::default()`, the variant marked `#[default]`. */
  const DefaultJobSource: JobSource := NotProvided

  /** The order in which `JobStatus::iter()` yields the statuses (declaration order). */
  const AllStatuses: seq<JobStatus> := [Applied, Interview, Offer, Rejected, Ghosted]

  /** The order in which `JobSource::iter()` yields the sources (declaration order). */
  const AllSources: seq<JobSource> :=
    [Recruiter, LinkedIn, Monster, Indeed, NotProvided, Talent, Glassdoor, ZipRecruiter]

  /** `JobStatus::iter()` yields each of the five statuses exactly once, in declaration order. */
  lemma StatusIterationOrder()
    ensures |AllStatuses| == 5
    ensures forall i, j :: 0 <= i < j < |AllStatuses| ==> AllStatuses[i] != AllStatuses[j]
    ensures forall s: JobStatus :: s in AllStatuses
    ensures AllStatuses[0] == Applied && AllStatuses[1] == Interview && AllStatuses[2] == Offer
    ensures AllStatuses[3] == Rejected && AllStatuses[4] == Ghosted
  {
    forall s: JobStatus ensures s in AllStatuses {
      match s
      case Applied => assert AllStatuses[0] == s;
      case Interview => assert AllStatuses[1] == s;
      case Offer => assert AllStatuses[2] == s;
      case Rejected => assert AllStatuses[3] == s;
      case Ghosted => assert AllStatuses[4] == s;
    }
  }

  /** `JobSource::iter()` yields each of the eight sources exactly once. */
  lemma SourceIterationCovers()
    ensures |AllSources| == 8
    ensures forall i, j :: 0 <= i < j < |AllSources| ==> AllSources[i] != AllSources[j]
    ensures forall s: JobSource :: s in AllSources
  {
    forall s: JobSource ensures s in AllSources {
      match s
      case Recruiter => assert AllSources[0] == s;
      case LinkedIn => assert AllSources[1] == s;
      case Monster => assert AllSources[2] == s;
      case Indeed => assert AllSources[3] == s;
      case NotProvided => assert AllSources[4] == s;
      case Talent => assert AllSources[5] == s;
      case Glassdoor => assert AllSources[6] == s;
      case ZipRecruiter => assert AllSources[7] == s;
    }
  }
}
