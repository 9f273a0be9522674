/** `impl Display for JobStatus` (jobtracker-core/src/job_status.rs). */
module StatusDisplay {
  import opened Jobs
  import opened AsciiText

  /** The text a status displays as: its own variant name. */
  function StatusText(s: JobStatus): string {
    match s
    case Applied => "Applied"
    case Interview => "Interview"
    case Offer => "Offer"
    case Rejected => "Rejected"
    case Ghosted => "Ghosted"
  }

  /** Every status displays as a non-empty string starting with an upper-case letter. */
  lemma StatusTextNonEmpty(s: JobStatus)
    ensures |StatusText(s)| > 0 && 'A' <= StatusText(s)[0] <= 'Z'
  {
  }

  /** Distinct statuses display differently: already their first letters differ. */
  lemma StatusTextInjective(s: JobStatus, t: JobStatus)
    ensures StatusText(s) == StatusText(t) ==> s == t
  {
    if s != t {
      assert StatusText(s)[0] != StatusText(t)[0];
    }
  }

  /**
   * A character of the lower-cased text of `s` that the lower-cased text
   * of every other status lacks.
   */
  function Marker(s: JobStatus): char {
    match s
    case Applied => 'a'
    case Interview => 'v'
    case Offer => 'f'
    case Rejected => 'j'
    case Ghosted => 'g'
  }

  /**
   * The lower-cased text of one status is never a substring of another's
   * lower-cased text, so a search query equal to a status name (in any
   * letter case) matches the status column exactly for jobs in that status.
   */
  lemma StatusTextMatch(s: JobStatus, t: JobStatus)
    ensures Contains(Lower(StatusText(t)), Lower(StatusText(s))) <==> s == t
  {
    if s == t {
      ContainsSelf(Lower(StatusText(s)));
    } else {
      LowerStatusText(s);
      LowerStatusText(t);
      MarkerPresent(s);
      MarkerUnique(s, t);
      NotContainsMissingChar(Lower(StatusText(t)), Lower(StatusText(s)), Marker(s));
    }
  }

  /** The lower-cased display text of each status. */
  lemma LowerStatusText(s: JobStatus)
    ensures Lower(StatusText(s)) == LowerStatusName(s)
  {
  }

  /** Each status's lower-cased text holds its own marker. */
  lemma MarkerPresent(s: JobStatus)
    ensures Marker(s) in LowerStatusName(s)
  {
  }

  /** No other status's lower-cased text holds the marker of `s`. */
  lemma MarkerUnique(s: JobStatus, t: JobStatus)
    requires s != t
    ensures Marker(s) !in LowerStatusName(t)
  {
    match t
    case Applied =>
      MarkersAbsentFromApplied();
      OccursIn(Marker(s), "applied");
    case Interview =>
      MarkersAbsentFromInterview();
      OccursIn(Marker(s), "interview");
    case Offer =>
      MarkersAbsentFromOffer();
      OccursIn(Marker(s), "offer");
    case Rejected =>
      MarkersAbsentFromRejected();
      OccursIn(Marker(s), "rejected");
    case Ghosted =>
      MarkersAbsentFromGhosted();
      OccursIn(Marker(s), "ghosted");
  }

  lemma MarkersAbsentFromApplied()
    ensures !Occurs('v', "applied")
    ensures !Occurs('f', "applied")
    ensures !Occurs('j', "applied")
    ensures !Occurs('g', "applied")
  {
  }

  lemma MarkersAbsentFromInterview()
    ensures !Occurs('a', "interview")
    ensures !Occurs('f', "interview")
    ensures !Occurs('j', "interview")
    ensures !Occurs('g', "interview")
  {
  }

  lemma MarkersAbsentFromOffer()
    ensures !Occurs('a', "offer")
    ensures !Occurs('v', "offer")
    ensures !Occurs('j', "offer")
    ensures !Occurs('g', "offer")
  {
  }

  lemma MarkersAbsentFromRejected()
    ensures !Occurs('a', "rejected")
    ensures !Occurs('v', "rejected")
    ensures !Occurs('f', "rejected")
    ensures !Occurs('g', "rejected")
  {
  }

  lemma MarkersAbsentFromGhosted()
    ensures !Occurs('a', "ghosted")
    ensures !Occurs('v', "ghosted")
    ensures !Occurs('f', "ghosted")
    ensures !Occurs('j', "ghosted")
  {
  }

  function LowerStatusName(s: JobStatus): string {
    match s
    case Applied => "applied"
    case Interview => "interview"
    case Offer => "offer"
    case Rejected => "rejected"
    case Ghosted => "ghosted"
  }
}
