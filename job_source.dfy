/**
 * `impl Display for JobSource` and `impl FromStr for JobSource`
 * (jobtracker-core/src/job_source.rs).
 */
module SourceParse {
  import opened Wrappers
  import opened Jobs
  import opened AsciiText

  /** The text a source displays as. */
  function SourceText(s: JobSource): string {
    match s
    case LinkedIn => "LinkedIn"
    case Monster => "Monster"
    case Indeed => "Indeed"
    case Recruiter => "Recruiter"
    case NotProvided => "Not provided"
    case Talent => "Talent.com"
    case Glassdoor => "Glassdoor"
    case ZipRecruiter => "ZipRecruiter"
  }

  /**
   * `JobSource::from_str`: the input is lower-cased and compared with the
   * known keys; anything else falls back to `NotProvided`. The error arm of
   * the Rust `Result` is never produced.
   */
  function FromStr(s: string): (r: Result<JobSource, string>)
    ensures r.Success?
  {
    var key := Lower(s);
    if key == "linkedin" then Success(LinkedIn)
    else if key == "monster" then Success(Monster)
    else if key == "indeed" then Success(Indeed)
    else if key == "recruiter" then Success(Recruiter)
    else if key == "talent.com" then Success(Talent)
    else if key == "glassdoor" then Success(Glassdoor)
    else if key == "ziprecruiter" then Success(ZipRecruiter)
    else Success(NotProvided)
  }

  /** `s.parse::<JobSource>().unwrap()`, which cannot panic because `from_str` never fails. */
  function ParseSource(s: string): JobSource {
    FromStr(s).value
  }

  /**
   * The lower-cased display texts of the recognised sources, written out
   * (`NotProvided` has no key).
   */
  function LowerSourceName(s: JobSource): string {
    match s
    case LinkedIn => "linkedin"
    case Monster => "monster"
    case Indeed => "indeed"
    case Recruiter => "recruiter"
    case NotProvided => ""
    case Talent => "talent.com"
    case Glassdoor => "glassdoor"
    case ZipRecruiter => "ziprecruiter"
  }

  lemma LowerSourceText(s: JobSource)
    requires s != NotProvided
    ensures Lower(SourceText(s)) == LowerSourceName(s)
  {
    if s.LinkedIn? || s.Monster? || s.Indeed? {
      LowerSourceTextShort(s);
    } else if s.Recruiter? || s.Talent? {
      LowerSourceTextMiddle(s);
    } else {
      LowerSourceTextLong(s);
    }
  }

  lemma LowerSourceTextShort(s: JobSource)
    requires s.LinkedIn? || s.Monster? || s.Indeed?
    ensures Lower(SourceText(s)) == LowerSourceName(s)
  {
  }

  lemma LowerSourceTextMiddle(s: JobSource)
    requires s.Recruiter? || s.Talent?
    ensures Lower(SourceText(s)) == LowerSourceName(s)
  {
  }

  lemma LowerSourceTextLong(s: JobSource)
    requires s.Glassdoor? || s.ZipRecruiter?
    ensures Lower(SourceText(s)) == LowerSourceName(s)
  {
  }

  /**
   * The keys `from_str` recognises are exactly the lower-cased display
   * texts: a string parses to a source other than `NotProvided` if and only
   * if it equals that source's display text up to letter case.
   */
  lemma FromStrKeys(s: string, v: JobSource)
    requires v != NotProvided
    ensures FromStr(s) == Success(v) <==> Lower(s) == Lower(SourceText(v))
  {
    LowerSourceText(v);
  }

  /** Every string whose lower-case form is not a key parses to `NotProvided`, the default source. */
  lemma FromStrFallback(s: string)
    requires forall v :: v != NotProvided ==> Lower(s) != Lower(SourceText(v))
    ensures FromStr(s) == Success(NotProvided) && NotProvided == DefaultJobSource
  {
    if FromStr(s).value != NotProvided {
      FromStrKeys(s, FromStr(s).value);
    }
  }

  /** "talent" and "not provided" are not keys. */
  lemma FromStrNonKeys()
    ensures FromStr("talent") == Success(NotProvided)
    ensures FromStr("not provided") == Success(NotProvided)
    ensures FromStr("Talent") == Success(NotProvided)
  {
  }

  /** Parsing ignores letter case. */
  lemma FromStrCaseInsensitive(s: string)
    ensures FromStr(s) == FromStr(Lower(s))
  {
    LowerIdempotent(s);
  }

  /** Parsing the display text gives the source back; `NotProvided` through the fallback. */
  lemma SourceRoundTrip(v: JobSource)
    ensures FromStr(SourceText(v)) == Success(v)
  {
    if v == NotProvided {
      // "not provided" has twelve characters; the only key that long is "ziprecruiter"
      assert Lower(SourceText(v))[0] == 'n';
    } else {
      LowerSourceText(v);
    }
  }

  /** Distinct sources display differently. */
  lemma SourceTextInjective(a: JobSource, b: JobSource)
    ensures SourceText(a) == SourceText(b) ==> a == b
  {
    SourceRoundTrip(a);
    SourceRoundTrip(b);
  }
}
