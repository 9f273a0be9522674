/**
 * The state-changing parts of `JobApp` (jobtracker-core/src/job_app.rs): the
 * bar chart frame, which draws one stacked bar per job and turns a click on a
 * bar into a search for its company, and the dispatch of the edits the job
 * grid collected during a frame.
 */
module App {
  import opened Wrappers
  import opened Jobs
  import opened Store
  import opened Timeline
  import opened JobFilter

  /** The selection in force while bar `p` is drawn: an empty search clears it at the first bar. */
  function SelectionAt(search: string, selected: Option<string>, p: nat): Option<string> {
    if search == "" && p > 0 then None else selected
  }

  /** Which of `bars` are drawn highlighted, starting from the selection `selected`. */
  function Highlights(bars: seq<Bar>, search: string, selected: Option<string>): (r: seq<bool>)
    ensures |r| == |bars|
    ensures forall p :: 0 <= p < |bars| ==> r[p] == (SelectionAt(search, selected, p) == Some(bars[p].job.company))
  {
    seq(|bars|, p requires 0 <= p < |bars| => SelectionAt(search, selected, p) == Some(bars[p].job.company))
  }

  /** Drawing one more bar extends the highlights by that bar's. */
  lemma HighlightsSnoc(bars: seq<Bar>, b: Bar, search: string, selected: Option<string>)
    ensures Highlights(bars + [b], search, selected) ==
      Highlights(bars, search, selected) + [SelectionAt(search, selected, |bars|) == Some(b.job.company)]
  {
    var l := Highlights(bars + [b], search, selected);
    var r := Highlights(bars, search, selected) + [SelectionAt(search, selected, |bars|) == Some(b.job.company)];
    forall p | 0 <= p < |l| ensures l[p] == r[p] {
      if p < |bars| { assert (bars + [b])[p] == bars[p]; }
    }
  }

  /**
   * With a search, a bar is highlighted exactly when the selection names its
   * company. With no search, the selection is cleared while the first bar is
   * drawn, so only the first bar can be highlighted and no later one is.
   */
  lemma HighlightRule(bars: seq<Bar>, search: string, selected: Option<string>)
    ensures search != "" ==> forall p :: 0 <= p < |bars| ==>
      (Highlights(bars, search, selected)[p] <==> selected == Some(bars[p].job.company))
    ensures search == "" && |bars| > 0 ==>
      (Highlights(bars, search, selected)[0] <==> selected == Some(bars[0].job.company))
    ensures search == "" ==> forall p :: 0 < p < |bars| ==> !Highlights(bars, search, selected)[p]
  {
  }

  /** The edits the job grid collects during one frame; each is applied after the grid is drawn. */
  datatype Pending = Pending(
    status: Option<(U32, JobStatus)>,
    source: Option<(U32, JobSource)>,
    timestamp: Option<(U32, Timestamp)>,
    remove: Option<nat>,
    company: Option<(U32, string)>)

  /** One store call of the dispatch. */
  datatype Action = Change(id: U32, edit: Edit) | Remove(index: nat)

  /** The store call each pending edit makes, if there is one. */
  function StatusCall(p: Pending): Option<Action> {
    if p.status.Some? then Some(Change(p.status.value.0, SetStatus(p.status.value.1))) else None
  }

  function SourceCall(p: Pending): Option<Action> {
    if p.source.Some? then Some(Change(p.source.value.0, SetSource(p.source.value.1))) else None
  }

  function TimestampCall(p: Pending): Option<Action> {
    if p.timestamp.Some? then Some(Change(p.timestamp.value.0, SetTimestamp(p.timestamp.value.1))) else None
  }

  function RemoveCall(p: Pending): Option<Action> {
    if p.remove.Some? then Some(Remove(p.remove.value)) else None
  }

  function CompanyCall(p: Pending): Option<Action> {
    if p.company.Some? then Some(Change(p.company.value.0, SetCompany(p.company.value.1))) else None
  }

  /**
   * Whether the file write of each store call of a frame succeeds, one
   * outcome per pending edit, since every call writes the file on its own.
   */
  datatype Saves = Saves(status: bool, source: bool, timestamp: bool, remove: bool, company: bool)

  /** Every write of the frame succeeds. */
  predicate AllSaved(saves: Saves) {
    saves.status && saves.source && saves.timestamp && saves.remove && saves.company
  }

  /** The job list, the file's contents, and whether the program is still running. */
  datatype Outcome = Outcome(jobs: seq<Job>, file: seq<Job>, running: bool)

  /**
   * One store call: a change of an absent id and a delete out of range do
   * nothing and return `Ok`. Every other call changes the list and then
   * writes it. A write that succeeds makes the file the new list and
   * returns `Ok`; one that fails leaves the file and returns the error, on
   * which the `unwrap` panics.
   */
  function Step(o: Outcome, a: Action, saveOk: bool): Outcome {
    match a
    case Change(id, e) =>
      if FirstWithId(o.jobs, id).Some? then
        var jobs := UpdatedById(o.jobs, id, e);
        Outcome(jobs, if saveOk then jobs else o.file, saveOk)
      else Outcome(o.jobs, o.file, true)
    case Remove(i) =>
      if i < |o.jobs| then
        var jobs := RemoveAt(o.jobs, i);
        Outcome(jobs, if saveOk then jobs else o.file, saveOk)
      else Outcome(o.jobs, o.file, true)
  }

  /** The optional call `a` after the calls so far; after a panic nothing more happens. */
  function Then(o: Outcome, a: Option<Action>, saveOk: bool): Outcome {
    if o.running && a.Some? then Step(o, a.value, saveOk) else o
  }

  /**
   * The whole dispatch from list `jobs` and file `file`: status, source,
   * timestamp, delete, company, stopping at the first failed write.
   */
  function Dispatched(jobs: seq<Job>, file: seq<Job>, p: Pending, saves: Saves): Outcome {
    var afterStatus := Then(Outcome(jobs, file, true), StatusCall(p), saves.status);
    var afterSource := Then(afterStatus, SourceCall(p), saves.source);
    var afterTimestamp := Then(afterSource, TimestampCall(p), saves.timestamp);
    var afterRemove := Then(afterTimestamp, RemoveCall(p), saves.remove);
    Then(afterRemove, CompanyCall(p), saves.company)
  }

  /** Deleting keeps distinct ids distinct. */
  lemma RemoveAtKeepsUniqueIds(jobs: seq<Job>, i: nat)
    requires i < |jobs| && UniqueIds(jobs)
    ensures UniqueIds(RemoveAt(jobs, i))
  {
    var r := RemoveAt(jobs, i);
    forall a, b | 0 <= a < b < |r| ensures r[a].id != r[b].id {
      var a' := if a < i then a else a + 1;
      var b' := if b < i then b else b + 1;
      assert r[a] == jobs[a'] && r[b] == jobs[b'];
    }
  }

  /**
   * A store call keeps ids distinct; it removes one job exactly when it is
   * a delete in range, and keeps the length otherwise; it fails only when
   * its write fails; the file afterwards is the old file or the new list,
   * and a file in step with the list stays in step when the write works.
   */
  lemma StepFrame(o: Outcome, a: Action, saveOk: bool)
    ensures UniqueIds(o.jobs) ==> UniqueIds(Step(o, a, saveOk).jobs)
    ensures |Step(o, a, saveOk).jobs| == |o.jobs| - (if a.Remove? && a.index < |o.jobs| then 1 else 0)
    ensures saveOk ==> Step(o, a, saveOk).running
    ensures Step(o, a, saveOk).file == o.file || Step(o, a, saveOk).file == Step(o, a, saveOk).jobs
    ensures saveOk && o.file == o.jobs ==> Step(o, a, saveOk).file == Step(o, a, saveOk).jobs
  {
    match a {
      case Change(id, e) => UpdateFrame(o.jobs, id, e);
      case Remove(i) => if i < |o.jobs| && UniqueIds(o.jobs) { RemoveAtKeepsUniqueIds(o.jobs, i); }
    }
  }

  lemma ThenFrame(o: Outcome, a: Option<Action>, saveOk: bool)
    ensures UniqueIds(o.jobs) ==> UniqueIds(Then(o, a, saveOk).jobs)
    ensures |o.jobs| - (if a.Some? && a.value.Remove? then 1 else 0) <= |Then(o, a, saveOk).jobs| <= |o.jobs|
    ensures saveOk && o.running ==> Then(o, a, saveOk).running
    ensures saveOk && o.file == o.jobs ==> Then(o, a, saveOk).file == Then(o, a, saveOk).jobs
  {
    if o.running && a.Some? {
      StepFrame(o, a.value, saveOk);
    }
  }

  /**
   * A frame's dispatch never makes two jobs share an id, deletes at most one
   * job and only when a Delete was clicked, and runs to the end when every
   * write works, leaving a file that was in step with the list in step with it.
   */
  lemma DispatchFrame(jobs: seq<Job>, file: seq<Job>, p: Pending, saves: Saves)
    ensures UniqueIds(jobs) ==> UniqueIds(Dispatched(jobs, file, p, saves).jobs)
    ensures |jobs| - 1 <= |Dispatched(jobs, file, p, saves).jobs| <= |jobs|
    ensures p.remove.None? ==> |Dispatched(jobs, file, p, saves).jobs| == |jobs|
    ensures AllSaved(saves) ==> Dispatched(jobs, file, p, saves).running
    ensures AllSaved(saves) && file == jobs ==> Dispatched(jobs, file, p, saves).file == Dispatched(jobs, file, p, saves).jobs
  {
    var afterStatus := Then(Outcome(jobs, file, true), StatusCall(p), saves.status);
    var afterSource := Then(afterStatus, SourceCall(p), saves.source);
    var afterTimestamp := Then(afterSource, TimestampCall(p), saves.timestamp);
    var afterRemove := Then(afterTimestamp, RemoveCall(p), saves.remove);
    ThenFrame(Outcome(jobs, file, true), StatusCall(p), saves.status);
    ThenFrame(afterStatus, SourceCall(p), saves.source);
    ThenFrame(afterSource, TimestampCall(p), saves.timestamp);
    ThenFrame(afterTimestamp, RemoveCall(p), saves.remove);
    ThenFrame(afterRemove, CompanyCall(p), saves.company);
  }

  /**
   * When the status change finds its job but its write fails, the program
   * panics there: the status is changed in memory only, and none of the
   * later edits (the delete included) is made.
   */
  lemma DispatchStopsAtFirstError(jobs: seq<Job>, file: seq<Job>, p: Pending, saves: Saves)
    requires p.status.Some? && FirstWithId(jobs, p.status.value.0).Some? && !saves.status
    ensures Dispatched(jobs, file, p, saves) ==
      Outcome(UpdatedById(jobs, p.status.value.0, SetStatus(p.status.value.1)), file, false)
  {
  }

  /**
   * When the status write succeeds and the delete's write then fails, the
   * file holds the list after the status change: neither the file the frame
   * started from nor the list the program stops with.
   */
  lemma DispatchPartialWrite(jobs: seq<Job>, file: seq<Job>, id: U32, status: JobStatus, i: nat, saves: Saves)
    requires FirstWithId(jobs, id).Some? && i < |jobs|
    requires saves.status && !saves.remove
    ensures var changed := UpdatedById(jobs, id, SetStatus(status));
      Dispatched(jobs, file, Pending(Some((id, status)), None, None, Some(i), None), saves)
        == Outcome(RemoveAt(changed, i), changed, false)
  {
    UpdateFrame(jobs, id, SetStatus(status));
  }

  /** A frame whose only edit is a Delete click makes just the delete call. */
  lemma DispatchOnlyRemove(jobs: seq<Job>, file: seq<Job>, i: nat, saves: Saves)
    ensures Dispatched(jobs, file, Pending(None, None, None, Some(i), None), saves)
      == Step(Outcome(jobs, file, true), Remove(i), saves.remove)
  {
  }

  /**
   * With an empty search the grid's rows enumerate the whole list, so the
   * Delete button of row `i` deletes exactly the job shown on that row.
   */
  lemma DeleteRowEmptySearch(jobs: seq<Job>, file: seq<Job>, i: nat, saves: Saves)
    requires i < |Rows(jobs, "")| && saves.remove
    ensures Rows(jobs, "")[i] == (i, jobs[i])
    ensures Dispatched(jobs, file, Pending(None, None, None, Some(Rows(jobs, "")[i].0), None), saves)
      == Outcome(RemoveAt(jobs, i), RemoveAt(jobs, i), true)
  {
    FilterEmptySearch(jobs);
    var rows := Rows(jobs, "");
    assert |rows| == |jobs|;
    assert rows[i] == (i, jobs[i]);
    DispatchOnlyRemove(jobs, file, i, saves);
  }

  /**
   * With a search that hides the first job, the first row shows the second
   * job, yet its Delete button removes the hidden first job and keeps the
   * one on the row.
   */
  lemma DeleteRowFilteredSearch(hidden: Job, shown: Job, search: string, file: seq<Job>, saves: Saves)
    requires !Matches(hidden, search) && Matches(shown, search) && saves.remove
    ensures Rows([hidden, shown], search) == [(0, shown)]
    ensures Dispatched([hidden, shown], file, Pending(None, None, None, Some(Rows([hidden, shown], search)[0].0), None), saves)
      == Outcome([shown], [shown], true)
  {
    var jobs := [hidden, shown];
    assert jobs[..1] == [hidden];
    assert jobs[..0] == [];
    assert Filtered(jobs, search) == [shown];
    assert Rows(jobs, search)[0].0 == 0;
    assert RemoveAt(jobs, 0) == [shown];
    DispatchOnlyRemove(jobs, file, 0, saves);
  }

  /** The part of `JobApp` the modelled code reads and writes. */
  class JobApp {
    /** The job store the application edits. */
    const store: JobStore
    /** The search box; the grid shows only the jobs it matches. */
    var searchText: string
    /** The company picked by clicking a bar, highlighted in the chart. */
    var selectedCompany: Option<string>
    /** The company text boxes of the grid, by job id. */
    var editCompanies: map<U32, string>

    /** `JobApp::default()` over a store whose file holds `file`. */
    constructor (file: seq<Job>)
      ensures fresh(store)
      ensures store.jobs == [] && store.summaryStats == DefaultSummaryCounts && store.persisted == file
      ensures searchText == "" && selectedCompany == None && editCompanies == map[]
    {
      store := new JobStore(file);
      searchText := "";
      selectedCompany := None;
      editCompanies := map[];
    }

    /**
     * The drawing loop: one height-1 bar per job, at the axis position of its
     * day and stacked on the jobs before it. A bar is highlighted when the
     * selection names its company; an empty search clears the selection as
     * soon as a bar is drawn.
     */
    method DrawBars(c: Chart) returns (bars: seq<Bar>, highlighted: seq<bool>)
      modifies this`selectedCompany
      ensures bars == Bars(c)
      ensures highlighted == Highlights(bars, searchText, old(selectedCompany))
      ensures selectedCompany == SelectionAt(searchText, old(selectedCompany), |bars|)
    {
      ghost var selected0 := selectedCompany;
      bars := [];
      highlighted := [];
      for i := 0 to |c.dates|
        invariant bars == Placement(c, i)
        invariant highlighted == Highlights(bars, searchText, selected0)
        invariant selectedCompany == SelectionAt(searchText, selected0, |bars|)
      {
        var day := c.dates[i];
        if day in c.buckets {
          var jobs := c.buckets[day];
          for k := 0 to |jobs|
            invariant bars == Placement(c, i) + DayBars(i, jobs)[..k]
            invariant highlighted == Highlights(bars, searchText, selected0)
            invariant selectedCompany == SelectionAt(searchText, selected0, |bars|)
          {
            var isSelected := selectedCompany == Some(jobs[k].company);
            if searchText == "" {
              selectedCompany := None;
            }
            HighlightsSnoc(bars, Bar(i, k, jobs[k]), searchText, selected0);
            assert DayBars(i, jobs)[..k + 1] == DayBars(i, jobs)[..k] + [Bar(i, k, jobs[k])];
            bars := bars + [Bar(i, k, jobs[k])];
            highlighted := highlighted + [isSelected];
          }
          assert DayBars(i, jobs)[..|jobs|] == DayBars(i, jobs);
        }
      }
    }

    /**
     * A click at plot coordinates `pointer` (none when the plot was not
     * clicked or the pointer is outside it): a hit makes the clicked job's
     * company both the search text and the selection; a miss changes nothing.
     */
    method Click(c: Chart, pointer: Option<(real, real)>)
      modifies this`searchText, this`selectedCompany
      ensures pointer.Some? && HitTest(c, pointer.value.0, pointer.value.1).Some? ==>
        var job := HitTest(c, pointer.value.0, pointer.value.1).value;
        searchText == job.company && selectedCompany == Some(job.company)
      ensures pointer.None? || HitTest(c, pointer.value.0, pointer.value.1).None? ==>
        searchText == old(searchText) && selectedCompany == old(selectedCompany)
    {
      if pointer.Some? {
        var (x, y) := pointer.value;
        var xIndex := SaturatingUsize(Round(x));
        if xIndex < |c.dates| {
          var day := c.dates[xIndex];
          if day in c.buckets {
            var jobs := c.buckets[day];
            var stackIndex := SaturatingUsize(Floor(y));
            if stackIndex < |jobs| {
              var job := jobs[stackIndex];
              searchText := job.company;
              selectedCompany := Some(job.company);
            }
          }
        }
      }
    }

    /**
     * One frame of `add_bar_chart_stats` on day `today`: recount the
     * summary, bucket the jobs, draw the bars and handle a click.
     */
    method AddBarChartStats(today: int, pointer: Option<(real, real)>) returns (c: Chart, bars: seq<Bar>)
      modifies store`summaryStats, this`searchText, this`selectedCompany
      ensures store.summaryStats == Summarize(store.jobs)
      ensures c == ChartOf(store.jobs, today) && bars == Bars(c)
      ensures pointer.Some? && HitTest(c, pointer.value.0, pointer.value.1).Some? ==>
        var job := HitTest(c, pointer.value.0, pointer.value.1).value;
        searchText == job.company && selectedCompany == Some(job.company)
      ensures pointer.None? || HitTest(c, pointer.value.0, pointer.value.1).None? ==>
        searchText == old(searchText) && selectedCompany == SelectionAt(searchText, old(selectedCompany), |bars|)
    {
      store.CalculateSummaryStats();
      c := BuildChart(store.jobs, today);
      var highlighted;
      bars, highlighted := DrawBars(c);
      Click(c, pointer);
    }

    /**
     * One store call of the deferred dispatch: the `update_*` method the
     * change names, or `delete_job`, whose write succeeds when `saveOk`.
     * `ok` is whether it returned `Ok`.
     */
    method Dispatch(a: Action, saveOk: bool) returns (ok: bool)
      modifies store`jobs, store`persisted
      ensures Outcome(store.jobs, store.persisted, ok)
        == Step(Outcome(old(store.jobs), old(store.persisted), true), a, saveOk)
    {
      var r: StoreResult;
      match a {
        case Change(id, e) =>
          UpdateFrame(store.jobs, id, e);
          match e {
            case SetStatus(status) => r := store.UpdateStatus(id, status, saveOk);
            case SetSource(source) => r := store.UpdateSource(id, source, saveOk);
            case SetCompany(company) => r := store.UpdateCompany(id, company, saveOk);
            case SetTimestamp(timestamp) => r := store.UpdateTimestamp(id, timestamp, saveOk);
          }
        case Remove(index) =>
          r := store.DeleteJob(index, saveOk);
      }
      ok := r.Success?;
    }

    /** The call of one pending edit (an `if let Some(..)` of the dispatch), if there is one. */
    method Perform(call: Option<Action>, saveOk: bool) returns (ok: bool)
      modifies store`jobs, store`persisted
      ensures Outcome(store.jobs, store.persisted, ok)
        == Then(Outcome(old(store.jobs), old(store.persisted), true), call, saveOk)
    {
      ok := true;
      if call.Some? {
        ok := Dispatch(call.value, saveOk);
      }
    }

    /**
     * The deferred dispatch after the grid: status, source, timestamp,
     * delete by row index, then company, each on the store with the outcome
     * of its own write, stopping at the first failed write. A company change
     * that went through also replaces that job's company text box, if it has
     * one. `completed` is false when a write failed and the program panicked.
     */
    method ApplyUpdates(p: Pending, saves: Saves) returns (completed: bool)
      modifies store`jobs, store`persisted, this`editCompanies
      ensures Outcome(store.jobs, store.persisted, completed)
        == Dispatched(old(store.jobs), old(store.persisted), p, saves)
      ensures editCompanies ==
        if completed && p.company.Some? && p.company.value.0 in old(editCompanies)
        then old(editCompanies)[p.company.value.0 := p.company.value.1]
        else old(editCompanies)
    {
      ghost var o := Outcome(store.jobs, store.persisted, true);
      ghost var afterStatus := Then(o, StatusCall(p), saves.status);
      ghost var afterSource := Then(afterStatus, SourceCall(p), saves.source);
      ghost var afterTimestamp := Then(afterSource, TimestampCall(p), saves.timestamp);
      ghost var afterRemove := Then(afterTimestamp, RemoveCall(p), saves.remove);
      assert Dispatched(o.jobs, o.file, p, saves) == Then(afterRemove, CompanyCall(p), saves.company);
      var ok := Perform(StatusCall(p), saves.status);
      assert Outcome(store.jobs, store.persisted, ok) == afterStatus;
      if !ok {
        return false;
      }
      ok := Perform(SourceCall(p), saves.source);
      assert Outcome(store.jobs, store.persisted, ok) == afterSource;
      if !ok {
        return false;
      }
      ok := Perform(TimestampCall(p), saves.timestamp);
      assert Outcome(store.jobs, store.persisted, ok) == afterTimestamp;
      if !ok {
        return false;
      }
      ok := Perform(RemoveCall(p), saves.remove);
      assert Outcome(store.jobs, store.persisted, ok) == afterRemove;
      if !ok {
        return false;
      }
      ok := Perform(CompanyCall(p), saves.company);
      if ok && p.company.Some? && p.company.value.0 in editCompanies {
        editCompanies := editCompanies[p.company.value.0 := p.company.value.1];
      }
      completed := ok;
    }
  }
}
