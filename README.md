# Job application tracker — a Dafny model of its core

This project models the core of the job application tracker. The tracker is a desktop application that keeps a list of job applications. Each one has a company, a role, a location, a status and a source, and the list is saved to a JSON file. The core lives in `jobtracker-core`:

- **Record types.** `Job`, `JobStatus`, `JobSource` and `SummaryCounts` become datatypes (module `Jobs`). Ids are Rust `u32` values. Timestamps are whole seconds since the Unix epoch, in UTC.
- **Display and parsing.** The status display text is modelled in `StatusDisplay`. The source display text and the parser that never fails are in `SourceParse`. Lower-casing and substring search over ASCII text are in `AsciiText`.
- **The job store.** `JobStore` is a class (module `Store`) whose methods change its job list in place:
  - `add_job`, `list_jobs` and `delete_job`;
  - the four `update_*` methods;
  - `calculate_summary_stats`.

  Writing the file is an oracle: each mutator takes `saveOk`, which says whether the write succeeds. The field `persisted` stands for the file's contents. The in-memory change comes first, and a failed save leaves it in place.
- **The derived views inside the UI method**:
  - the timeline of `add_bar_chart_stats`: earliest day, gap-filled day axis, per-day buckets, stacked bar placement and the click hit-test (module `Timeline`);
  - the search filter of the job grid (module `JobFilter`).
- **The application object.** `JobApp` (module `App`) draws the bars, turns a click into a search for the clicked company, and dispatches the edits the grid collected during a frame.

The main theorems:
- Bar placement and hit-test are inverse to each other (`Timeline.HitTestAtBar`, `Timeline.HitTestInverse`, `Timeline.ChartRoundTrip`).
- Parsing a source's display text gives the source back (`SourceParse.SourceRoundTrip`).
- A status name used as a search matches, through the status column, exactly the jobs in that status (`StatusDisplay.StatusTextMatch`).
- Every store mutation is stated as its whole new state and return value, including the silent no-op branches.
- Two quirks of the code are kept and stated as lemmas, not fixed:
  - an id is reused after the job with the largest id is deleted;
  - the Delete button's row index is applied to the unfiltered list.

Ids are not monotonic: the next id is the largest id plus one, so deleting the newest job frees its id for the next `add_job` (`Store.IdReusedAfterDelete`).

## Model

| member | source | states |
|---|---|---|
| Jobs.StatusIterationOrder | jobtracker-core/src/lib.rs:91-98 | There are exactly five statuses, each listed once, in declaration order: Applied, Interview, Offer, Rejected, Ghosted. |
| Jobs.SourceIterationCovers | jobtracker-core/src/lib.rs:100-110 | The eight sources are each listed once, and every source is listed. |
| AsciiText.Lower | jobtracker-core/src/job_source.rs:24 | Lower-casing keeps the length, lowers every character independently, and leaves no upper-case letter. |
| AsciiText.LowerIdempotent | jobtracker-core/src/job_source.rs:24 | Lower-casing twice is the same as lower-casing once. |
| AsciiText.ContainsAt | jobtracker-core/src/job_app.rs:344-352 | The substring test holds exactly when the needle starts at some offset of the haystack. |
| StatusDisplay.StatusTextNonEmpty | jobtracker-core/src/job_status.rs:7-21 | Every status text is non-empty. |
| StatusDisplay.StatusTextInjective | jobtracker-core/src/job_status.rs:6-22 | Distinct statuses display as distinct texts. |
| StatusDisplay.StatusTextMatch | jobtracker-core/src/job_status.rs:6-22 | One status's lower-cased text occurs in another's exactly when the two statuses are equal. |
| SourceParse.FromStr | jobtracker-core/src/job_source.rs:22-36 | Parsing never fails: every string yields a source. |
| SourceParse.FromStrKeys | jobtracker-core/src/job_source.rs:24-32 | A string parses to a source other than `NotProvided` if and only if its lower-case form equals that source's lower-cased display text. |
| SourceParse.FromStrFallback | jobtracker-core/src/job_source.rs:33 | A string whose lower-case form is no key parses to `NotProvided`, which is also the default source. |
| SourceParse.FromStrNonKeys | jobtracker-core/src/job_source.rs:33 | "talent", "Talent" and "not provided" all parse to `NotProvided`. |
| SourceParse.FromStrCaseInsensitive | jobtracker-core/src/job_source.rs:24 | Parsing a string and parsing its lower-case form agree. |
| SourceParse.SourceRoundTrip | jobtracker-core/src/job_source.rs:8-33 | Parsing a source's display text gives that source back; `NotProvided` comes back through the fallback. |
| SourceParse.SourceTextInjective | jobtracker-core/src/job_source.rs:8-17 | Distinct sources display differently. |
| Store.MaxId | jobtracker-core/src/job_store.rs:64 | The largest id is an upper bound of every id and is the id of some job; it is 0 for an empty list. |
| Store.NewIdIsFresh | jobtracker-core/src/job_store.rs:64 | The id after the largest is above every existing id, so appending a job with it keeps ids unique. |
| Store.RemoveAt | jobtracker-core/src/job_store.rs:84 | Removing position i shortens the list by one and keeps the jobs before and after i in order. |
| Store.DeleteMaxLowersNextId | jobtracker-core/src/job_store.rs:64-85 | With unique ids, deleting the job with the largest id lowers the largest id below that job's. The next id handed out is then at most the deleted one. |
| Store.IdReusedAfterDelete | jobtracker-core/src/job_store.rs:64-85 | With ids 1 and 2, deleting job 2 makes the next id 2 again: ids are reused. |
| Store.ApplyFrame | jobtracker-core/src/job_store.rs:90-124 | Each field update sets its one field and leaves every other field of the job as it was. |
| Store.FirstWithId | jobtracker-core/src/job_store.rs:91 | The search finds the first job with the id, or reports that no job has it. |
| Store.UpdateFrame | jobtracker-core/src/job_store.rs:90-124 | Updating by id keeps the length and every id, and changes no job with another id. With no job of that id it changes nothing. It keeps ids unique and keeps the largest id. |
| Store.CountStatus | jobtracker-core/src/job_store.rs:44-53 | A status count never exceeds the number of jobs. |
| Store.SummaryAddsUp | jobtracker-core/src/job_store.rs:43-53 | The recomputed total equals the number of jobs, and the five status counters add up to it. |
| Store.CountStatusIsMultisetCount | jobtracker-core/src/job_store.rs:44-53 | Each status counter equals the number of positions holding a job in that status. |
| Store.JobStore.constructor | jobtracker-core/src/lib.rs:50-64 | A default store has no jobs and all six counters at zero. |
| Store.JobStore.SaveToFile | jobtracker-core/src/job_store.rs:16-20 | A successful save makes the file hold the list and returns Ok; a failed one leaves the file and returns the error. |
| Store.JobStore.CalculateSummaryStats | jobtracker-core/src/job_store.rs:40-55 | The counters are reset and then recomputed from the whole list, so a second call gives the same result. |
| Store.JobStore.NextJobId | jobtracker-core/src/job_store.rs:64 | The new id is the largest id plus one, so 1 for an empty list. |
| Store.JobStore.AddJob | jobtracker-core/src/job_store.rs:57-76 | Appends exactly one job: the next id, status Applied, location present, the parsed source, timestamp `now`. Earlier jobs are untouched. The save outcome decides the file and the result. |
| Store.JobStore.ListJobs | jobtracker-core/src/job_store.rs:78-80 | Returns the list and changes nothing. |
| Store.JobStore.DeleteJob | jobtracker-core/src/job_store.rs:82-88 | An index in range removes exactly that job and then saves. An index out of range changes nothing, skips the save and returns Ok. |
| Store.JobStore.Find | jobtracker-core/src/job_store.rs:91 | Returns the position of the first job with the id, or none. |
| Store.JobStore.Update | jobtracker-core/src/job_store.rs:90-124 | Changes the first job with the id and saves. With no such job it changes nothing, skips the save and returns Ok. |
| Store.JobStore.UpdateStatus | jobtracker-core/src/job_store.rs:90-96 | As `Update`, setting the status. |
| Store.JobStore.UpdateSource | jobtracker-core/src/job_store.rs:98-104 | As `Update`, setting the source to `Some` of the new one. |
| Store.JobStore.UpdateCompany | jobtracker-core/src/job_store.rs:106-112 | As `Update`, setting the company. |
| Store.JobStore.UpdateTimestamp | jobtracker-core/src/job_store.rs:114-124 | As `Update`, setting the timestamp. |
| Timeline.EarliestDay | jobtracker-core/src/job_app.rs:111-118 | The earliest day is no later than any job's day and is some job's day; with no jobs it is today. |
| Timeline.DayRange | jobtracker-core/src/job_app.rs:121-129 | The axis holds `last - first + 1` days, position i being `first + i`; it is empty when `first > last`. |
| Timeline.DayAxis | jobtracker-core/src/job_app.rs:121-129 | The loop builds exactly the days from the earliest through today. |
| Timeline.DayRangeContiguous | jobtracker-core/src/job_app.rs:121-145 | The axis starts at the earliest day and ends at today. Each entry is one day after the previous, so the axis is sorted. A day is on it iff it lies in the range. |
| Timeline.OnDay | jobtracker-core/src/job_app.rs:136-141 | A bucket holds only jobs of the list that fall on its day. |
| Timeline.Bucket | jobtracker-core/src/job_app.rs:131-141 | The map has exactly the axis days as keys, and each day's bucket is its jobs in list order. |
| Timeline.BuildChart | jobtracker-core/src/job_app.rs:110-145 | The chart built is the axis from the earliest day through today, with each day's bucket. |
| Timeline.OnDayStack | jobtracker-core/src/job_app.rs:136-141 | A job sits in its own day's bucket at the position given by the number of earlier jobs on that day. |
| Timeline.StackIndexStable | jobtracker-core/src/job_app.rs:136-141 | Of two jobs on the same day, the earlier in the list is stacked lower. |
| Timeline.OnlyOwnDay | jobtracker-core/src/job_app.rs:136-141 | A job in a day's bucket falls on that day. |
| Timeline.ChartPlacesJob | jobtracker-core/src/job_app.rs:121-141 | Every job dated on or before today is on the axis, in its own day's bucket. |
| Timeline.ChartExcludesFuture | jobtracker-core/src/job_app.rs:121-141 | A job dated after today is in no bucket. |
| Timeline.ChartTotal | jobtracker-core/src/job_app.rs:132-189 | The sizes of the chart's buckets along its axis add up to the number of jobs dated on or before today, and so does the number of bars drawn. |
| Timeline.GapFilled | jobtracker-core/src/job_app.rs:121-141 | Two jobs five days apart give a six-day axis with empty buckets on the four days between. |
| Timeline.DayBars | jobtracker-core/src/job_app.rs:166-189 | The k-th job of day i is drawn as a bar at x = i with base k. |
| Timeline.PlacementBar | jobtracker-core/src/job_app.rs:164-189 | Every drawn bar is the job at stack position `base` of the day at position `x`. |
| Timeline.PlacementHasBar | jobtracker-core/src/job_app.rs:164-189 | Every job of every drawn day gets its bar. |
| Timeline.Round | jobtracker-core/src/job_app.rs:208 | Rounding is to the nearest integer, with halves away from zero. |
| Timeline.SaturatingUsize | jobtracker-core/src/job_app.rs:208-212 | The cast to `usize` keeps values in range, maps negatives to 0 and caps values above `usize::MAX`. |
| Timeline.HitTestAtBar | jobtracker-core/src/job_app.rs:164-216 | A click at the middle of any drawn bar resolves to that bar's job. |
| Timeline.HitTestInverse | jobtracker-core/src/job_app.rs:206-219 | A click hits iff a drawn bar lies at the rounded x and floored y; the job hit is that bar's job. |
| Timeline.NegativeClickSaturates | jobtracker-core/src/job_app.rs:208-212 | A click left of and below the origin acts as a click at (0, 0). |
| Timeline.ChartRoundTrip | jobtracker-core/src/job_app.rs:110-216 | Every job dated on or before today is drawn at its day with its stack position as base, and clicking that bar finds the job. |
| JobFilter.Filtered | jobtracker-core/src/job_app.rs:337-353 | A job is shown iff it is in the list and matches the search; no more jobs are shown than exist. |
| JobFilter.Rows | jobtracker-core/src/job_app.rs:338-354 | Row i is the pair of i and the i-th shown job: the index counts shown rows, not list positions. |
| JobFilter.FilterEmptySearch | jobtracker-core/src/job_app.rs:343 | An empty search shows the whole list. |
| JobFilter.FilterAppend | jobtracker-core/src/job_app.rs:338-353 | Filtering a concatenation filters each part, so the shown jobs keep their relative order. |
| JobFilter.FilterCaseInsensitive | jobtracker-core/src/job_app.rs:337 | A search and its lower-case form show the same jobs. |
| JobFilter.StatusSearch | jobtracker-core/src/job_app.rs:346 | A search equal to a status name matches the status column of exactly the jobs in that status, and shows them. |
| App.HighlightRule | jobtracker-core/src/job_app.rs:170-180 | With a non-empty search, a bar is highlighted iff the selection names its company. With an empty search, the first bar is highlighted iff the selection names its company, and no later bar is highlighted. |
| App.RemoveAtKeepsUniqueIds | jobtracker-core/src/job_store.rs:82-85 | Deleting a job keeps the remaining ids distinct. |
| App.StepFrame | jobtracker-core/src/job_app.rs:482-506 | One dispatched store call keeps ids distinct. It removes a job only when it is a delete in range. It can fail only when its write fails. The file afterwards is the old file or the new list, and a file in step with the list stays in step when the write works. |
| App.DispatchFrame | jobtracker-core/src/job_app.rs:482-506 | A frame's dispatch keeps ids distinct and removes at most one job, and none without a Delete click. When every write works it completes, and a file that matched the list still matches it. |
| App.DispatchStopsAtFirstError | jobtracker-core/src/job_app.rs:482-484 | When the status update finds its job but its write fails, the status change stays in memory only, the file is unchanged, the program panics, and no later edit is made. |
| App.DispatchPartialWrite | jobtracker-core/src/job_app.rs:482-497 | When a status change is written and the following delete's write fails, the file holds the list after the status change, the list has the job deleted as well, and the program panics. |
| App.DispatchOnlyRemove | jobtracker-core/src/job_app.rs:482-506 | A frame whose only pending edit is a Delete click makes the delete call and no other. |
| App.DeleteRowEmptySearch | jobtracker-core/src/job_app.rs:338-497 | With an empty search, row i shows list position i, so its Delete removes exactly the job on the row. |
| App.DeleteRowFilteredSearch | jobtracker-core/src/job_app.rs:338-497 | When the search hides the first job, the first row shows the second, but its Delete removes the hidden first job and keeps the shown one. |
| App.JobApp.constructor | jobtracker-core/src/lib.rs:24-48 | A default app has an empty store, an empty search, no selection and no company text boxes. |
| App.JobApp.DrawBars | jobtracker-core/src/job_app.rs:164-189 | Draws exactly the chart's bars, day by day and bottom up, with their highlights. An empty search clears the selection once any bar is drawn. |
| App.JobApp.Click | jobtracker-core/src/job_app.rs:206-219 | A hit sets both the search text and the selection to the clicked job's company; a miss or no click changes neither. |
| App.JobApp.AddBarChartStats | jobtracker-core/src/job_app.rs:107-219 | One chart frame: the counters are recomputed, the chart is the one for the list and today, every bar is drawn, and a click on a bar selects its company. |
| App.JobApp.Dispatch | jobtracker-core/src/job_app.rs:482-498 | One store call gives the list, file and result of `App.Step`: a change of an absent id or a delete out of range does nothing and succeeds; otherwise the list changes, and the file becomes the new list exactly when the write works, which is also when the call succeeds. |
| App.JobApp.Perform | jobtracker-core/src/job_app.rs:482-506 | A pending edit that is absent does nothing and succeeds; a present one makes its store call, with the list, file and result that call gives. |
| App.JobApp.ApplyUpdates | jobtracker-core/src/job_app.rs:482-506 | Applies status, source, timestamp, delete, then company, each with the outcome of its own write, stopping at the first failed write. The list, the file and the result are those of `App.Dispatched`: the file holds the list as of the last successful write. A company change that went through also updates that job's company text box, if it has one. |

## Left out

- File I/O. `save_to_file` is reduced to a success/failure outcome. `load_from_file` and the JSON format are not modelled.
- All rendering in job_app.rs: forms, grid layout, combo boxes, bar colours and strokes, the date labels under the bars and the legend.
- The percentage label and `Display for SummaryCounts`: these are `f32` division and text formatting.
- The colour mapping of job.rs, which is presentation only.
- The "Add" form (jobtracker-core/src/job_app.rs:85-101) and the Refresh button, which are UI wiring around `add_job` and `list_jobs`.
- How the grid collects its pending edits (jobtracker-core/src/job_app.rs:322-477). The edits a frame collected are the input `Pending` of `App.JobApp.ApplyUpdates`. This includes seeding the company and timestamp text boxes.
- Timestamp text parsing and local-time conversion (jobtracker-core/src/job_app.rs:362-392). `update_timestamp` takes a timestamp value, and the timestamp text boxes (`edit_timestamps`) are not modelled.
- `Utc::now()` is a parameter: `now` for `add_job` and `today` for the chart.
- Sub-second precision of timestamps, and chrono's range limit, where `succ_opt` fails at the last representable date.
- Unicode behaviour of `to_lowercase`: only ASCII letters are lowered.
- The `HashMap` and the sort of its keys. The map is a Dafny `map`, and the axis is used as the sorted key list; `Timeline.DayRangeContiguous` proves it is sorted and `Timeline.Bucket` proves its days are the map's keys.
- Timeline.HitTestAtBar: requires every list of the chart to fit a `usize` (`Timeline.FitsUsize`). Rust's `Vec` guarantees this and Dafny's unbounded sequences do not.
- Store.JobStore.AddJob: requires the largest id to be below `u32::MAX`. At the maximum, the Rust `+ 1` overflows, which this model does not represent.
- Store.JobStore.SaveToFile: a failed save is modelled as leaving the file unchanged. `fs::write` truncates the file first, so a write that fails partway can leave a partial file, which the model does not represent.
- Pointer coordinates are Dafny reals. NaN, infinities and `f64` rounding are not modelled.
- App.JobApp.ApplyUpdates: a failed `unwrap` is modelled as the method returning `completed == false`. The panic's unwinding and the process exit are not modelled.
- The command-line and GUI prototypes and the launcher (jobtracker-cli, jobtracker-gui, jobtracker). They call an older `add_job` and are not part of the core.
