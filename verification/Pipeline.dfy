/** The job-statistics pipeline end to end: a periodic task runs, its ring is flushed to a file, and the file is
    read back and reported. */
module Pipeline {
  import opened Common
  import opened Stdio
  import opened ByteFormat
  import opened UtilityTime
  import opened Job
  import opened Task
  import opened TaskFile
  import opened TaskFileLaws
  import opened StatsReport

  /** print_task_stats and print_job_stats always return zero. */
  const PRINTERS := Callbacks(t => 0, (t, jobs) => 0)

  lemma {:induction false} ReadJobsTask(h: Host, cb: Callbacks, t: ReadTask, s: seq<Byte>, seen: seq<JobStatistics>)
    requires h.Valid()
    ensures ReadJobs(h, cb, t, s, seen).task == Some(t)
    decreases |s|
  {
    if |s| >= RecordSize(h) {
      ReadJobsTask(h, cb, t, s[RecordSize(h)..], seen + [DecodeRecord(h, s[..RecordSize(h)])]);
    }
  }

  /** What the report relies on: the times of the task are unsigned, and without a task there are no records. */
  predicate Reportable(r: Outcome) {
    if r.task.Some? then SettingsOf(r.task.value.params).Unsigned() else r.jobs == [] && r.code != 0
  }

  lemma ReadRestIsReportable(h: Host, cb: Callbacks, p: TaskParams, s: seq<Byte>)
    requires h.Valid() && SettingsOf(p).Unsigned()
    ensures Reportable(ReadAfterHeader(h, cb, p, s))
  {
    if !p.disabled && |s| >= 3 * h.unsignedLong {
      var t := ReadTask(p, DecodePreamble(h, s[..3 * h.unsignedLong]));
      ReadJobsTask(h, cb, t, s[3 * h.unsignedLong..], []);
    }
  }

  lemma ReadIsReportable(h: Host, cb: Callbacks, s: seq<Byte>)
    requires h.Valid()
    ensures Reportable(Read(h, cb, s))
  {
    if |s| >= FIXED_HEADER && |s| - FIXED_HEADER >= NameLength(h, s) && Compatible(h, s) {
      ReadRestIsReportable(h, cb, DecodeHeader(h, s), s[FIXED_HEADER + NameLength(h, s)..]);
    }
  }

  /** The report holds the records handed out, numbered from the oldest one. */
  ghost predicate Reports(stats: TaskStats, r: Outcome)
    reads stats, stats.responseTimes, stats.responseTimes.repr
  {
    && stats.Valid() && stats.seen == r.jobs
    && (r.task.Some? ==>
          stats.settings == SettingsOf(r.task.value.params) && stats.first == r.task.value.ring.oldestJobPos)
  }

  /** The main function of read_task_stats_file. The callbacks leave the file alone, so they are run on what was
      handed out once the read is over. */
  method ReadTaskStatsFile(h: Host, file: Stream, wantCdf: bool)
      returns (r: Outcome, stats: TaskStats, cdf: seq<ResponseTimes.Bar>)
    requires h.Valid() && file.Valid() && !file.eof
    modifies file
    ensures fresh(stats) && fresh(stats.responseTimes)
    ensures r == Read(h, PRINTERS, old(file.Remaining()))
    ensures Reports(stats, r)
    ensures stats.suppressPrintout == wantCdf
    ensures if r.code == 0 && wantCdf then ResponseTimes.IsCdf(cdf, ResponseMicroseconds(stats.rows)) else cdf == []
  {
    ReadIsReportable(h, PRINTERS, file.Remaining());
    r := TaskStatisticsRead(h, PRINTERS, file);
    stats, cdf := Report(r, wantCdf);
  }

  /** The report is valid, and these are its settings, its first number and the records it has seen. */
  ghost predicate HasSeen(stats: TaskStats, settings: Settings, first: int, jobs: seq<JobStatistics>)
    reads stats, stats.responseTimes, stats.responseTimes.repr
  {
    stats.Valid() && stats.seen == jobs && stats.settings == settings && stats.first == first
  }

  method PrintAll(stats: TaskStats, jobs: seq<JobStatistics>)
    requires HasSeen(stats, stats.settings, stats.first, [])
    modifies stats, stats.responseTimes, stats.responseTimes.repr
    ensures HasSeen(stats, old(stats.settings), old(stats.first), jobs)
  {
    ghost var seen: seq<JobStatistics> := [];
    for k := 0 to |jobs|
      invariant seen == jobs[..k] && HasSeen(stats, old(stats.settings), old(stats.first), seen)
      invariant fresh(stats.responseTimes.repr - old(stats.responseTimes.repr))
    {
      TakeOne(jobs, k);
      PrintOne(stats, jobs[k], seen, old(stats.settings), old(stats.first));
      seen := seen + [jobs[k]];
    }
    TakeAll(jobs);
  }

  method PrintOne(stats: TaskStats, job: JobStatistics, ghost seen: seq<JobStatistics>, ghost settings: Settings,
                  ghost first: int)
    requires HasSeen(stats, settings, first, seen)
    modifies stats, stats.responseTimes, stats.responseTimes.repr
    ensures HasSeen(stats, settings, first, seen + [job])
    ensures fresh(stats.responseTimes.repr - old(stats.responseTimes.repr))
  {
    stats.PrintJobStats(job);
  }

  method Report(r: Outcome, wantCdf: bool) returns (stats: TaskStats, cdf: seq<ResponseTimes.Bar>)
    requires Reportable(r)
    ensures fresh(stats) && fresh(stats.responseTimes)
    ensures Reports(stats, r)
    ensures stats.suppressPrintout == wantCdf
    ensures if r.code == 0 && wantCdf then ResponseTimes.IsCdf(cdf, ResponseMicroseconds(stats.rows)) else cdf == []
  {
    stats := new TaskStats(wantCdf);
    cdf := [];
    if r.task.Some? {
      stats.PrintTaskStats(r.task.value);
    }
    PrintAll(stats, r.jobs);
    if r.code == 0 && wantCdf && stats.totalJobCount != 0 {
      cdf := stats.responseTimes.PrintCdf();
    }
  }

  // ---------- attribution ----------

  /** A task whose parameters a statistics file can hold. */
  predicate Recordable(p: TaskParams) {
    && NormalTimes(p) && |p.name| <= LONGEST_NAME
    && FitsHeader(p.period) && FitsHeader(p.deadline) && FitsHeader(p.t0) && FitsHeader(p.offset)
  }

  lemma SettingsComeBack(p: TaskParams)
    requires Recordable(p)
    ensures SettingsOf(HeaderView(p)) == SettingsOf(p) && SettingsOf(p).Unsigned() && SettingsOf(p).Normal()
  {
  }

  /** The row of job `j` measures from the instant at which that job was released. */
  lemma JobRowIsExact(p: TaskParams, releases: seq<Time>, j: nat, rec: JobStatistics)
    requires Recordable(p) && rec.begin.Normal() && rec.end.Normal()
    requires 1 <= j <= |releases| < 0x1_0000_0000
    requires AreReleases(releases, p)
    ensures SettingsOf(p).Unsigned()
    ensures RowIsExact(p.t0.Ns(), p.deadline.Ns(), RowOf(SettingsOf(p), j, rec), rec, releases[j - 1].Ns())
  {
    SettingsComeBack(p);
    ReleaseIsDue(p, releases, j);
    RowMeaning(SettingsOf(p), j, rec);
  }

  /** What is handed out of the file of a run. */
  lemma FileOfRun(h: Host, p: TaskParams, m: nat, overrunDisabled: bool, history: seq<JobStatistics>)
    requires h.Valid() && Recordable(p) && m >= 1
    requires FitRecords(h, history) && |history| < 0x1_0000_0000
    ensures var r := Read(h, PRINTERS, StatisticsFile(h, p, m, overrunDisabled, history));
            && r.code == 0 && r.jobs == Kept(history, m, overrunDisabled)
            && r.task.Some? && SettingsOf(r.task.value.params) == SettingsOf(p)
            && r.task.value.params.period == p.period && r.task.value.params.deadline == p.deadline
            && r.task.value.params.t0 == p.t0 && r.task.value.params.offset == p.offset
            && r.task.value.ring == RingCounters(|history|, m, overrunDisabled)
  {
    FitsLong(h, |history|);
    FileRoundTrip(h, PRINTERS, p, m, overrunDisabled, history);
    SettingsComeBack(p.(disabled := false));
  }

  lemma FitsLong(h: Host, n: nat)
    requires h.Valid() && n < 0x1_0000_0000
    ensures n < Pow256(h.unsignedLong)
  {
    Pow256Of4();
    Pow256Grows(4, h.unsignedLong);
  }

  lemma ReleaseIsDue(p: TaskParams, releases: seq<Time>, j: nat)
    requires AreReleases(releases, p)
    requires 1 <= j <= |releases|
    ensures releases[j - 1].Ns() == p.t0.Ns() + DueRelease(SettingsOf(p), j)
  {
    SpacedAt(releases, ReleaseInstant(p, 1), p.period.Ns(), j - 1);
  }

  /** The row is that of job `j`: it shows the number of that job, and measures what it logged from its release. */
  ghost predicate RowIsAttributed(row: Row, p: TaskParams, j: int, history: seq<JobStatistics>, releases: seq<Time>)
    requires |releases| == |history|
  {
    && 1 <= j <= |history| && row.job == j
    && RowIsExact(p.t0.Ns(), p.deadline.Ns(), row, history[j - 1], releases[j - 1].Ns())
  }

  /** The row made of the record of job `j` and that number is the row of job `j`. */
  ghost predicate JobHasItsRow(p: TaskParams, j: int, history: seq<JobStatistics>, releases: seq<Time>)
    requires |releases| == |history|
  {
    && 1 <= j <= |history| && SettingsOf(p).Unsigned()
    && RowIsAttributed(RowOf(SettingsOf(p), j, history[j - 1]), p, j, history, releases)
  }

  lemma JobRowIsAttributed(p: TaskParams, history: seq<JobStatistics>, releases: seq<Time>, j: nat)
    requires Recordable(p) && NormalRecords(history)
    requires 1 <= j <= |releases| == |history| < 0x1_0000_0000
    requires AreReleases(releases, p)
    ensures JobHasItsRow(p, j, history, releases)
  {
    SettingsComeBack(p);
    JobRowIsExact(p, releases, j, history[j - 1]);
  }

  /** The `k`-th record kept is the one that job `oldest + k` logged, and the row made of it, numbered like that,
      measures from the instant at which exactly that job was released. */
  lemma KeptRowIsAttributed(p: TaskParams, m: nat, overrunDisabled: bool, history: seq<JobStatistics>,
                            releases: seq<Time>, k: nat, j: nat)
    requires Recordable(p) && m >= 1 && NormalRecords(history)
    requires |releases| == |history| < 0x1_0000_0000
    requires AreReleases(releases, p)
    requires k < Min(|history|, m) && j == OldestOf(|history|, m, overrunDisabled) + k
    ensures 1 <= j <= |history| && Kept(history, m, overrunDisabled)[k] == history[j - 1]
    ensures JobHasItsRow(p, j, history, releases)
  {
    KeptIsNumberedFromOldest(history, m, overrunDisabled, k);
    JobRowIsAttributed(p, history, releases, j);
  }

  /** The rows that a report has for the jobs kept of a run. */
  function RowsOfRun(p: TaskParams, m: nat, overrunDisabled: bool, history: seq<JobStatistics>): (rows: seq<Row>)
    requires SettingsOf(p).Unsigned()
    ensures |rows| == Min(|history|, m)
  {
    Rows(SettingsOf(p), OldestOf(|history|, m, overrunDisabled), Kept(history, m, overrunDisabled))
  }

  /** Each of these rows is that of its own job. */
  ghost predicate AllAttributed(p: TaskParams, m: nat, overrunDisabled: bool, history: seq<JobStatistics>,
                                releases: seq<Time>)
    requires |releases| == |history| && SettingsOf(p).Unsigned()
  {
    var rows := RowsOfRun(p, m, overrunDisabled, history);
    forall k :: 0 <= k < |rows| ==>
      RowIsAttributed(rows[k], p, OldestOf(|history|, m, overrunDisabled) + k, history, releases)
  }

  lemma RowOfRunIs(p: TaskParams, m: nat, overrunDisabled: bool, history: seq<JobStatistics>, k: nat, j: nat)
    requires SettingsOf(p).Unsigned() && m >= 1
    requires k < Min(|history|, m) && j == OldestOf(|history|, m, overrunDisabled) + k
    ensures 1 <= j <= |history|
    ensures RowsOfRun(p, m, overrunDisabled, history)[k] == RowOf(SettingsOf(p), j, history[j - 1])
  {
    KeptIsNumberedFromOldest(history, m, overrunDisabled, k);
  }

  lemma RowOfRunIsAttributed(p: TaskParams, m: nat, overrunDisabled: bool, history: seq<JobStatistics>,
                             releases: seq<Time>, k: nat, j: nat)
    requires Recordable(p) && m >= 1 && NormalRecords(history)
    requires |releases| == |history| < 0x1_0000_0000
    requires AreReleases(releases, p)
    requires SettingsOf(p).Unsigned()
    requires k < Min(|history|, m) && j == OldestOf(|history|, m, overrunDisabled) + k
    ensures RowIsAttributed(RowsOfRun(p, m, overrunDisabled, history)[k], p, j, history, releases)
  {
    KeptRowIsAttributed(p, m, overrunDisabled, history, releases, k, j);
    RowOfRunIs(p, m, overrunDisabled, history, k, j);
  }

  lemma RowsAreAttributed(p: TaskParams, m: nat, overrunDisabled: bool, history: seq<JobStatistics>,
                          releases: seq<Time>)
    requires Recordable(p) && m >= 1 && NormalRecords(history)
    requires |releases| == |history| < 0x1_0000_0000
    requires AreReleases(releases, p)
    ensures SettingsOf(p).Unsigned()
    ensures AllAttributed(p, m, overrunDisabled, history, releases)
  {
    SettingsComeBack(p);
    forall k | 0 <= k < |RowsOfRun(p, m, overrunDisabled, history)|
      ensures RowIsAttributed(RowsOfRun(p, m, overrunDisabled, history)[k], p,
                              OldestOf(|history|, m, overrunDisabled) + k, history, releases)
    {
      RowOfRunIsAttributed(p, m, overrunDisabled, history, releases, k, OldestOf(|history|, m, overrunDisabled) + k);
    }
  }

  /** The number of the `n` jobs from `from` on that finished later than `deadline` after their release. */
  function LateAmong(deadline: int, history: seq<JobStatistics>, releases: seq<Time>, from: nat, n: nat): nat
    requires 1 <= from && from + n <= |history| + 1 && |releases| == |history|
    decreases n
  {
    if n == 0 then 0
    else
      var j := from + n - 1;
      LateAmong(deadline, history, releases, from, n - 1)
      + if history[j - 1].end.Ns() > releases[j - 1].Ns() + deadline then 1 else 0
  }

  /** The time from the release of job `j` to its end in nanoseconds, cut off to 64 bits, and rounded to microseconds. */
  function ResponseOfJob(history: seq<JobStatistics>, releases: seq<Time>, j: nat): (us: nat)
    requires 1 <= j <= |history| == |releases|
    ensures var ns := history[j - 1].end.Ns() - releases[j - 1].Ns();
            0 <= ns < 0x1_0000_0000_0000_0000 ==> ns - 500 < 1000 * us <= ns + 500
  {
    var ns: nat := Max(0, history[j - 1].end.Ns() - releases[j - 1].Ns());
    ResponseTimes.Microseconds(ns % 0x1_0000_0000_0000_0000)
  }

  /** The response times of the `n` jobs from `from` on. */
  function ResponsesOf(history: seq<JobStatistics>, releases: seq<Time>, from: nat, n: nat): (us: seq<nat>)
    requires 1 <= from && from + n <= |history| + 1 && |releases| == |history|
    ensures |us| == n
  {
    seq<nat>(n, k requires 0 <= k < n => ResponseOfJob(history, releases, from + k))
  }

  /** What is reported of a run: the rows of the jobs kept, or instead of them the distribution of their response
      times, and the number of deadlines that these jobs missed. */
  ghost predicate IsReportOfRun(p: TaskParams, m: nat, overrunDisabled: bool, history: seq<JobStatistics>,
                                releases: seq<Time>, wantCdf: bool, report: seq<Row>, lateCount: nat,
                                cdf: seq<ResponseTimes.Bar>)
    requires SettingsOf(p).Unsigned() && m >= 1 && 1 <= |history| == |releases|
  {
    var rows, from, n := RowsOfRun(p, m, overrunDisabled, history), OldestOf(|history|, m, overrunDisabled),
                         Min(|history|, m);
    && report == (if wantCdf then [] else rows)
    && lateCount == LateAmong(p.deadline.Ns(), history, releases, from, n)
    && (if wantCdf then ResponseTimes.IsCdf(cdf, ResponsesOf(history, releases, from, n)) else cdf == [])
  }

  /** The records that the jobs of a run log. */
  function HistoryOf(rounds: seq<Round>): (history: seq<JobStatistics>)
    requires rounds != []
    ensures |history| == RunLength(rounds, true)
  {
    Samples(rounds[..RunLength(rounds, true)])
  }

  /** The instants at which the first `n` jobs of a task are due. */
  function DueInstants(p: TaskParams, n: nat): (instants: seq<Time>)
    ensures |instants| == n
    ensures forall i :: 0 <= i < n ==>
              instants[i].Normal() && instants[i].Ns() == p.t0.Ns() + p.offset.Ns() + i * p.period.Ns()
  {
    seq(n, i requires 0 <= i < n =>
      var ns := p.t0.Ns() + p.offset.Ns() + i * p.period.Ns();
      Time(ns / BILLION, ns % BILLION))
  }

  lemma ReleasesAreDue(p: TaskParams, releases: seq<Time>)
    requires AreReleases(releases, p)
    ensures releases == DueInstants(p, |releases|)
  {
    forall i | 0 <= i < |releases|
      ensures releases[i] == DueInstants(p, |releases|)[i]
    {
      SpacedAt(releases, ReleaseInstant(p, 1), p.period.Ns(), i);
      NormalFormIsUnique(releases[i], DueInstants(p, |releases|)[i]);
    }
  }

  /** Run a periodic task, then report its file. The task sleeps until the instants at which its jobs are due. Every row
      is of the job whose record it shows, measured from the release that job slept until; the lateness count is the
      number of jobs kept that finished after the deadline of the task; and if the distribution of the response times is
      asked for instead of the rows, it is that of the times from the releases of these jobs to their ends. */
  method RecordAndReport(h: Host, p: TaskParams, m: nat, overrunDisabled: bool, rounds: seq<Round>, wantCdf: bool)
      returns (report: seq<Row>, lateCount: nat, cdf: seq<ResponseTimes.Bar>, ghost releases: seq<Time>)
    requires h.Valid() && Recordable(p) && m >= 1
    requires rounds != [] && rounds[|rounds| - 1].stopSeen && |rounds| < 0x1_0000_0000
    requires FitRecords(h, Samples(rounds)) && NormalRecords(Samples(rounds))
    ensures releases == DueInstants(p, RunLength(rounds, true))
    ensures SettingsOf(p).Unsigned()
    ensures IsReportOfRun(p, m, overrunDisabled, HistoryOf(rounds), DueInstants(p, RunLength(rounds, true)), wantCdf,
                          report, lateCount, cdf)
    ensures AllAttributed(p, m, overrunDisabled, HistoryOf(rounds), DueInstants(p, RunLength(rounds, true)))
  {
    var written;
    written, releases := LifeOfPeriodicTask(h, p, m, overrunDisabled, rounds);
    ghost var history := HistoryOf(rounds);
    SamplesAreNormal(rounds, |releases|);
    ReleasesAreDue(p, releases);
    RowsAreAttributed(p, m, overrunDisabled, history, releases);
    var file := new Stream(written.data);
    report, lateCount, cdf := ReportRun(h, p, m, overrunDisabled, history, releases, file, wantCdf);
  }

  /** The report of the file of a run. */
  method ReportRun(h: Host, p: TaskParams, m: nat, overrunDisabled: bool, ghost history: seq<JobStatistics>,
                   ghost releases: seq<Time>, file: Stream, wantCdf: bool)
      returns (report: seq<Row>, lateCount: nat, cdf: seq<ResponseTimes.Bar>)
    requires h.Valid() && Recordable(p) && m >= 1
    requires FitRecords(h, history) && NormalRecords(history) && 1 <= |history| == |releases| < 0x1_0000_0000
    requires AreReleases(releases, p)
    requires file.Valid() && file.data == StatisticsFile(h, p, m, overrunDisabled, history) && file.pos == 0 && !file.eof
    modifies file
    ensures SettingsOf(p).Unsigned()
    ensures IsReportOfRun(p, m, overrunDisabled, history, releases, wantCdf, report, lateCount, cdf)
  {
    assert file.Remaining() == file.data;
    FileOfRun(h, p, m, overrunDisabled, history);
    KeptLateJobs(p, m, overrunDisabled, history, releases);
    KeptResponses(p, m, overrunDisabled, history, releases);
    var r, stats;
    r, stats, cdf := ReadTaskStatsFile(h, file, wantCdf);
    assert stats.rows == RowsOfRun(p, m, overrunDisabled, history);
    report, lateCount := stats.report, stats.lateCount;
  }

  lemma SamplesAreNormal(rounds: seq<Round>, n: nat)
    requires n <= |rounds| && NormalRecords(Samples(rounds))
    ensures NormalRecords(Samples(rounds[..n]))
  {
    forall i | 0 <= i < n
      ensures Samples(rounds[..n])[i].begin.Normal() && Samples(rounds[..n])[i].end.Normal()
    {
      assert Samples(rounds[..n])[i] == Samples(rounds)[i];
    }
  }

  /** The rows are those of jobs from `from` on. */
  ghost predicate RowsFrom(rows: seq<Row>, p: TaskParams, from: nat, history: seq<JobStatistics>, releases: seq<Time>)
    requires |releases| == |history|
  {
    && 1 <= from && from + |rows| <= |history| + 1
    && forall k :: 0 <= k < |rows| ==> RowIsAttributed(rows[k], p, from + k, history, releases)
  }

  lemma RowsOfRunAreFrom(p: TaskParams, m: nat, overrunDisabled: bool, history: seq<JobStatistics>, releases: seq<Time>)
    requires Recordable(p) && m >= 1 && NormalRecords(history) && 1 <= |history|
    requires |releases| == |history| < 0x1_0000_0000 && AreReleases(releases, p)
    ensures SettingsOf(p).Unsigned()
    ensures RowsFrom(RowsOfRun(p, m, overrunDisabled, history), p, OldestOf(|history|, m, overrunDisabled), history,
                     releases)
  {
    RowsAreAttributed(p, m, overrunDisabled, history, releases);
  }

  lemma OneRowLess(rows: seq<Row>, p: TaskParams, from: nat, history: seq<JobStatistics>, releases: seq<Time>)
    requires |releases| == |history| && rows != [] && RowsFrom(rows, p, from, history, releases)
    ensures RowsFrom(rows[..|rows| - 1], p, from, history, releases)
    ensures var j := from + |rows| - 1;
            rows[|rows| - 1].late <==> history[j - 1].end.Ns() > releases[j - 1].Ns() + p.deadline.Ns()
  {
    assert RowIsAttributed(rows[|rows| - 1], p, from + |rows| - 1, history, releases);
  }

  lemma {:induction false} LateRowsAreLateAmong(rows: seq<Row>, p: TaskParams, from: nat, history: seq<JobStatistics>,
                                                releases: seq<Time>)
    requires |releases| == |history| && 1 <= from && RowsFrom(rows, p, from, history, releases)
    ensures LateRows(rows) == LateAmong(p.deadline.Ns(), history, releases, from, |rows|)
    decreases |rows|
  {
    if rows != [] {
      OneRowLess(rows, p, from, history, releases);
      LateRowsAreLateAmong(rows[..|rows| - 1], p, from, history, releases);
    }
  }

  /** The late rows of a report are the jobs kept that finished after the deadline of the task. */
  lemma KeptLateJobs(p: TaskParams, m: nat, overrunDisabled: bool, history: seq<JobStatistics>, releases: seq<Time>)
    requires Recordable(p) && m >= 1 && NormalRecords(history) && 1 <= |history|
    requires |releases| == |history| < 0x1_0000_0000 && AreReleases(releases, p)
    ensures SettingsOf(p).Unsigned()
    ensures var from := OldestOf(|history|, m, overrunDisabled);
            LateRows(RowsOfRun(p, m, overrunDisabled, history))
            == LateAmong(p.deadline.Ns(), history, releases, from, Min(|history|, m))
  {
    RowsOfRunAreFrom(p, m, overrunDisabled, history, releases);
    LateRowsAreLateAmong(RowsOfRun(p, m, overrunDisabled, history), p, OldestOf(|history|, m, overrunDisabled), history,
                         releases);
  }

  lemma ResponseOfRow(row: Row, p: TaskParams, j: nat, history: seq<JobStatistics>, releases: seq<Time>)
    requires |releases| == |history| && RowIsAttributed(row, p, j, history, releases)
    ensures ResponseTimes.Microseconds(ResponseNs(row)) == ResponseOfJob(history, releases, j)
  {
  }

  /** What is put into the histogram for the jobs kept is the time from the release of each job to its end. */
  lemma KeptResponses(p: TaskParams, m: nat, overrunDisabled: bool, history: seq<JobStatistics>, releases: seq<Time>)
    requires Recordable(p) && m >= 1 && NormalRecords(history) && 1 <= |history|
    requires |releases| == |history| < 0x1_0000_0000 && AreReleases(releases, p)
    ensures SettingsOf(p).Unsigned()
    ensures ResponseMicroseconds(RowsOfRun(p, m, overrunDisabled, history))
            == ResponsesOf(history, releases, OldestOf(|history|, m, overrunDisabled), Min(|history|, m))
  {
    RowsOfRunAreFrom(p, m, overrunDisabled, history, releases);
    var rows, from := RowsOfRun(p, m, overrunDisabled, history), OldestOf(|history|, m, overrunDisabled);
    forall k | 0 <= k < |rows|
      ensures ResponseMicroseconds(rows)[k] == ResponsesOf(history, releases, from, |rows|)[k]
    {
      ResponseOfRow(rows[k], p, from + k, history, releases);
    }
  }
}
