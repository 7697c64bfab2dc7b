/** The report of read_task_stats_file.c: one row per record that was read, with the release of its job recomputed
    from its number, lateness decided, and the response time put into the histogram. */
module StatsReport {
  import opened Common
  import opened ByteFormat
  import opened UtilityTime
  import opened TaskFile
  import ResponseTimes

  /** A difference printed as a sign and a magnitude, since subtraction stops at zero. */
  datatype Delta = Delta(plus: bool, magnitude: Time) {
    function Ns(): int {
      if plus then magnitude.Ns() else 0 - magnitude.Ns()
    }
  }

  function DeltaOf(instant: Time, reference: Time): (d: Delta)
    ensures instant.Normal() && reference.Normal() ==> d.Ns() == instant.Ns() - reference.Ns()
    ensures instant.Normal() && reference.Normal() ==> (d.plus <==> d.Ns() > 0)
  {
    if instant.Normal() && reference.Normal() then
      ComparisonsAreTheOrderOfTotals(reference, instant);
      SignAndMagnitude(instant, reference)
    else SignAndMagnitude(instant, reference)
  }

  function SignAndMagnitude(instant: Time, reference: Time): Delta {
    if Lt(reference, instant) then Delta(true, Sub(instant, reference)) else Delta(false, Sub(reference, instant))
  }

  datatype Row = Row(job: int, release: Time, deltaStart: Delta, start: Time, deadline: Time, deltaFinish: Delta,
                     finish: Time, execTime: Time, responseTime: Time, late: bool)

  /** What the report takes from the task. */
  datatype Settings = Settings(period: Time, deadline: Time, t0: Time, offset: Time) {
    /** Every field read from a file is unsigned. */
    predicate Unsigned() {
      && 0 <= period.sec && 0 <= period.nsec && 0 <= deadline.sec && 0 <= deadline.nsec
      && 0 <= t0.sec && 0 <= t0.nsec && 0 <= offset.sec && 0 <= offset.nsec
    }

    predicate Normal() {
      period.Normal() && deadline.Normal() && t0.Normal() && offset.Normal()
    }
  }

  function SettingsOf(p: TaskParams): Settings {
    Settings(p.period, p.deadline, p.t0, p.offset)
  }

  /** The job number minus one, as passed to a parameter of type unsigned. */
  function Multiplier(nthJob: int): nat {
    (nthJob - 1) % 0x1_0000_0000
  }

  function RowOf(s: Settings, nthJob: int, rec: JobStatistics): Row
    requires s.Unsigned()
  {
    RowFrom(s, nthJob, Add(s.offset, Times(s.period, Multiplier(nthJob))), rec)
  }

  function RowFrom(s: Settings, nthJob: int, release: Time, rec: JobStatistics): Row
    requires s.Unsigned() && release.Normal()
  {
    var start, deadline, finish := Sub(rec.begin, s.t0), Add(release, s.deadline), Sub(rec.end, s.t0);
    Row(nthJob, release, DeltaOf(start, release), start, deadline, DeltaOf(finish, deadline), finish,
        Sub(finish, start), Sub(finish, release), Lt(deadline, finish))
  }

  // ---------- what a row says ----------

  /** When the job after `t_0 + offset` by `nthJob - 1` periods was to be released, relative to `t_0`. */
  function DueRelease(s: Settings, nthJob: int): int {
    s.offset.Ns() + (nthJob - 1) * s.period.Ns()
  }

  /** The recomputed release is the due one exactly when the job number minus one fits the 32-bit multiplier, or the
      period is zero. */
  lemma ReleaseOfJob(s: Settings, nthJob: int, rec: JobStatistics)
    requires s.Unsigned() && s.Normal()
    ensures RowOf(s, nthJob, rec).release.Ns() == DueRelease(s, nthJob)
            <==> 0 <= nthJob - 1 < 0x1_0000_0000 || s.period.Ns() == 0
  {
    var x, n, k := s.period.Ns(), Multiplier(nthJob), nthJob - 1;
    assert x * n == n * x;
    assert n * x - k * x == (n - k) * x;
    if x != 0 && n != k {
      NonZeroProduct(n - k, x);
    }
  }

  lemma NonZeroProduct(a: int, b: int)
    requires a != 0 && b != 0
    ensures a * b != 0
  {
  }

  /** What is to be in the columns of a row whose job was due at `release`, with times in nanoseconds from the epoch of
      the clock, and `deadline` after the release. Columns are relative to `t0` and say nothing about a start or a finish
      before it, except that lateness and the response time are always exact. */
  predicate RowIsExact(t0: int, deadline: int, r: Row, rec: JobStatistics, release: int) {
    && t0 + r.release.Ns() == release
    && t0 + r.deadline.Ns() == release + deadline
    && (r.late <==> rec.end.Ns() > release + deadline)
    && r.responseTime.Ns() == Max(0, rec.end.Ns() - release)
    && (rec.begin.Ns() >= t0 ==>
          t0 + r.start.Ns() == rec.begin.Ns() && r.deltaStart.Ns() == rec.begin.Ns() - release)
    && (rec.end.Ns() >= t0 ==>
          t0 + r.finish.Ns() == rec.end.Ns() && r.deltaFinish.Ns() == rec.end.Ns() - (release + deadline))
    && (rec.begin.Ns() >= t0 && rec.end.Ns() >= t0 ==>
          r.execTime.Ns() == Max(0, rec.end.Ns() - rec.begin.Ns()))
  }

  lemma RowFromIsExact(s: Settings, nthJob: int, release: Time, rec: JobStatistics)
    requires s.Unsigned() && s.Normal() && rec.begin.Normal() && rec.end.Normal()
    requires release.Normal() && release.Ns() >= 0
    ensures RowIsExact(s.t0.Ns(), s.deadline.Ns(), RowFrom(s, nthJob, release, rec), rec, s.t0.Ns() + release.Ns())
  {
    var r := RowFrom(s, nthJob, release, rec);
    ComparisonsAreTheOrderOfTotals(r.deadline, r.finish);
  }

  /** Every column is exact, although only cut-off subtraction was used to compute it. */
  lemma RowMeaning(s: Settings, nthJob: int, rec: JobStatistics)
    requires s.Unsigned() && s.Normal() && rec.begin.Normal() && rec.end.Normal()
    requires 1 <= nthJob <= 0x1_0000_0000
    ensures RowIsExact(s.t0.Ns(), s.deadline.Ns(), RowOf(s, nthJob, rec), rec, s.t0.Ns() + DueRelease(s, nthJob))
  {
    ReleaseOfJob(s, nthJob, rec);
    NonNegativeProduct(nthJob - 1, s.period.Ns());
    RowFromIsExact(s, nthJob, Add(s.offset, Times(s.period, Multiplier(nthJob))), rec);
  }

  lemma NonNegativeProduct(a: int, b: int)
    requires a >= 0 && b >= 0
    ensures a * b >= 0
  {
  }

  // ---------- whole reports ----------

  /** Consecutive records are numbered from the oldest one on. */
  function Rows(s: Settings, first: int, recs: seq<JobStatistics>): (rows: seq<Row>)
    requires s.Unsigned()
    ensures |rows| == |recs|
  {
    seq(|recs|, k requires 0 <= k < |recs| => RowOf(s, first + k, recs[k]))
  }

  function LateRows(rows: seq<Row>): nat {
    if rows == [] then 0 else LateRows(rows[..|rows| - 1]) + LateRow(rows[|rows| - 1])
  }

  /** The number of records, the first one being of job `first`, that finished after their absolute deadline. */
  function LateJobs(s: Settings, first: int, recs: seq<JobStatistics>): nat {
    if recs == [] then 0
    else
      var n := |recs| - 1;
      LateJobs(s, first, recs[..n]) + LateJob(s, first + n, recs[n])
  }

  /** One if the record, of job `nthJob`, finished after the deadline of that job. */
  function LateJob(s: Settings, nthJob: int, rec: JobStatistics): nat {
    if rec.end.Ns() > s.t0.Ns() + DueRelease(s, nthJob) + s.deadline.Ns() then 1 else 0
  }

  function LateRow(r: Row): nat {
    if r.late then 1 else 0
  }

  predicate NormalRecords(rs: seq<JobStatistics>) {
    forall i :: 0 <= i < |rs| ==> rs[i].begin.Normal() && rs[i].end.Normal()
  }

  lemma RowIsLate(s: Settings, nthJob: int, rec: JobStatistics)
    requires s.Unsigned() && s.Normal() && rec.begin.Normal() && rec.end.Normal()
    requires 1 <= nthJob <= 0x1_0000_0000
    ensures LateRow(RowOf(s, nthJob, rec)) == LateJob(s, nthJob, rec)
  {
    RowMeaning(s, nthJob, rec);
  }

  lemma LateRowsStep(s: Settings, first: int, recs: seq<JobStatistics>, n: nat)
    requires s.Unsigned() && n + 1 == |recs|
    ensures LateRows(Rows(s, first, recs))
            == LateRows(Rows(s, first, recs[..n])) + LateRow(RowOf(s, first + n, recs[n]))
  {
    assert Rows(s, first, recs)[..n] == Rows(s, first, recs[..n]);
  }

  lemma LateJobsStep(s: Settings, first: int, recs: seq<JobStatistics>, n: nat)
    requires n + 1 == |recs|
    ensures LateJobs(s, first, recs) == LateJobs(s, first, recs[..n]) + LateJob(s, first + n, recs[n])
  {
  }

  /** More late rows than late jobs, or fewer. */
  function LateSurplus(s: Settings, first: int, recs: seq<JobStatistics>): int
    requires s.Unsigned()
  {
    LateRows(Rows(s, first, recs)) - LateJobs(s, first, recs)
  }

  lemma SurplusStep(s: Settings, first: int, recs: seq<JobStatistics>, n: nat)
    requires s.Unsigned() && s.Normal() && NormalRecords(recs) && n + 1 == |recs|
    requires 1 <= first + n <= 0x1_0000_0000
    ensures LateSurplus(s, first, recs) == LateSurplus(s, first, recs[..n])
  {
    LateRowsStep(s, first, recs, n);
    LateJobsStep(s, first, recs, n);
    RowIsLate(s, first + n, recs[n]);
  }

  lemma {:induction false} NoSurplus(s: Settings, first: int, recs: seq<JobStatistics>)
    requires s.Unsigned() && s.Normal() && NormalRecords(recs)
    requires 1 <= first && first + |recs| - 1 <= 0x1_0000_0000
    ensures LateSurplus(s, first, recs) == 0
    decreases |recs|
  {
    if recs != [] {
      NoSurplus(s, first, recs[..|recs| - 1]);
      SurplusStep(s, first, recs, |recs| - 1);
    }
  }

  lemma LateRowsAreLateJobs(s: Settings, first: int, recs: seq<JobStatistics>)
    requires s.Unsigned() && s.Normal() && NormalRecords(recs)
    requires 1 <= first && first + |recs| - 1 <= 0x1_0000_0000
    ensures LateRows(Rows(s, first, recs)) == LateJobs(s, first, recs)
  {
    NoSurplus(s, first, recs);
  }

  /** The response time as the unsigned number of nanoseconds that is put into the histogram. */
  function ResponseNs(r: Row): (ns: nat)
    ensures 0 <= r.responseTime.Ns() < 0x1_0000_0000_0000_0000 ==> ns == r.responseTime.Ns()
  {
    r.responseTime.Ns() % 0x1_0000_0000_0000_0000
  }

  /** What is put into the histogram for each row: its response time to the nearest microsecond, if that time fits. */
  function ResponseMicroseconds(rows: seq<Row>): (us: seq<nat>)
    ensures |us| == |rows|
  {
    seq(|rows|, k requires 0 <= k < |rows| => ResponseTimes.Microseconds(ResponseNs(rows[k])))
  }

  /** utility_time_mul_dyn. */
  method MulDyn(t: Time, n: nat) returns (r: Time)
    requires 0 <= t.nsec
    ensures r == Times(t, n)
  {
    var operand := new TimeCell(t);
    var res := new TimeCell(ZERO);
    MulInto(operand, n, res);
    r := res.Value();
  }

  /** The arguments of the two callbacks. */
  class TaskStats {
    var report: seq<Row>
    var settings: Settings
    var nthJob: int
    var totalJobCount: nat
    var lateCount: nat
    const suppressPrintout: bool
    const responseTimes: ResponseTimes.ResponseTimeList
    ghost var first: int
    ghost var seen: seq<JobStatistics>
    ghost var rows: seq<Row>

    /** The rows and counters are those of the records seen. */
    ghost predicate Counted()
      reads this
    {
      && settings.Unsigned()
      && nthJob == first + |seen|
      && totalJobCount == |seen|
      && rows == Rows(settings, first, seen)
      && lateCount == LateRows(rows)
      && report == (if suppressPrintout then [] else rows)
    }

    ghost predicate Valid()
      reads this, responseTimes, responseTimes.repr
    {
      && Counted()
      && responseTimes.Valid()
      && responseTimes.inputs == ResponseMicroseconds(rows)
    }

    constructor (suppress: bool)
      ensures Valid() && seen == [] && suppressPrintout == suppress
      ensures fresh(responseTimes) && responseTimes.repr == {}
    {
      report, nthJob, totalJobCount, lateCount := [], 0, 0, 0;
      settings := Settings(ZERO, ZERO, ZERO, ZERO);
      suppressPrintout := suppress;
      responseTimes := new ResponseTimes.ResponseTimeList();
      first, seen, rows := 0, [], [];
    }

    /** print_task_stats: the numbering starts at the oldest record. */
    method PrintTaskStats(t: ReadTask)
      requires Valid() && seen == []
      requires SettingsOf(t.params).Unsigned()
      modifies this
      ensures Valid() && seen == []
      ensures settings == SettingsOf(t.params) && first == t.ring.oldestJobPos
      ensures settings.period == t.params.period && settings.deadline == t.params.deadline
      ensures settings.t0 == t.params.t0 && settings.offset == t.params.offset
    {
      settings := SettingsOf(t.params);
      nthJob := t.ring.oldestJobPos;
      first := nthJob;
    }

    /** print_job_stats. */
    method PrintJobStats(stats: JobStatistics)
      requires Valid()
      modifies this, responseTimes, responseTimes.repr
      ensures Valid()
      ensures seen == old(seen) + [stats] && first == old(first) && settings == old(settings)
      ensures fresh(responseTimes.repr - old(responseTimes.repr))
    {
      var row := NextRow(stats);
      Count(row, stats);
      responseTimes.Insert(ResponseNs(row));
    }

    method NextRow(stats: JobStatistics) returns (row: Row)
      requires Counted()
      ensures Rows(settings, first, seen + [stats]) == rows + [row]
      ensures LateRows(rows + [row]) == LateRows(rows) + LateRow(row)
      ensures ResponseMicroseconds(rows + [row])
              == ResponseMicroseconds(rows) + [ResponseTimes.Microseconds(ResponseNs(row))]
    {
      row := ComputeRow(stats);
      RowsAppend(settings, first, seen, stats);
      RowCountsAppend(rows, row);
    }

    method Count(row: Row, ghost stats: JobStatistics)
      requires Counted() && Rows(settings, first, seen + [stats]) == rows + [row]
      requires LateRows(rows + [row]) == LateRows(rows) + LateRow(row)
      modifies this
      ensures Counted()
      ensures seen == old(seen) + [stats] && first == old(first) && settings == old(settings)
      ensures rows == old(rows) + [row]
    {
      if row.late {
        lateCount := lateCount + 1;
      }
      if !suppressPrintout {
        report := report + [row];
      }
      nthJob := nthJob + 1;
      totalJobCount := totalJobCount + 1;
      rows := rows + [row];
      seen := seen + [stats];
    }

    /** The columns, in the order in which print_job_stats computes them. */
    method ComputeRow(stats: JobStatistics) returns (row: Row)
      requires settings.Unsigned()
      ensures row == RowOf(settings, nthJob, stats)
    {
      var product := MulDyn(settings.period, Multiplier(nthJob));
      var release := Add(settings.offset, product);
      var start := Sub(stats.begin, settings.t0);
      var deltaStart := DeltaOf(start, release);
      var deadline := Add(release, settings.deadline);
      var isLate := false;
      var finish := Sub(stats.end, settings.t0);
      var deltaFinish := DeltaOf(finish, deadline);
      if Lt(deadline, finish) {
        isLate := true;
      }
      var execTime := Sub(finish, start);
      var responseTime := Sub(finish, release);
      row := Row(nthJob, release, deltaStart, start, deadline, deltaFinish, finish, execTime, responseTime, isLate);
    }
  }

  lemma RowsAppend(s: Settings, first: int, recs: seq<JobStatistics>, rec: JobStatistics)
    requires s.Unsigned()
    ensures Rows(s, first, recs + [rec]) == Rows(s, first, recs) + [RowOf(s, first + |recs|, rec)]
  {
  }

  lemma RowCountsAppend(rows: seq<Row>, row: Row)
    ensures LateRows(rows + [row]) == LateRows(rows) + LateRow(row)
    ensures ResponseMicroseconds(rows + [row])
            == ResponseMicroseconds(rows) + [ResponseTimes.Microseconds(ResponseNs(row))]
  {
    assert (rows + [row])[..|rows|] == rows;
  }
}
