/** The life of a task (task.c): creation with its header written, the periodic release loop, and the flush of the
    ring when it stops. */
module Task {
  import opened Stdio
  import opened ByteFormat
  import opened UtilityTime
  import opened Job

  /** What the outside world does in one round of the release loop: the error of the sleep (positive, or zero), the
      run of the job, and whether `stopped` is set when the loop condition reads it. */
  datatype Round = Round(sleepError: nat, run: JobRun, stopSeen: bool)

  /** No call failed in this round. `logging` is off when there is no ring, and then no clock is read. */
  predicate RoundOk(r: Round, logging: bool) {
    r.sleepError == 0 && (logging ==> r.run.clockErrors == 0)
  }

  /** The loop goes on after this round. */
  predicate GoesOn(r: Round, logging: bool) {
    RoundOk(r, logging) && !r.stopSeen
  }

  /** The number of rounds the loop has made when it ends, if it gets to round `k`; the last round always ends it. */
  function RunEnd(rounds: seq<Round>, logging: bool, k: nat): (n: nat)
    requires k < |rounds|
    ensures k < n <= |rounds|
    decreases |rounds| - k
  {
    if k + 1 < |rounds| && GoesOn(rounds[k], logging) then RunEnd(rounds, logging, k + 1) else k + 1
  }

  /** The loop makes no round after the first at which it is to stop, and no fewer. */
  lemma {:induction false} RunEndIsFirstStop(rounds: seq<Round>, logging: bool, k: nat)
    requires k < |rounds|
    ensures var n := RunEnd(rounds, logging, k);
            && (forall i :: k <= i < n - 1 ==>
                  && rounds[i].sleepError == 0 && !rounds[i].stopSeen
                  && (logging ==> rounds[i].run.clockErrors == 0))
            && (n < |rounds| ==>
                  var last := rounds[n - 1];
                  last.sleepError > 0 || last.stopSeen || (logging && last.run.clockErrors > 0))
    decreases |rounds| - k
  {
    if k + 1 < |rounds| && GoesOn(rounds[k], logging) {
      RunEndIsFirstStop(rounds, logging, k + 1);
    }
  }

  /** The number of rounds of the whole loop. */
  function RunLength(rounds: seq<Round>, logging: bool): (n: nat)
    requires rounds != []
    ensures 0 < n <= |rounds|
  {
    RunEnd(rounds, logging, 0)
  }

  function Samples(rounds: seq<Round>): (s: seq<JobStatistics>)
    ensures |s| == |rounds|
  {
    seq(|rounds|, i requires 0 <= i < |rounds| => rounds[i].run.sample)
  }

  /** The instant, in nanoseconds, at which job `j` (counted from one) of a periodic task is to be released. */
  function ReleaseInstant(p: TaskParams, j: int): int {
    p.t0.Ns() + p.offset.Ns() + (j - 1) * p.period.Ns()
  }

  predicate NormalTimes(p: TaskParams) {
    p.t0.Normal() && p.offset.Normal() && p.period.Normal() && p.deadline.Normal()
  }

  function RingCounters(n: nat, m: nat, overrunDisabled: bool): RingParams {
    RingParams(OldestOf(n, m, overrunDisabled), LostOf(n, m), n)
  }

  /** The whole statistics file of a task whose jobs logged `history` into a ring of `m` slots; `m == 0` stands for
      disabled statistics, of which nothing but the header is written. */
  function StatisticsFile(h: Host, p: TaskParams, m: nat, overrunDisabled: bool, history: seq<JobStatistics>): seq<Byte>
    requires h.Valid() && FitRecords(h, history)
  {
    var q := p.(disabled := m == 0);
    if m == 0 then EncodeHeader(h, q)
    else
      EncodeHeader(h, q) + EncodePreamble(h, RingCounters(|history|, m, overrunDisabled))
      + EncodeRecords(h, Kept(history, m, overrunDisabled))
  }

  class TaskObject {
    const params: TaskParams
    const period: TimeCell
    const t: TimeCell
    const statsLog: Stream
    var nextReleaseTime: Time
    var ring: RingBuffer?
    var oldestJobPos: int
    var lostJobCount: int
    var writeCount: int

    ghost function Repr(): set<object>
      reads this
    {
      if ring == null then {} else {ring, ring.ringbuf}
    }

    ghost predicate Valid()
      reads this, period, Repr()
    {
      && t != period
      && period.Value() == params.period
      && params.period.Normal() && nextReleaseTime.Normal()
      && (params.disabled ==> ring == null)
      && (ring != null ==> ring.Valid())
    }

    /** What the jobs of this task have logged. */
    ghost function History(): seq<JobStatistics>
      reads this, ring
    {
      if ring == null then [] else ring.history
    }

    /** task_create. */
    constructor (h: Host, p: TaskParams, ringSlots: nat, disableOverrun: bool)
      requires h.Valid() && NormalTimes(p)
      ensures Valid() && fresh(statsLog) && fresh(t) && fresh(period) && fresh(Repr())
      ensures params == p.(disabled := ringSlots == 0)
      ensures nextReleaseTime.Ns() == p.t0.Ns() + p.offset.Ns()
      ensures statsLog.data == EncodeHeader(h, params)
      ensures ring == null <==> ringSlots == 0
      ensures ring != null ==> ring.slotCount == ringSlots && ring.overrunDisabled == disableOverrun
      ensures History() == []
    {
      params := p.(disabled := ringSlots == 0);
      period := new TimeCell(p.period);
      t := new TimeCell(ZERO);
      oldestJobPos, lostJobCount, writeCount := 0, 0, 0;
      statsLog := new Stream([]);
      if ringSlots == 0 {
        ring := null;
      } else {
        ring := new RingBuffer(ringSlots, disableOverrun);
      }
      nextReleaseTime := Add(p.t0, p.offset);
      new;
      statsLog.Fwrite(EncodeHeader(h, params));
    }

    /** One round of the release loop: sleep, run the job, and move the release time on by one period. */
    method RunOnce(r: Round) returns (rc: int)
      requires Valid()
      modifies this`nextReleaseTime, t, Repr()
      ensures Valid()
      ensures nextReleaseTime.Ns() == old(nextReleaseTime.Ns()) + params.period.Ns()
      ensures ring != null ==> History() == old(History()) + [r.run.sample]
      ensures rc == 0 - r.sleepError - (if ring != null then r.run.clockErrors else 0)
    {
      rc := 0 - r.sleepError;
      var jobRc := JobStart(ring, r.run);
      rc := rc - jobRc;
      t.Assign(nextReleaseTime);
      Increment(t, period);
      nextReleaseTime := t.Value();
    }

    /** The records of the first `k` rounds have been logged after what was there before. */
    ghost predicate HasLogged(before: seq<JobStatistics>, rounds: seq<Round>, k: nat)
      requires k <= |rounds|
      reads this, ring
    {
      ring != null ==> History() == before + Samples(rounds[..k])
    }

    /** task_start_periodic. `rounds` is what happens around the loop, up to a round at which it is told to stop;
        `releases` are the instants slept until. */
    method RunPeriodic(rounds: seq<Round>) returns (rc: int, ghost releases: seq<Time>)
      requires Valid()
      requires rounds != [] && rounds[|rounds| - 1].stopSeen
      modifies this`nextReleaseTime, t, Repr()
      ensures Valid()
      ensures |releases| == RunLength(rounds, ring != null)
      ensures Spaced(releases, old(nextReleaseTime.Ns()), params.period.Ns())
      ensures HasLogged(old(History()), rounds, |releases|)
      ensures rc == (var last := rounds[|releases| - 1];
                     0 - last.sleepError - (if ring != null then last.run.clockErrors else 0))
    {
      ghost var instants;
      rc, instants := RunLoop(rounds);
      releases := instants[..|instants| - 1];
    }

    /** The loop itself; the last of `instants` is the one that would be slept until next. */
    method RunLoop(rounds: seq<Round>) returns (rc: int, ghost instants: seq<Time>)
      requires Valid()
      requires rounds != [] && rounds[|rounds| - 1].stopSeen
      modifies this`nextReleaseTime, t, Repr()
      ensures Valid()
      ensures |instants| == RunLength(rounds, ring != null) + 1
      ensures SpacedUpTo(instants, nextReleaseTime, old(nextReleaseTime.Ns()), params.period.Ns())
      ensures HasLogged(old(History()), rounds, |instants| - 1)
      ensures rc == (var last := rounds[|instants| - 2];
                     0 - last.sleepError - (if ring != null then last.run.clockErrors else 0))
    {
      instants := [nextReleaseTime];
      var k := 0;
      NoSamples(History(), rounds);
      while true
        invariant 0 <= k < |rounds| && |instants| == k + 1
        invariant Valid()
        invariant RunLength(rounds, ring != null) == RunEnd(rounds, ring != null, k)
        invariant SpacedUpTo(instants, nextReleaseTime, old(nextReleaseTime.Ns()), params.period.Ns())
        invariant HasLogged(old(History()), rounds, k)
        decreases |rounds| - k
      {
        ghost var last := nextReleaseTime;
        rc := RunOnce(rounds[k]);
        SpacedAppend(instants, last, nextReleaseTime, old(nextReleaseTime.Ns()), params.period.Ns());
        instants := instants + [nextReleaseTime];
        SamplesAppend(old(History()), rounds, k);
        k := k + 1;
        if !(rc == 0 && !rounds[k - 1].stopSeen) {
          break;
        }
      }
    }

    /** flush_stats_ringbuf. */
    method Flush(h: Host)
      requires Valid() && h.Valid()
      requires FitRecords(h, History())
      modifies this, statsLog
      ensures ring == null && History() == []
      ensures old(ring) == null ==> statsLog.data == old(statsLog.data)
      ensures old(ring) != null ==>
                var n, m, d := |old(History())|, old(ring).slotCount, old(ring).overrunDisabled;
                && oldestJobPos == (if n == 0 then 0 else if d || n <= m then 1 else n - m + 1)
                && lostJobCount == (if n <= m then 0 else n - m) && writeCount == n
                && statsLog.data == old(statsLog.data) + EncodePreamble(h, RingCounters(n, m, d))
                                    + EncodeRecords(h, Kept(old(History()), m, d))
    {
      if ring == null || params.disabled {
        return;
      }
      RingAfterRefines(ring.slotCount, ring.overrunDisabled, ring.history);
      ring.State().Counters(ring.history);
      oldestJobPos := ring.State().OldestPos();
      lostJobCount := ring.State().LostCount();
      writeCount := ring.writeCount;
      statsLog.Fwrite(EncodePreamble(h, RingParams(oldestJobPos, lostJobCount, writeCount)));
      ring.Save(h, statsLog);
      ring := null;
    }
  }

  /** Normalised instants that start at `start` and follow each other at distance `step`. */
  ghost predicate Spaced(instants: seq<Time>, start: int, step: int) {
    instants == [] ||
    (var n := |instants| - 1;
     && Spaced(instants[..n], start, step)
     && instants[n].Normal() && instants[n].Ns() == start + n * step)
  }

  /** The release instants of the jobs of a periodic task, in order. */
  ghost predicate AreReleases(instants: seq<Time>, p: TaskParams) {
    Spaced(instants, ReleaseInstant(p, 1), p.period.Ns())
  }

  ghost predicate SpacedUpTo(instants: seq<Time>, last: Time, start: int, step: int) {
    instants != [] && instants[|instants| - 1] == last && Spaced(instants, start, step)
  }

  lemma SpacedAppend(instants: seq<Time>, last: Time, next: Time, start: int, step: int)
    requires SpacedUpTo(instants, last, start, step) && next.Normal()
    requires next.Ns() == last.Ns() + step
    ensures SpacedUpTo(instants + [next], next, start, step)
  {
    var k := |instants|;
    assert (instants + [next])[..k] == instants;
    assert k * step == (k - 1) * step + step;
  }

  lemma {:induction false} SpacedAt(instants: seq<Time>, start: int, step: int, i: nat)
    requires Spaced(instants, start, step) && i < |instants|
    ensures instants[i].Normal() && instants[i].Ns() == start + i * step
  {
    if i < |instants| - 1 {
      SpacedAt(instants[..|instants| - 1], start, step, i);
    }
  }

  lemma NoSamples(before: seq<JobStatistics>, rounds: seq<Round>)
    ensures before + Samples(rounds[..0]) == before
  {
  }

  lemma SamplesAppend(before: seq<JobStatistics>, rounds: seq<Round>, k: nat)
    requires k < |rounds|
    ensures before + Samples(rounds[..k]) + [rounds[k].run.sample] == before + Samples(rounds[..k + 1])
  {
  }

  lemma SamplesFit(h: Host, rounds: seq<Round>, n: nat)
    requires n <= |rounds| && FitRecords(h, Samples(rounds))
    ensures FitRecords(h, Samples(rounds[..n]))
  {
    forall i | 0 <= i < n
      ensures FitsRecord(h, Samples(rounds[..n])[i])
    {
      assert Samples(rounds[..n])[i] == Samples(rounds)[i];
    }
  }

  /** A periodic task from its creation to its statistics file. */
  method LifeOfPeriodicTask(h: Host, p: TaskParams, m: nat, overrunDisabled: bool, rounds: seq<Round>)
      returns (file: Stream, ghost releases: seq<Time>)
    requires h.Valid() && NormalTimes(p)
    requires rounds != [] && rounds[|rounds| - 1].stopSeen
    requires FitRecords(h, Samples(rounds))
    ensures |releases| == RunLength(rounds, m > 0)
    ensures AreReleases(releases, p)
    ensures FitRecords(h, Samples(rounds[..|releases|]))
    ensures file.data == StatisticsFile(h, p, m, overrunDisabled, Samples(rounds[..|releases|]))
    ensures fresh(file)
  {
    var task := new TaskObject(h, p, m, overrunDisabled);
    var rc;
    rc, releases := task.RunPeriodic(rounds);
    assert task.statsLog.data == EncodeHeader(h, task.params);
    SamplesFit(h, rounds, |releases|);
    ghost var history, header := Samples(rounds[..|releases|]), EncodeHeader(h, task.params);
    if m > 0 {
      assert task.History() == history by {
        assert [] + history == history;
      }
    }
    task.Flush(h);
    file := task.statsLog;
    if m > 0 {
      assert file.data == header + EncodePreamble(h, RingCounters(|history|, m, overrunDisabled))
                          + EncodeRecords(h, Kept(history, m, overrunDisabled));
    }
  }
}
