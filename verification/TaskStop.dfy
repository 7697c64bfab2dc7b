/** Stopping a task (task_stop against the loops of task_start, task.c), as the interleaved steps of two threads.

    The documented requirement is that the stopping thread cannot be preempted by the task. `Scheduling.exclusive` is
    that requirement: the task only moves while the stopper has not been called, sleeps, or is done.
 */
module TaskStop {

  /** Where the task's thread is. `Sleeping` is the clock_nanosleep of a periodic task; the next three surround
      aperiodic_release, and `Clearing` is after its return. `Gone` is out of the loop, `Killed` is cancelled. */
  datatype TaskPc = Sleeping | Setting | Releasing | Clearing | InJob | Testing | Gone | Killed

  /** Where task_stop is. `Cancelling` is after the wait loop. */
  datatype StopPc = NotCalled | Polling | Asleep | Cancelling | Done

  datatype State = State(
    aperiodic: bool, pc: TaskPc, stop: StopPc,
    stopped: bool, inside: bool, cancelSent: bool,
    // history: what happened, not read by any step
    foundAt: TaskPc,        // where the task was when `stopped` was set
    cancelledAt: TaskPc,    // where the task was when pthread_cancel was called
    jobsAfterStop: nat,     // the jobs started since `stopped` was set
    sleepFailed: bool)      // a sleep of the stopper failed

  datatype Scheduling = Scheduling(
    exclusive: bool,        // the task does not run while the stopper can
    releaseIsPoint: bool)   // a pending cancellation is acted upon before aperiodic_release returns

  ghost predicate Init(s: State) {
    && s.pc == (if s.aperiodic then Setting else Sleeping) && s.stop == NotCalled
    && !s.stopped && !s.inside && !s.cancelSent && s.jobsAfterStop == 0 && !s.sleepFailed
  }

  function StartJob(s: State): State {
    s.(pc := InJob, jobsAfterStop := if s.stopped then s.jobsAfterStop + 1 else 0)
  }

  /** A step of the task: one statement of the loop, or being cancelled at a cancellation point. */
  ghost predicate TaskStep(c: Scheduling, s: State, t: State) {
    match s.pc
    case Sleeping => t == StartJob(s)
    case Setting => t == s.(inside := true, pc := Releasing)
    case Releasing =>
      || (t == s.(pc := Clearing) && !(c.releaseIsPoint && s.cancelSent))
      || (t == s.(pc := Killed) && s.cancelSent)
    case Clearing => t == StartJob(s.(inside := false))
    case InJob =>
      || t == s.(pc := Testing)                      // the job ended, without an error so far
      || t == s.(pc := Gone)                         // the job ended and some call had failed
      || (t == s.(pc := Killed) && s.cancelSent)
    case Testing => t == s.(pc := if s.stopped then Gone else if s.aperiodic then Setting else Sleeping)
    case Gone => false
    case Killed => false
  }

  /** A step of task_stop. */
  ghost predicate StopStep(s: State, t: State) {
    match s.stop
    case NotCalled => t == s.(stopped := true, foundAt := s.pc, jobsAfterStop := 0,
                              stop := if s.aperiodic then Polling else Done)
    case Polling => t == s.(stop := if s.inside then Cancelling else Asleep)
    case Asleep =>
      || t == s.(stop := Polling)
      || t == s.(stop := Cancelling, sleepFailed := true)
    case Cancelling => t == s.(cancelSent := true, cancelledAt := s.pc, stop := Done)
    case Done => false
  }

  ghost predicate Next(c: Scheduling, s: State, t: State) {
    || StopStep(s, t)
    || ((c.exclusive ==> s.stop in {NotCalled, Asleep, Done}) && TaskStep(c, s, t))
  }

  ghost predicate Run(c: Scheduling, run: seq<State>) {
    && run != [] && Init(run[0])
    && forall i :: 0 < i < |run| ==> Next(c, run[i - 1], run[i])
  }

  // ---------- what every reachable state has ----------

  /** With `stopped` set, how many jobs can have been started since. */
  function JobsPossible(pc: TaskPc): nat {
    if pc in {Sleeping, Setting, Releasing, Clearing} then 0 else 1
  }

  ghost predicate Basics(s: State) {
    && (s.pc != Killed ==> (s.inside <==> s.pc in {Releasing, Clearing}))
    && (if s.aperiodic then s.pc != Sleeping
        else s.pc !in {Setting, Releasing, Clearing, Killed} && s.stop in {NotCalled, Done} && !s.cancelSent)
    && (s.stopped <==> s.stop != NotCalled)
    && (s.cancelSent ==> s.stop == Done)
    && (s.sleepFailed ==> s.stop in {Cancelling, Done})
    && (s.pc == Killed ==> s.cancelSent)
    && s.jobsAfterStop <= (if s.stopped then JobsPossible(s.pc) else 0)
  }

  /** With the stopper not preemptible: while it is about to cancel because it saw the flag, the flag is still set. */
  ghost predicate CancelsInside(s: State) {
    && (s.stop == Cancelling && !s.sleepFailed ==> s.inside && s.pc != Killed)
    && (s.cancelSent && !s.sleepFailed ==> s.cancelledAt in {Releasing, Clearing} && s.pc != Setting)
  }

  /** The task is past the release and has been told to stop, and nobody has cancelled it: it is going to leave without
      setting the flag again, while the stopper waits for the flag. */
  ghost predicate Lost(s: State) {
    && s.aperiodic && s.stopped && !s.inside && !s.cancelSent && !s.sleepFailed
    && s.pc in {InJob, Testing, Gone} && s.stop in {Polling, Asleep}
  }

  /** So it is if `stopped` found the task there. */
  ghost predicate Missed(s: State) {
    s.aperiodic && s.stopped && s.foundAt in {InJob, Testing, Gone} && !s.sleepFailed ==> Lost(s)
  }

  /** A cancellation that is still pending outside aperiodic_release was issued after its return. */
  ghost predicate PendingFromWindow(s: State) {
    s.cancelSent && !s.sleepFailed && s.pc !in {Releasing, Killed} ==> s.cancelledAt == Clearing
  }

  ghost predicate Inv(c: Scheduling, s: State) {
    && Basics(s)
    && Missed(s)
    && (c.exclusive ==> CancelsInside(s))
    && (c.exclusive && c.releaseIsPoint ==> PendingFromWindow(s))
  }

  lemma InvStep(c: Scheduling, s: State, t: State)
    requires Inv(c, s) && Next(c, s, t)
    ensures Inv(c, t)
  {
    if !StopStep(s, t) {
      assert TaskStep(c, s, t);
    }
  }

  lemma {:induction false} InvHolds(c: Scheduling, run: seq<State>, i: nat)
    requires Run(c, run) && i < |run|
    ensures Inv(c, run[i])
  {
    if i > 0 {
      InvHolds(c, run, i - 1);
      InvStep(c, run[i - 1], run[i]);
    }
  }

  // ---------- as long as nobody stops it ----------

  /** The jobs started in a run. */
  function JobsStarted(run: seq<State>): nat {
    if |run| <= 1 then 0
    else
      var n := |run| - 1;
      JobsStarted(run[..n]) + (if run[n - 1].pc != InJob && run[n].pc == InJob then 1 else 0)
  }

  ghost predicate NobodyStops(run: seq<State>) {
    forall i :: 0 <= i < |run| ==> !run[i].stopped && run[i].stop == NotCalled
  }

  /** Such a run from `first` to `last`, with `n` jobs. */
  ghost predicate Leads(c: Scheduling, run: seq<State>, first: State, last: State, n: nat) {
    && Run(c, run) && NobodyStops(run) && JobsStarted(run) == n
    && run[0] == first && run[|run| - 1] == last
  }

  lemma OneStepMore(c: Scheduling, run: seq<State>, first: State, last: State, n: nat, t: State)
      returns (more: seq<State>)
    requires Leads(c, run, first, last, n) && TaskStep(c, last, t) && !t.stopped && t.stop == NotCalled
    ensures Leads(c, more, first, t, if last.pc != InJob && t.pc == InJob then n + 1 else n)
  {
    more := run + [t];
    assert more[..|run|] == run;
    forall i | 0 < i < |more|
      ensures Next(c, more[i - 1], more[i])
    {
      if i < |run| {
        assert more[i - 1] == run[i - 1] && more[i] == run[i];
      }
    }
  }

  /** From the top of the loop the task can go into one more job. */
  lemma IntoJob(c: Scheduling, run: seq<State>, s: State, n: nat) returns (more: seq<State>)
    requires Leads(c, run, s, s, n) && Init(s)
    ensures Leads(c, more, s, s.(pc := InJob), n + 1)
  {
    if s.aperiodic {
      more := OneStepMore(c, run, s, s, n, s.(inside := true, pc := Releasing));
      more := OneStepMore(c, more, s, s.(inside := true, pc := Releasing), n, s.(inside := true, pc := Clearing));
      more := OneStepMore(c, more, s, s.(inside := true, pc := Clearing), n, s.(pc := InJob));
    } else {
      more := OneStepMore(c, run, s, s, n, s.(pc := InJob));
    }
  }

  /** And then be there again. */
  lemma OneJobMore(c: Scheduling, run: seq<State>, s: State, n: nat) returns (more: seq<State>)
    requires Leads(c, run, s, s, n) && Init(s)
    ensures Leads(c, more, s, s, n + 1)
  {
    more := IntoJob(c, run, s, n);
    more := OneStepMore(c, more, s, s.(pc := InJob), n + 1, s.(pc := Testing));
    more := OneStepMore(c, more, s, s.(pc := Testing), n + 1, s);
  }

  /** In both modes there is a run with any number of jobs before anybody stops the task. */
  lemma {:induction false} AnyNumberOfJobs(c: Scheduling, aperiodic: bool, n: nat) returns (run: seq<State>)
    ensures Run(c, run) && run[0].aperiodic == aperiodic && NobodyStops(run) && JobsStarted(run) == n
    ensures run[|run| - 1] == run[0]
  {
    if n == 0 {
      run := [State(aperiodic, if aperiodic then Setting else Sleeping, NotCalled, false, false, false, Gone, Gone, 0,
                    false)];
    } else {
      var before := AnyNumberOfJobs(c, aperiodic, n - 1);
      run := OneJobMore(c, before, before[0], n - 1);
    }
  }

  lemma LeaveStep(c: Scheduling, s: State, t: State)
    requires Next(c, s, t)
    ensures s.pc == Testing && t.pc != Testing ==> (t.pc == Gone <==> s.stopped)
    ensures s.pc != Gone && t.pc == Gone && !t.stopped ==> s.pc == InJob
    ensures s.stopped ==> t.stopped
  {
  }

  /** In every run the task that tests its loop condition leaves the loop exactly if it has been told to stop. So without
      that it is out of its loop only after a job with a call that failed. */
  lemma {:induction false} LeavesOnlyIfStopped(c: Scheduling, run: seq<State>, i: nat) returns (j: nat)
    requires Run(c, run) && i < |run|
    ensures i > 0 && run[i - 1].pc == Testing && run[i].pc != Testing ==> (run[i].pc == Gone <==> run[i - 1].stopped)
    ensures run[i].pc == Gone && !run[i].stopped ==> 0 < j <= i && run[j - 1].pc == InJob && run[j].pc == Gone
  {
    j := i;
    if i > 0 {
      LeaveStep(c, run[i - 1], run[i]);
      if run[i - 1].pc == Gone {
        j := LeavesOnlyIfStopped(c, run, i - 1);
      }
    }
  }

  // ---------- the promises ----------

  /** In both modes and under any scheduling, at most one job starts after `stopped` is set. */
  lemma AtMostOneJobAfterStop(c: Scheduling, run: seq<State>, i: nat)
    requires Run(c, run) && i < |run|
    ensures run[i].jobsAfterStop <= 1
  {
    InvHolds(c, run, i);
  }

  /** In every interleaving in which the task cannot preempt the stopper and the stopper's sleeps succeed,
      pthread_cancel is only called while the task is between setting and clearing `inside_aperiodic_release`. */
  lemma CancelOnlyInsideRelease(c: Scheduling, run: seq<State>, i: nat)
    requires Run(c, run) && 0 < i < |run| && c.exclusive
    requires !run[i - 1].cancelSent && run[i].cancelSent && !run[i].sleepFailed
    ensures run[i - 1].inside && run[i - 1].pc in {Releasing, Clearing}
  {
    InvHolds(c, run, i - 1);
    assert Next(c, run[i - 1], run[i]);
  }

  /** Once the task is lost to the stopper it stays lost, unless a sleep of the stopper fails. */
  lemma LostStep(c: Scheduling, s: State, t: State)
    requires Lost(s) && Next(c, s, t)
    ensures t.sleepFailed || Lost(t)
  {
    if !StopStep(s, t) {
      assert TaskStep(c, s, t);
    }
  }

  /** If task_stop is called while an aperiodic task is in its job, or at or past its loop condition, then in no run
      does it ever return or cancel the task, as long as its sleeps succeed. */
  lemma StopDuringJobNeverReturns(c: Scheduling, run: seq<State>, i: nat)
    requires Run(c, run) && i < |run| && run[i].aperiodic
    requires run[i].stopped && run[i].foundAt in {InJob, Testing, Gone} && !run[i].sleepFailed
    ensures run[i].stop != Done && !run[i].cancelSent
  {
    InvHolds(c, run, i);
  }

  /** If, after any run, it is called while the flag is set, its next two steps find the flag set and cancel the task:
      `t` is after the call, and nothing but those two steps can follow. */
  lemma StopInsideReleaseCancels(c: Scheduling, run: seq<State>, t: State, u: State, v: State)
    requires Run(c, run) && c.exclusive && run[|run| - 1].stop == NotCalled && t.stop == Polling
    requires Next(c, run[|run| - 1], t) && Next(c, t, u) && Next(c, u, v)
    requires t.foundAt in {Releasing, Clearing}
    ensures v.cancelSent && v.stop == Done && v.cancelledAt == t.foundAt
  {
    InvHolds(c, run, |run| - 1);
    CancelsAtOnce(c, run[|run| - 1], t, u, v);
  }

  lemma CancelsAtOnce(c: Scheduling, s: State, t: State, u: State, v: State)
    requires Inv(c, s) && c.exclusive && s.stop == NotCalled && t.stop == Polling
    requires Next(c, s, t) && Next(c, t, u) && Next(c, u, v)
    requires t.foundAt in {Releasing, Clearing}
    ensures v.cancelSent && v.stop == Done && v.cancelledAt == t.foundAt
  {
    assert StopStep(s, t);
    assert StopStep(t, u);
  }

  // ---------- exactly when a call of task_stop returns ----------

  /** A way in which it can go on from `t` with all sleeps of the stopper succeeding. */
  ghost predicate Continuation(c: Scheduling, t: State, path: seq<State>) {
    && path != [] && path[0] == t && !path[|path| - 1].sleepFailed
    && (forall i :: 0 < i < |path| ==> Next(c, path[i - 1], path[i]))
  }

  /** However it goes on, the task is not cancelled and task_stop does not return. */
  ghost predicate NeverReturns(c: Scheduling, s: State) {
    forall path: seq<State> :: Continuation(c, s, path) ==> !path[|path| - 1].cancelSent && path[|path| - 1].stop != Done
  }

  /** It can come to that. */
  ghost predicate CanHang(c: Scheduling, t: State) {
    exists path: seq<State> :: Continuation(c, t, path) && NeverReturns(c, path[|path| - 1])
  }

  /** However it goes on, the task is cancelled and task_stop has returned after `n` steps. */
  ghost predicate ReturnsWithin(c: Scheduling, t: State, n: nat) {
    forall path: seq<State> :: Continuation(c, t, path) && |path| > n ==>
      path[|path| - 1].cancelSent && path[|path| - 1].stop == Done
  }

  lemma Shorter(c: Scheduling, t: State, path: seq<State>)
    requires Continuation(c, t, path) && |path| > 1
    ensures Continuation(c, t, path[..|path| - 1]) && Next(c, path[|path| - 2], path[|path| - 1])
  {
    var n := |path| - 1;
    assert Next(c, path[n - 1], path[n]);
    forall i | 0 < i < n
      ensures Next(c, path[..n][i - 1], path[..n][i])
    {
      assert Next(c, path[i - 1], path[i]);
    }
  }

  lemma {:induction false} LostStays(c: Scheduling, t: State, path: seq<State>)
    requires Continuation(c, t, path) && Lost(t)
    ensures Lost(path[|path| - 1])
    decreases |path|
  {
    if |path| > 1 {
      Shorter(c, t, path);
      LostStays(c, t, path[..|path| - 1]);
      LostStep(c, path[|path| - 2], path[|path| - 1]);
    }
  }

  lemma LostNeverReturns(c: Scheduling, s: State)
    requires Lost(s)
    ensures NeverReturns(c, s)
  {
    forall path: seq<State> | Continuation(c, s, path)
      ensures !path[|path| - 1].cancelSent && path[|path| - 1].stop != Done
    {
      LostStays(c, s, path);
    }
  }

  /** A call that finds the task about to set the flag: the stopper sleeps through the whole release. */
  lemma ReleaseSleptThrough(c: Scheduling, t: State) returns (path: seq<State>)
    requires t.aperiodic && t.stopped && t.stop == Polling && t.pc == Setting
    requires !t.inside && !t.cancelSent && !t.sleepFailed
    ensures Continuation(c, t, path) && Lost(path[|path| - 1])
  {
    var t1 := t.(stop := Asleep);
    var t2 := t1.(inside := true, pc := Releasing);
    var t3 := t2.(pc := Clearing);
    var t4 := StartJob(t3.(inside := false));
    assert StopStep(t, t1) && TaskStep(c, t1, t2) && TaskStep(c, t2, t3) && TaskStep(c, t3, t4);
    path := [t, t1, t2, t3, t4];
  }

  /** A call that finds the flag set, or one that may or does miss it. */
  lemma StateAfterCall(c: Scheduling, run: seq<State>, t: State)
    requires Run(c, run) && run[|run| - 1].aperiodic && run[|run| - 1].stop == NotCalled
    requires Next(c, run[|run| - 1], t) && t.stop == Polling
    ensures t.aperiodic && t.stopped && !t.cancelSent && !t.sleepFailed && t.foundAt == t.pc
    ensures t.pc in {Setting, Releasing, Clearing, InJob, Testing, Gone}
    ensures t.inside <==> t.pc in {Releasing, Clearing}
  {
    InvHolds(c, run, |run| - 1);
    assert StopStep(run[|run| - 1], t);
  }

  /** The state one and two steps after a call that finds the flag set. */
  function SeesFlag(t: State): State {
    t.(stop := Cancelling)
  }

  function Cancels(t: State): State {
    t.(stop := Done, cancelSent := true, cancelledAt := t.pc)
  }

  lemma TwoSteps(c: Scheduling, t: State)
    requires c.exclusive && t.stop == Polling && t.inside
    ensures forall u :: Next(c, t, u) <==> u == SeesFlag(t)
    ensures forall v :: Next(c, SeesFlag(t), v) <==> v == Cancels(t)
  {
  }

  lemma {:induction false} CancelledWithinTwo(c: Scheduling, t: State, path: seq<State>)
    requires c.exclusive && t.stop == Polling && t.inside && Continuation(c, t, path) && |path| > 2
    ensures path[|path| - 1].cancelSent && path[|path| - 1].stop == Done
    decreases |path|
  {
    if |path| == 3 {
      TwoSteps(c, t);
      assert Next(c, path[0], path[1]) && Next(c, path[1], path[2]);
    } else {
      Shorter(c, t, path);
      CancelledWithinTwo(c, t, path[..|path| - 1]);
      DoneStays(c, path[|path| - 2], path[|path| - 1]);
    }
  }

  lemma DoneStays(c: Scheduling, s: State, t: State)
    requires Next(c, s, t) && s.cancelSent && s.stop == Done
    ensures t.cancelSent && t.stop == Done
  {
    assert TaskStep(c, s, t);
  }

  lemma FlagSetCannotHang(c: Scheduling, t: State)
    requires c.exclusive && t.stop == Polling && t.inside && !t.sleepFailed
    ensures !CanHang(c, t)
  {
    TwoSteps(c, t);
    forall path: seq<State> | Continuation(c, t, path)
      ensures !NeverReturns(c, path[|path| - 1])
    {
      var last := path[|path| - 1];
      if |path| > 2 {
        CancelledWithinTwo(c, t, path);
        assert Continuation(c, last, [last]);
      } else if |path| == 2 {
        assert Next(c, path[0], path[1]);
        assert Continuation(c, last, [last, Cancels(t)]);
      } else {
        assert Continuation(c, last, [last, SeesFlag(t), Cancels(t)]);
      }
    }
  }

  /** A task that is lost is not cancelled after two steps. */
  lemma LostIsSlow(c: Scheduling, s: State, path: seq<State>, t: State)
    requires Lost(s) && Continuation(c, t, path) && path[|path| - 1] == s
    ensures !ReturnsWithin(c, t, 2)
  {
    var u := s.(stop := if s.stop == Polling then Asleep else Polling);
    var v := u.(stop := if u.stop == Polling then Asleep else Polling);
    assert StopStep(s, u) && StopStep(u, v);
    var longer := path + [u, v];
    assert Continuation(c, t, longer);
  }

  /** In an aperiodic task that cannot preempt the stopper, and with sleeps that succeed: a call of task_stop cancels the
      task within two steps if it finds the flag set, that is, between the setting and the clearing of it; and otherwise,
      and only then, it can come to wait forever. */
  lemma CallReturnsExactlyInsideRelease(c: Scheduling, run: seq<State>, t: State)
    requires Run(c, run) && c.exclusive && run[|run| - 1].aperiodic && run[|run| - 1].stop == NotCalled
    requires Next(c, run[|run| - 1], t) && t.stop == Polling
    ensures ReturnsWithin(c, t, 2) <==> t.foundAt in {Releasing, Clearing}
    ensures CanHang(c, t) <==> t.foundAt !in {Releasing, Clearing}
  {
    StateAfterCall(c, run, t);
    if t.inside {
      FlagSetCannotHang(c, t);
      forall path: seq<State> | Continuation(c, t, path) && |path| > 2
        ensures path[|path| - 1].cancelSent && path[|path| - 1].stop == Done
      {
        CancelledWithinTwo(c, t, path);
      }
    } else {
      var path := [t];
      if t.pc == Setting {
        path := ReleaseSleptThrough(c, t);
      }
      var last := path[|path| - 1];
      LostNeverReturns(c, last);
      LostIsSlow(c, last, path, t);
    }
  }

  /** A run in which the call comes before the release and the task is never cancelled: it has left its loop, and the
      stopper sleeps. */
  lemma MissedBeforeRelease() returns (run: seq<State>)
    ensures Run(Scheduling(true, true), run)
    ensures var last := run[|run| - 1];
            && last.foundAt == Setting && last.pc == Gone && last.stop == Asleep
            && Lost(last) && NeverReturns(Scheduling(true, true), last)
  {
    var c := Scheduling(true, true);
    var s0 := State(true, Setting, NotCalled, false, false, false, Gone, Gone, 0, false);
    var s1 := s0.(stopped := true, foundAt := Setting, stop := Polling);
    var s2 := s1.(stop := Asleep);
    var s3 := s2.(inside := true, pc := Releasing);
    var s4 := s3.(pc := Clearing);
    var s5 := s4.(inside := false, pc := InJob, jobsAfterStop := 1);
    var s6 := s5.(pc := Testing);
    var s7 := s6.(pc := Gone);
    run := [s0, s1, s2, s3, s4, s5, s6, s7];
    LostNeverReturns(c, s7);
  }

  // ---------- cancellation and the program of the task ----------

  /** The task was killed in the middle of its program. */
  predicate KilledInJob(s: State) {
    s.pc == Killed && !s.inside
  }

  /** It can come to that, with all sleeps of the stopper succeeding. */
  ghost predicate CanKillJob(c: Scheduling, t: State) {
    exists path: seq<State> :: Continuation(c, t, path) && KilledInJob(path[|path| - 1])
  }

  /** The task leaves its release only by being killed there. */
  ghost predicate EndsInRelease(s: State) {
    && s.inside
    && (if s.cancelSent then s.stop == Done && s.pc in {Releasing, Killed}
        else s.stop in {Polling, Cancelling} && s.pc == Releasing)
  }

  /** The program of the task is not going to be killed: the task ends in its release, or is past its job, or is in a job
      that nobody is going to cancel. */
  ghost predicate Safe(c: Scheduling, s: State) {
    || (c.exclusive && c.releaseIsPoint && EndsInRelease(s))
    || (s.inside && s.pc == Killed && s.stop == Done)
    || (!s.inside && s.stopped && s.pc in {Testing, Gone})
    || Lost(s)
  }

  lemma SafeStep(c: Scheduling, s: State, t: State)
    requires Safe(c, s) && Next(c, s, t) && !t.sleepFailed
    ensures Safe(c, t)
  {
    if !StopStep(s, t) {
      assert TaskStep(c, s, t);
    }
  }

  lemma {:induction false} SafeStays(c: Scheduling, t: State, path: seq<State>)
    requires Continuation(c, t, path) && Safe(c, t)
    ensures Safe(c, path[|path| - 1])
    decreases |path|
  {
    if |path| > 1 {
      Shorter(c, t, path);
      SafeStays(c, t, path[..|path| - 1]);
      SafeStep(c, path[|path| - 2], path[|path| - 1]);
    }
  }

  lemma SafeCannotBeKilled(c: Scheduling, t: State)
    requires Safe(c, t)
    ensures !CanKillJob(c, t)
  {
    forall path: seq<State> | Continuation(c, t, path)
      ensures !KilledInJob(path[|path| - 1])
    {
      SafeStays(c, t, path);
    }
  }

  /** From a pending cancellation to a killed job. */
  lemma PendingKills(c: Scheduling, s: State) returns (path: seq<State>)
    requires s.cancelSent && s.stop == Done && !s.sleepFailed
    requires s.pc in {Clearing, InJob} || (s.pc == Releasing && !c.releaseIsPoint)
    requires s.inside <==> s.pc in {Releasing, Clearing}
    ensures Continuation(c, s, path) && KilledInJob(path[|path| - 1])
  {
    if s.pc == InJob {
      var t := s.(pc := Killed);
      assert TaskStep(c, s, t);
      path := [s, t];
    } else if s.pc == Clearing {
      var t := StartJob(s.(inside := false));
      var u := t.(pc := Killed);
      assert TaskStep(c, s, t) && TaskStep(c, t, u);
      path := [s, t, u];
    } else {
      var t := s.(pc := Clearing);
      var u := StartJob(t.(inside := false));
      var v := u.(pc := Killed);
      assert TaskStep(c, s, t) && TaskStep(c, t, u) && TaskStep(c, u, v);
      path := [s, t, u, v];
    }
  }

  lemma Joined(c: Scheduling, s: State, t: State, front: seq<State>, rest: seq<State>)
    requires Continuation(c, s, front) && front[|front| - 1] == t && Continuation(c, t, rest)
    ensures Continuation(c, s, front + rest[1..])
    ensures (front + rest[1..])[|front + rest[1..]| - 1] == rest[|rest| - 1]
  {
    var path := front + rest[1..];
    forall i | 0 < i < |path|
      ensures Next(c, path[i - 1], path[i])
    {
      if i >= |front| {
        assert path[i] == rest[i - |front| + 1] && path[i - 1] == rest[i - |front|];
      }
    }
  }

  /** The call is followed by the cancellation at once if it finds the flag set. If it finds the task about to set it,
      the stopper can sleep until the release has returned, and cancel then. */
  lemma CancelledLater(c: Scheduling, t: State) returns (front: seq<State>)
    requires t.aperiodic && t.stopped && t.stop == Polling && !t.cancelSent && !t.sleepFailed
    requires t.pc in {Setting, Releasing, Clearing} && (t.inside <==> t.pc in {Releasing, Clearing})
    ensures Continuation(c, t, front)
    ensures var s := front[|front| - 1];
            && s.cancelSent && s.stop == Done && s.inside && s.pc == (if t.pc == Setting then Clearing else t.pc)
  {
    if t.inside {
      assert StopStep(t, SeesFlag(t)) && StopStep(SeesFlag(t), Cancels(t));
      front := [t, SeesFlag(t), Cancels(t)];
    } else {
      var t1 := t.(stop := Asleep);
      var t2 := t1.(inside := true, pc := Releasing);
      var t3 := t2.(pc := Clearing);
      var t4 := t3.(stop := Polling);
      assert StopStep(t, t1) && TaskStep(c, t1, t2) && TaskStep(c, t2, t3) && StopStep(t3, t4);
      assert StopStep(t4, SeesFlag(t4)) && StopStep(SeesFlag(t4), Cancels(t4));
      front := [t, t1, t2, t3, t4, SeesFlag(t4), Cancels(t4)];
    }
  }

  /** In an aperiodic task that cannot preempt the stopper, and with sleeps that succeed: a call of task_stop can get the
      task killed in the middle of its program, which is promised not to happen, if and only if it finds the task about to
      enter the release, or between the return of the release and the clearing of the flag, or inside a release that does
      not act on a pending cancellation before it returns. */
  lemma CallKillsJobExactly(c: Scheduling, run: seq<State>, t: State)
    requires Run(c, run) && c.exclusive && run[|run| - 1].aperiodic && run[|run| - 1].stop == NotCalled
    requires Next(c, run[|run| - 1], t) && t.stop == Polling
    ensures CanKillJob(c, t)
            <==> t.foundAt in {Setting, Clearing} || (t.foundAt == Releasing && !c.releaseIsPoint)
  {
    StateAfterCall(c, run, t);
    if t.pc in {Setting, Clearing} || (t.pc == Releasing && !c.releaseIsPoint) {
      var front := CancelledLater(c, t);
      var s := front[|front| - 1];
      var rest := PendingKills(c, s);
      Joined(c, t, s, front, rest);
    } else {
      SafeCannotBeKilled(c, t);
    }
  }

  /** Once the cancellation has been issued, the task is or can be killed in its program if and only if it has been, or it
      is there, or has returned from the release and not cleared the flag, or is in a release that does not act on the
      cancellation. */
  lemma JobUnderCancellation(c: Scheduling, run: seq<State>, i: nat)
    requires Run(c, run) && i < |run| && c.exclusive
    requires run[i].cancelSent && !run[i].sleepFailed
    ensures CanKillJob(c, run[i])
            <==> || KilledInJob(run[i]) || run[i].pc in {Clearing, InJob}
                 || (run[i].pc == Releasing && !c.releaseIsPoint)
    ensures run[i].pc == InJob ==> run[i].cancelledAt in {Releasing, Clearing}
    ensures run[i].pc == InJob && c.releaseIsPoint ==> run[i].cancelledAt == Clearing
    ensures run[i].pc == Clearing ==> forall t :: Next(c, run[i], t) ==> t.pc == InJob && t.cancelSent
  {
    var s := run[i];
    InvHolds(c, run, i);
    if KilledInJob(s) {
      assert Continuation(c, s, [s]);
    } else if s.pc in {Clearing, InJob} || (s.pc == Releasing && !c.releaseIsPoint) {
      var path := PendingKills(c, s);
    } else {
      SafeCannotBeKilled(c, s);
    }
  }

  /** If it does not act on it, the job also runs under a cancellation that was issued inside the release. */
  lemma KilledAfterRelease() returns (run: seq<State>)
    ensures Run(Scheduling(true, false), run)
    ensures var last := run[|run| - 1];
            && last.pc == Killed && !last.inside && last.jobsAfterStop == 1 && !last.sleepFailed
            && last.cancelledAt == Releasing
  {
    var s0 := State(true, Setting, NotCalled, false, false, false, Gone, Gone, 0, false);
    var s1 := s0.(inside := true, pc := Releasing);
    var s2 := s1.(stopped := true, foundAt := Releasing, stop := Polling);
    var s3 := s2.(stop := Cancelling);
    var s4 := s3.(cancelSent := true, cancelledAt := Releasing, stop := Done);
    var s5 := s4.(pc := Clearing);
    var s6 := s5.(inside := false, pc := InJob, jobsAfterStop := 1);
    var s7 := s6.(pc := Killed);
    run := [s0, s1, s2, s3, s4, s5, s6, s7];
  }

  /** And if it does: the documented promise that the program of the task is not killed has this exception. */
  lemma KilledInsideJob() returns (run: seq<State>)
    ensures Run(Scheduling(true, true), run)
    ensures var last := run[|run| - 1];
            last.pc == Killed && !last.inside && last.jobsAfterStop == 1 && !last.sleepFailed
  {
    var s0 := State(true, Setting, NotCalled, false, false, false, Gone, Gone, 0, false);
    var s1 := s0.(inside := true, pc := Releasing);
    var s2 := s1.(pc := Clearing);
    var s3 := s2.(stopped := true, foundAt := Clearing, stop := Polling);
    var s4 := s3.(stop := Cancelling);
    var s5 := s4.(cancelSent := true, cancelledAt := Clearing, stop := Done);
    var s6 := s5.(inside := false, pc := InJob, jobsAfterStop := 1);
    var s7 := s6.(pc := Killed);
    run := [s0, s1, s2, s3, s4, s5, s6, s7];
  }

  /** Without the requirement on preemption the cancellation can be issued in the middle of a job. */
  lemma PreemptibleStopperCancelsJob() returns (run: seq<State>)
    ensures Run(Scheduling(false, true), run)
    ensures var last := run[|run| - 1]; last.cancelledAt == InJob && !last.sleepFailed
  {
    var s0 := State(true, Setting, NotCalled, false, false, false, Gone, Gone, 0, false);
    var s1 := s0.(inside := true, pc := Releasing);
    var s2 := s1.(stopped := true, foundAt := Releasing, stop := Polling);
    var s3 := s2.(stop := Cancelling);
    var s4 := s3.(pc := Clearing);
    var s5 := s4.(inside := false, pc := InJob, jobsAfterStop := 1);
    var s6 := s5.(cancelSent := true, cancelledAt := InJob, stop := Done);
    run := [s0, s1, s2, s3, s4, s5, s6];
  }
}
