/** The maximum scheduling delay of each program in a sched_switch trace (sched_switch.c): how long a program that was
    woken up waited until it was switched in.

    Events are taken as parsed, with process IDs already replaced by program indices.
 */
module SchedDelay {
  datatype Kind = Switch | Wakeup | Other

  datatype Event = Event(kind: Kind, time: real, from: nat, to: nat, toCpu: nat)

  /** The two values of `running` that are not CPU numbers: (unsigned) -1 and (unsigned) -2. */
  const STOPPED: nat := 0xFFFF_FFFF
  const WAITING: nat := 0xFFFF_FFFE

  datatype Program = Program(running: nat, lastTime: real, maxTime: real, maxPos: real)

  const RESET := Program(0, 0.0, 0.0, 0.0)

  /** The programs of an event exist and its CPU is not one of the two special values. */
  predicate EventOk(e: Event, programs: nat) {
    e.from < programs && e.to < programs && e.toCpu < WAITING
  }

  // ---------- what the maximum is ----------

  predicate Touches(e: Event, p: nat) {
    match e.kind
    case Switch => e.from == p || e.to == p
    case Wakeup => e.to == p
    case Other => false
  }

  /** The last of the first `n` events that touches `p`, or -1. */
  function LastTouch(events: seq<Event>, n: nat, p: nat): (j: int)
    requires n <= |events|
    ensures -1 <= j < n
    ensures j >= 0 ==> Touches(events[j], p)
    ensures forall i :: j < i < n ==> !Touches(events[i], p)
  {
    if n == 0 then -1 else if Touches(events[n - 1], p) then n - 1 else LastTouch(events, n - 1, p)
  }

  /** Event `i` switches `p` in, and the event before it that touched `p` was a wakeup of `p`. */
  predicate EndsWait(events: seq<Event>, i: nat, p: nat)
    requires i < |events|
  {
    var j := LastTouch(events, i, p);
    events[i].kind == Switch && events[i].to == p && j >= 0 && events[j].kind == Wakeup
  }

  function Delay(events: seq<Event>, i: nat, p: nat): real
    requires i < |events| && EndsWait(events, i, p)
  {
    events[i].time - events[LastTouch(events, i, p)].time
  }

  /** `maxTime` is the greatest delay among the first `n` events, or zero if none is positive, and `maxPos` is the time
      of the first switch that reached it. */
  ghost predicate IsMaxDelay(events: seq<Event>, n: nat, p: nat, maxTime: real, maxPos: real)
    requires n <= |events|
  {
    && (forall i :: 0 <= i < n && EndsWait(events, i, p) ==> Delay(events, i, p) <= maxTime)
    && (if maxTime == 0.0 then maxPos == 0.0
        else maxTime > 0.0 && exists i :: 0 <= i < n && FirstReaching(events, i, p, maxTime, maxPos))
  }

  ghost predicate FirstReaching(events: seq<Event>, i: nat, p: nat, maxTime: real, maxPos: real)
    requires i < |events|
  {
    && EndsWait(events, i, p) && Delay(events, i, p) == maxTime && events[i].time == maxPos
    && (forall k :: 0 <= k < i && EndsWait(events, k, p) ==> Delay(events, k, p) < maxTime)
  }

  // ---------- the state machine ----------

  /** What one event does to program `p`, statement by statement. */
  function Step(s: Program, e: Event, p: nat): Program {
    match e.kind
    case Switch =>
      var timed := if e.to == p && s.running == WAITING && e.time - s.lastTime > s.maxTime
                   then s.(maxTime := e.time - s.lastTime, maxPos := e.time) else s;
      var stopped := if e.from == p then timed.(running := STOPPED) else timed;
      if e.to == p then stopped.(running := e.toCpu) else stopped
    case Wakeup => if e.to == p then s.(running := WAITING, lastTime := e.time) else s
    case Other => s
  }

  function After(events: seq<Event>, n: nat, p: nat): Program
    requires n <= |events|
  {
    if n == 0 then RESET else Step(After(events, n - 1, p), events[n - 1], p)
  }

  /** The program is marked as waiting exactly when the last event that touched it was its wakeup. */
  lemma {:induction false} WaitingMeansWokenUp(events: seq<Event>, n: nat, p: nat)
    requires n <= |events| && forall i :: 0 <= i < n ==> events[i].toCpu < WAITING
    ensures var s, j := After(events, n, p), LastTouch(events, n, p);
            && (s.running == WAITING <==> j >= 0 && events[j].kind == Wakeup)
            && (s.running == WAITING ==> s.lastTime == events[j].time)
  {
    if n > 0 {
      WaitingMeansWokenUp(events, n - 1, p);
    }
  }

  /** An event that ends a wait longer than the maximum so far sets it; no other event changes it. */
  lemma MaximumStep(events: seq<Event>, n: nat, p: nat)
    requires 0 < n <= |events| && forall i :: 0 <= i < n ==> events[i].toCpu < WAITING
    ensures var s, t := After(events, n - 1, p), After(events, n, p);
            if EndsWait(events, n - 1, p) && Delay(events, n - 1, p) > s.maxTime then
              t.maxTime == Delay(events, n - 1, p) && t.maxPos == events[n - 1].time
            else t.maxTime == s.maxTime && t.maxPos == s.maxPos
  {
    WaitingMeansWokenUp(events, n - 1, p);
  }

  lemma {:induction false} AfterIsMaxDelay(events: seq<Event>, n: nat, p: nat)
    requires n <= |events| && forall i :: 0 <= i < n ==> events[i].toCpu < WAITING
    ensures IsMaxDelay(events, n, p, After(events, n, p).maxTime, After(events, n, p).maxPos)
  {
    if n > 0 {
      AfterIsMaxDelay(events, n - 1, p);
      MaximumStep(events, n, p);
      var s, t := After(events, n - 1, p), After(events, n, p);
      KeepsMaximum(events, n, p, s.maxTime, s.maxPos, t.maxTime, t.maxPos);
    }
  }

  lemma KeepsMaximum(events: seq<Event>, n: nat, p: nat, maxTime: real, maxPos: real, newTime: real, newPos: real)
    requires 0 < n <= |events| && IsMaxDelay(events, n - 1, p, maxTime, maxPos)
    requires if EndsWait(events, n - 1, p) && Delay(events, n - 1, p) > maxTime
             then newTime == Delay(events, n - 1, p) && newPos == events[n - 1].time
             else newTime == maxTime && newPos == maxPos
    ensures IsMaxDelay(events, n, p, newTime, newPos)
  {
    if newTime != maxTime {
      assert FirstReaching(events, n - 1, p, newTime, newPos);
    } else if maxTime != 0.0 {
      var k :| 0 <= k < n - 1 && FirstReaching(events, k, p, maxTime, maxPos);
      assert FirstReaching(events, k, p, newTime, newPos);
    }
  }

  // ---------- the scan ----------

  /** The delay loops of main: reset every program, then go through the events after the last comment. */
  method Scan(events: seq<Event>, lastComment: nat, programs: array<Program>)
    requires lastComment <= |events|
    requires forall i :: 0 <= i < |events| ==> EventOk(events[i], programs.Length)
    modifies programs
    ensures forall p :: 0 <= p < programs.Length ==>
              IsMaxDelay(events[lastComment..], |events| - lastComment, p, programs[p].maxTime, programs[p].maxPos)
  {
    var j := 0;
    while j < programs.Length
      invariant 0 <= j <= programs.Length
      invariant forall p :: 0 <= p < j ==> programs[p] == RESET
    {
      programs[j] := RESET;
      j := j + 1;
    }
    ghost var tail := events[lastComment..];
    var i := lastComment;
    while i < |events|
      invariant lastComment <= i <= |events|
      invariant forall p :: 0 <= p < programs.Length ==> programs[p] == After(tail, i - lastComment, p)
    {
      var e := events[i];
      assert e == tail[i - lastComment];
      if e.kind == Switch {
        if programs[e.to].running == WAITING {
          if e.time - programs[e.to].lastTime > programs[e.to].maxTime {
            programs[e.to] := programs[e.to].(maxTime := e.time - programs[e.to].lastTime, maxPos := e.time);
          }
        }
        programs[e.from] := programs[e.from].(running := STOPPED);
        programs[e.to] := programs[e.to].(running := e.toCpu);
      } else if e.kind == Wakeup {
        programs[e.to] := programs[e.to].(running := WAITING);
        programs[e.to] := programs[e.to].(lastTime := e.time);
      }
      i := i + 1;
    }
    forall p | 0 <= p < programs.Length
      ensures IsMaxDelay(tail, |tail|, p, programs[p].maxTime, programs[p].maxPos)
    {
      AfterIsMaxDelay(tail, |tail|, p);
    }
  }
}
