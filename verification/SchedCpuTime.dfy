/** The time that sched_switch.c charges to programs: at each switch on a CPU, the time since the last switch there.

    The tables of the CPUs grow as higher CPU numbers turn up, and every growth starts anew at the CPU that was the
    highest so far. So the switches of a CPU fall into segments, and what is charged is the span of each segment.
 */
module SchedCpuTime {
  import opened Common

  /** A parsed line: the program that is switched out on `fromCpu`, and whether the event is a switch. */
  datatype Line = Line(isSwitch: bool, time: real, program: nat, fromCpu: nat, toCpu: nat)

  /** The highest CPU number in the first `n` lines. */
  function MaxCpu(lines: seq<Line>, n: nat): nat
    requires n <= |lines|
  {
    if n == 0 then 0 else Max(Max(MaxCpu(lines, n - 1), lines[n - 1].fromCpu), lines[n - 1].toCpu)
  }

  /** Line `k` makes the tables be set up or grow. */
  predicate Grows(lines: seq<Line>, k: nat)
    requires k < |lines|
  {
    k == 0 || MaxCpu(lines, k + 1) != MaxCpu(lines, k)
  }

  /** Line `k` starts `cpu` anew: it is new, or it was the highest so far. */
  predicate Resets(lines: seq<Line>, k: nat, cpu: nat)
    requires k < |lines|
  {
    Grows(lines, k) && MaxCpu(lines, k) <= cpu <= MaxCpu(lines, k + 1)
  }

  predicate SwitchOn(line: Line, cpu: nat) {
    line.isSwitch && line.fromCpu == cpu
  }

  /** From the second switch on to the last one; the first is not trusted. */
  function Span(times: seq<real>): real {
    if |times| < 2 then 0.0 else times[|times| - 1] - times[1]
  }

  /** The times of all switches on `cpu` in the first `n` lines. */
  function SwitchTimes(lines: seq<Line>, n: nat, cpu: nat): seq<real>
    requires n <= |lines|
  {
    if n == 0 then []
    else SwitchTimes(lines, n - 1, cpu) + (if SwitchOn(lines[n - 1], cpu) then [lines[n - 1].time] else [])
  }

  /** Those since `cpu` was last started anew. */
  function Segment(lines: seq<Line>, n: nat, cpu: nat): seq<real>
    requires n <= |lines|
  {
    if n == 0 then []
    else
      (if Resets(lines, n - 1, cpu) then [] else Segment(lines, n - 1, cpu))
      + (if SwitchOn(lines[n - 1], cpu) then [lines[n - 1].time] else [])
  }

  /** The spans of the segments of `cpu` before the current one. */
  function EarlierSpans(lines: seq<Line>, n: nat, cpu: nat): real
    requires n <= |lines|
  {
    if n == 0 then 0.0
    else EarlierSpans(lines, n - 1, cpu)
         + (if Resets(lines, n - 1, cpu) then Span(Segment(lines, n - 1, cpu)) else 0.0)
  }

  /** What is charged for `cpu`. */
  function CpuTime(lines: seq<Line>, n: nat, cpu: nat): real
    requires n <= |lines|
  {
    EarlierSpans(lines, n, cpu) + Span(Segment(lines, n, cpu))
  }

  function CpuTimes(lines: seq<Line>, n: nat, cpus: nat): (times: seq<real>)
    requires n <= |lines|
    ensures |times| == cpus
  {
    seq(cpus, cpu requires 0 <= cpu < cpus => CpuTime(lines, n, cpu))
  }

  function SumCpus(lines: seq<Line>, n: nat, cpus: nat): real
    requires n <= |lines|
  {
    Sum(CpuTimes(lines, n, cpus))
  }

  function Sum(times: seq<real>): real {
    if times == [] then 0.0 else Sum(times[..|times| - 1]) + times[|times| - 1]
  }

  // ---------- one line ----------

  lemma SpanAppend(times: seq<real>, t: real)
    ensures Span(times + [t]) == Span(times) + (if |times| >= 2 then t - times[|times| - 1] else 0.0)
  {
  }

  /** The segment of `cpu` that line `n` falls into, before that line. */
  function Current(lines: seq<Line>, n: nat, cpu: nat): seq<real>
    requires n < |lines|
  {
    if Resets(lines, n, cpu) then [] else Segment(lines, n, cpu)
  }

  lemma SegmentStep(lines: seq<Line>, n: nat, cpu: nat)
    requires n < |lines|
    ensures Segment(lines, n + 1, cpu)
            == if SwitchOn(lines[n], cpu) then Current(lines, n, cpu) + [lines[n].time] else Current(lines, n, cpu)
  {
    assert Current(lines, n, cpu) + [] == Current(lines, n, cpu);
  }

  /** What line `n` adds for `cpu`. */
  function Charge(lines: seq<Line>, n: nat, cpu: nat): real
    requires n < |lines|
  {
    var times := Current(lines, n, cpu);
    if SwitchOn(lines[n], cpu) && |times| >= 2 then lines[n].time - times[|times| - 1] else 0.0
  }

  /** Starting anew closes a segment. */
  lemma EarlierStep(lines: seq<Line>, n: nat, cpu: nat)
    requires n < |lines|
    ensures EarlierSpans(lines, n + 1, cpu) + Span(Current(lines, n, cpu)) == CpuTime(lines, n, cpu)
  {
  }

  /** A line is charged to its own CPU only. */
  lemma CpuTimeStep(lines: seq<Line>, n: nat, cpu: nat)
    requires n < |lines|
    ensures CpuTime(lines, n + 1, cpu)
            == CpuTime(lines, n, cpu) + (if lines[n].fromCpu == cpu then Charge(lines, n, cpu) else 0.0)
  {
    EarlierStep(lines, n, cpu);
    SegmentStep(lines, n, cpu);
    SpanAppend(Current(lines, n, cpu), lines[n].time);
  }

  lemma {:induction false} UnseenCpu(lines: seq<Line>, n: nat, cpu: nat)
    requires n <= |lines| && (n == 0 || cpu > MaxCpu(lines, n))
    ensures Segment(lines, n, cpu) == [] && EarlierSpans(lines, n, cpu) == 0.0
  {
    if n > 0 {
      UnseenCpu(lines, n - 1, cpu);
    }
  }

  lemma SumCpusStep(lines: seq<Line>, n: nat, cpus: nat)
    requires n < |lines| && lines[n].fromCpu < cpus
    ensures SumCpus(lines, n + 1, cpus) == SumCpus(lines, n, cpus) + Charge(lines, n, lines[n].fromCpu)
  {
    var before, after, cpu := CpuTimes(lines, n, cpus), CpuTimes(lines, n + 1, cpus), lines[n].fromCpu;
    var charge := Charge(lines, n, cpu);
    forall c | 0 <= c < cpus
      ensures after[c] == before[c := before[c] + charge][c] || c != cpu
      ensures c != cpu ==> after[c] == before[c]
    {
      CpuTimeStep(lines, n, c);
    }
    assert after == before[cpu := before[cpu] + charge];
    SumUpdate(before, cpu, charge);
  }

  lemma NothingYet(lines: seq<Line>, cpus: nat)
    ensures SumCpus(lines, 0, cpus) == 0.0
  {
    SumOfZeros(CpuTimes(lines, 0, cpus));
  }

  lemma {:induction false} SumOfZeros(times: seq<real>)
    requires forall i :: 0 <= i < |times| ==> times[i] == 0.0
    ensures Sum(times) == 0.0
  {
    if times != [] {
      SumOfZeros(times[..|times| - 1]);
    }
  }

  /** A sum of parts that are no greater is no greater, and equal exactly if the parts are. */
  lemma {:induction false} SumCompare(a: seq<real>, b: seq<real>)
    requires |a| == |b| && forall i :: 0 <= i < |a| ==> a[i] <= b[i]
    ensures Sum(a) <= Sum(b)
    ensures Sum(a) == Sum(b) <==> a == b
  {
    if a != [] {
      var n := |a| - 1;
      SumCompare(a[..n], b[..n]);
      assert a == a[..n] + [a[n]] && b == b[..n] + [b[n]];
    }
  }

  /** All that is charged by the first `n` lines. */
  function Charges(lines: seq<Line>, n: nat): real
    requires n <= |lines|
  {
    if n == 0 then 0.0 else Charges(lines, n - 1) + Charge(lines, n - 1, lines[n - 1].fromCpu)
  }

  ghost predicate CpusBelow(lines: seq<Line>, n: nat, cpus: nat)
    requires n <= |lines|
  {
    forall k :: 0 <= k < n ==> lines[k].fromCpu < cpus
  }

  /** That is what is charged for all CPUs, if there are enough of them. */
  lemma {:induction false} ChargesAreCpuTimes(lines: seq<Line>, n: nat, cpus: nat)
    requires n <= |lines| && CpusBelow(lines, n, cpus)
    ensures Charges(lines, n) == SumCpus(lines, n, cpus)
  {
    if n == 0 {
      NothingYet(lines, cpus);
    } else {
      ChargesAreCpuTimes(lines, n - 1, cpus);
      SumCpusStep(lines, n - 1, cpus);
    }
  }

  lemma {:induction false} CpusSeen(lines: seq<Line>, n: nat)
    requires n <= |lines|
    ensures CpusBelow(lines, n, MaxCpu(lines, n) + 1)
  {
    if n > 0 {
      CpusSeen(lines, n - 1);
    }
  }

  lemma {:induction false} SumUpdate(times: seq<real>, i: nat, x: real)
    requires i < |times|
    ensures Sum(times[i := times[i] + x]) == Sum(times) + x
  {
    var n := |times| - 1;
    if i < n {
      assert times[i := times[i] + x][..n] == times[..n][i := times[i] + x];
      SumUpdate(times[..n], i, x);
    } else {
      assert times[i := times[i] + x][..n] == times[..n];
    }
  }

  /** What the first `n` lines charge to `program`: the charges of those lines that switch out that program. */
  function ChargedTo(lines: seq<Line>, n: nat, program: nat): real
    requires n <= |lines|
  {
    if n == 0 then 0.0
    else ChargedTo(lines, n - 1, program)
         + (if lines[n - 1].program == program then Charge(lines, n - 1, lines[n - 1].fromCpu) else 0.0)
  }

  function ProgramTimes(lines: seq<Line>, n: nat, programs: nat): (times: seq<real>)
    requires n <= |lines|
    ensures |times| == programs
  {
    seq(programs, q requires 0 <= q < programs => ChargedTo(lines, n, q))
  }

  lemma ProgramTimesStep(lines: seq<Line>, n: nat, programs: nat)
    requires n < |lines| && lines[n].program < programs
    ensures var times, p := ProgramTimes(lines, n, programs), lines[n].program;
            ProgramTimes(lines, n + 1, programs) == times[p := times[p] + Charge(lines, n, lines[n].fromCpu)]
  {
  }

  ghost predicate ProgramsBelow(lines: seq<Line>, n: nat, programs: nat)
    requires n <= |lines|
  {
    forall k :: 0 <= k < n ==> lines[k].program < programs
  }

  function SumPrograms(lines: seq<Line>, n: nat, programs: nat): real
    requires n <= |lines|
  {
    Sum(ProgramTimes(lines, n, programs))
  }

  lemma ProgramTimesSumStep(lines: seq<Line>, n: nat, programs: nat)
    requires n < |lines| && lines[n].program < programs
    ensures SumPrograms(lines, n + 1, programs)
            == SumPrograms(lines, n, programs) + Charge(lines, n, lines[n].fromCpu)
  {
    ProgramTimesStep(lines, n, programs);
    SumUpdate(ProgramTimes(lines, n, programs), lines[n].program, Charge(lines, n, lines[n].fromCpu));
  }

  lemma NoProgramTimesYet(lines: seq<Line>, programs: nat)
    ensures SumPrograms(lines, 0, programs) == 0.0
  {
    SumOfZeros(ProgramTimes(lines, 0, programs));
  }

  /** No charge is left out, and none counts twice: the times of all programs add up to all that is charged. */
  lemma {:induction false} ProgramTimesAddUp(lines: seq<Line>, n: nat, programs: nat)
    requires n <= |lines| && ProgramsBelow(lines, n, programs)
    ensures SumPrograms(lines, n, programs) == Charges(lines, n)
  {
    if n == 0 {
      NoProgramTimesYet(lines, programs);
    } else {
      ProgramTimesAddUp(lines, n - 1, programs);
      ProgramTimesSumStep(lines, n - 1, programs);
    }
  }

  // ---------- the tables ----------

  /** The table entries of a CPU whose current segment is `times`. */
  predicate Entry(first: nat, lastTime: real, times: seq<real>) {
    && first == (if |times| < 2 then 2 - |times| else 0)
    && (times != [] ==> lastTime == times[|times| - 1])
  }

  /** The tables of the CPUs: how many switches are still not trusted, and the time of the last one. */
  class CpuTables {
    var first: array<nat>
    var lastTime: array<real>

    constructor ()
      ensures first.Length == 0 && lastTime.Length == 0 && fresh(first) && fresh(lastTime)
    {
      first, lastTime := new nat[0](_ => 0), new real[0](_ => 0.0);
    }

    /** The tables after the first `n` lines. */
    ghost predicate Holds(lines: seq<Line>, n: nat)
      requires n <= |lines|
      reads this, first, lastTime
    {
      && first.Length == lastTime.Length == (if n == 0 then 0 else MaxCpu(lines, n) + 1)
      && forall cpu :: 0 <= cpu < first.Length ==> Entry(first[cpu], lastTime[cpu], Segment(lines, n, cpu))
    }

    /** The tables once they have room for line `n`. */
    ghost predicate Ready(lines: seq<Line>, n: nat)
      requires n < |lines|
      reads this, first, lastTime
    {
      && first.Length == lastTime.Length == MaxCpu(lines, n + 1) + 1
      && forall cpu :: 0 <= cpu < first.Length ==> Entry(first[cpu], lastTime[cpu], Current(lines, n, cpu))
    }

    /** Both tables are reallocated, and the entries from the highest CPU so far on are set up. */
    method Grow(lastMaxCpu: nat, maxCpu: nat, ghost lines: seq<Line>, ghost n: nat)
      requires n < |lines| && Holds(lines, n) && Grows(lines, n)
      requires lastMaxCpu == MaxCpu(lines, n) && maxCpu == MaxCpu(lines, n + 1)
      modifies this
      ensures Ready(lines, n) && fresh(first) && fresh(lastTime)
    {
      ghost var was, wasLast := first, lastTime;
      var grown := Realloc(first, maxCpu + 1, 0);
      var grownLast := Realloc(lastTime, maxCpu + 1, 0.0);
      var i := lastMaxCpu;
      while i <= maxCpu
        invariant lastMaxCpu <= i <= maxCpu + 1
        invariant forall c :: 0 <= c < lastMaxCpu && c < was.Length == wasLast.Length ==>
                    grown[c] == was[c] && grownLast[c] == wasLast[c]
        invariant forall c :: lastMaxCpu <= c < i ==> grown[c] == 2 && grownLast[c] == 0.0
      {
        grown[i] := 2;
        grownLast[i] := 0.0;
        i := i + 1;
      }
      first, lastTime := grown, grownLast;
    }

    /** The accounting of a switch. */
    method Charged(line: Line, ghost lines: seq<Line>, ghost n: nat) returns (charge: real)
      requires n < |lines| && line == lines[n] && Ready(lines, n)
      modifies first, lastTime
      ensures Holds(lines, n + 1) && charge == Charge(lines, n, line.fromCpu)
    {
      charge := 0.0;
      if line.isSwitch {
        var cpu := line.fromCpu;
        if first[cpu] == 0 {
          charge := line.time - lastTime[cpu];
        } else {
          first[cpu] := first[cpu] - 1;
        }
        lastTime[cpu] := line.time;
      }
      forall c | 0 <= c < first.Length
        ensures Entry(first[c], lastTime[c], Segment(lines, n + 1, c))
      {
        SegmentStep(lines, n, c);
      }
    }

    /** Make room for the CPUs of a line, then find out what it is charged. */
    method ChargeOf(line: Line, lastMaxCpu: nat, maxCpu: nat, ghost lines: seq<Line>, ghost n: nat)
        returns (charge: real)
      requires n < |lines| && line == lines[n] && Holds(lines, n)
      requires lastMaxCpu == MaxCpu(lines, n) && maxCpu == MaxCpu(lines, n + 1)
      modifies this, first, lastTime
      ensures Holds(lines, n + 1) && charge == Charge(lines, n, line.fromCpu)
      ensures first == old(first) || fresh(first)
      ensures lastTime == old(lastTime) || fresh(lastTime)
    {
      if first.Length == 0 || maxCpu != lastMaxCpu {
        Grow(lastMaxCpu, maxCpu, lines, n);
      }
      charge := Charged(line, lines, n);
    }

    /** One line: charge its program. */
    method Account(line: Line, lastMaxCpu: nat, maxCpu: nat, programTime: array<real>, ghost lines: seq<Line>,
                   ghost n: nat)
      requires n < |lines| && line == lines[n] && line.program < programTime.Length
      requires Holds(lines, n) && programTime != lastTime
      requires lastMaxCpu == MaxCpu(lines, n) && maxCpu == MaxCpu(lines, n + 1)
      modifies this, first, lastTime, programTime
      ensures Holds(lines, n + 1) && programTime != lastTime
      ensures first == old(first) || fresh(first)
      ensures lastTime == old(lastTime) || fresh(lastTime)
      ensures programTime[..]
              == old(programTime[..])[line.program := old(programTime[line.program]) + Charge(lines, n, line.fromCpu)]
    {
      ghost var before := programTime[..];
      var charge := ChargeOf(line, lastMaxCpu, maxCpu, lines, n);
      assert programTime[..] == before;
      AddTime(programTime, line.program, charge);
    }
  }

  /** The accounting loop of main over the parsed lines. Every program is charged at the lines that switch it out, and
      at no others, and the times charged to all programs add up to the sum, over all CPUs, of the spans of the segments
      of that CPU. */
  method AccountTimes(lines: seq<Line>, programTime: array<real>) returns (maxCpu: nat)
    requires ProgramsBelow(lines, |lines|, programTime.Length)
    modifies programTime
    ensures maxCpu == MaxCpu(lines, |lines|)
    ensures forall q :: 0 <= q < programTime.Length ==> programTime[q] == ChargedTo(lines, |lines|, q)
    ensures Sum(programTime[..]) == SumCpus(lines, |lines|, maxCpu + 1)
  {
    ClearTimes(programTime);
    maxCpu := AccountLines(lines, programTime);
    CpusSeen(lines, |lines|);
    ChargesAreCpuTimes(lines, |lines|, maxCpu + 1);
    ProgramTimesAddUp(lines, |lines|, programTime.Length);
    forall q | 0 <= q < programTime.Length
      ensures programTime[q] == ChargedTo(lines, |lines|, q)
    {
      assert programTime[q] == programTime[..][q];
    }
  }

  method AccountLines(lines: seq<Line>, programTime: array<real>) returns (maxCpu: nat)
    requires ProgramsBelow(lines, |lines|, programTime.Length)
    requires forall q :: 0 <= q < programTime.Length ==> programTime[q] == 0.0
    modifies programTime
    ensures maxCpu == MaxCpu(lines, |lines|)
    ensures programTime[..] == ProgramTimes(lines, |lines|, programTime.Length)
  {
    maxCpu := 0;
    var lastMaxCpu := 0;
    var tables := new CpuTables();
    for n := 0 to |lines|
      invariant lastMaxCpu == maxCpu
      invariant fresh(tables) && fresh(tables.first) && fresh(tables.lastTime)
      invariant Accounted(tables, programTime, lines, n, maxCpu)
    {
      maxCpu := AccountLine(tables, programTime, lines, n, lastMaxCpu);
      lastMaxCpu := maxCpu;
    }
  }

  /** What holds after the first `n` lines. */
  ghost predicate Accounted(tables: CpuTables, programTime: array<real>, lines: seq<Line>, n: nat, maxCpu: nat)
    requires n <= |lines|
    reads tables, tables.first, tables.lastTime, programTime
  {
    && tables.Holds(lines, n) && maxCpu == MaxCpu(lines, n) && programTime != tables.lastTime
    && programTime[..] == ProgramTimes(lines, n, programTime.Length)
  }

  /** The body of that loop. */
  method AccountLine(tables: CpuTables, programTime: array<real>, lines: seq<Line>, n: nat, lastMaxCpu: nat)
      returns (maxCpu: nat)
    requires n < |lines| && lines[n].program < programTime.Length
    requires Accounted(tables, programTime, lines, n, lastMaxCpu)
    modifies tables, tables.first, tables.lastTime, programTime
    ensures Accounted(tables, programTime, lines, n + 1, maxCpu)
    ensures tables.first == old(tables.first) || fresh(tables.first)
    ensures tables.lastTime == old(tables.lastTime) || fresh(tables.lastTime)
  {
    maxCpu := NextMaxCpu(lines[n], lastMaxCpu, lines, n);
    ProgramTimesStep(lines, n, programTime.Length);
    tables.Account(lines[n], lastMaxCpu, maxCpu, programTime, lines, n);
  }

  /** The highest CPU number after one more line. */
  method NextMaxCpu(line: Line, maxCpu: nat, ghost lines: seq<Line>, ghost n: nat) returns (next: nat)
    requires n < |lines| && line == lines[n] && maxCpu == MaxCpu(lines, n)
    ensures next == MaxCpu(lines, n + 1)
  {
    next := maxCpu;
    if line.fromCpu > next {
      next := line.fromCpu;
    }
    if line.toCpu > next {
      next := line.toCpu;
    }
  }

  method ClearTimes(programTime: array<real>)
    modifies programTime
    ensures forall q :: 0 <= q < programTime.Length ==> programTime[q] == 0.0
  {
    for p := 0 to programTime.Length
      invariant forall q :: 0 <= q < p ==> programTime[q] == 0.0
    {
      programTime[p] := 0.0;
    }
  }

  method AddTime(programTime: array<real>, program: nat, charge: real)
    requires program < programTime.Length
    modifies programTime
    ensures programTime[..] == old(programTime[..])[program := old(programTime[program]) + charge]
  {
    programTime[program] := programTime[program] + charge;
  }

  // ---------- when the whole trace of a CPU is charged ----------

  /** No growth after the first line starts `cpu` anew once it has had a switch. */
  ghost predicate NeverRestarted(lines: seq<Line>, n: nat, cpu: nat)
    requires n <= |lines|
  {
    forall k :: 0 < k < n && Resets(lines, k, cpu) ==> SwitchTimes(lines, k, cpu) == []
  }

  lemma {:induction false} OneSegment(lines: seq<Line>, n: nat, cpu: nat)
    requires n <= |lines| && NeverRestarted(lines, n, cpu)
    ensures Segment(lines, n, cpu) == SwitchTimes(lines, n, cpu) && EarlierSpans(lines, n, cpu) == 0.0
  {
    if n > 0 {
      OneSegment(lines, n - 1, cpu);
      assert Resets(lines, n - 1, cpu) ==> Segment(lines, n - 1, cpu) == [];
    }
  }

  function Spans(lines: seq<Line>, n: nat, cpus: nat): (spans: seq<real>)
    requires n <= |lines|
    ensures |spans| == cpus
  {
    seq(cpus, cpu requires 0 <= cpu < cpus => Span(SwitchTimes(lines, n, cpu)))
  }

  function SumSpans(lines: seq<Line>, n: nat, cpus: nat): real
    requires n <= |lines|
  {
    Sum(Spans(lines, n, cpus))
  }

  /** If no CPU is restarted after a switch, the total is the sum, over the CPUs with at least two switches, of the
      time from the second switch to the last. */
  lemma TotalIsSumOfSpans(lines: seq<Line>, n: nat, cpus: nat)
    requires n <= |lines| && forall cpu :: 0 <= cpu < cpus ==> NeverRestarted(lines, n, cpu)
    ensures SumCpus(lines, n, cpus) == SumSpans(lines, n, cpus)
  {
    forall cpu | 0 <= cpu < cpus
      ensures CpuTimes(lines, n, cpus)[cpu] == Spans(lines, n, cpus)[cpu]
    {
      OneSegment(lines, n, cpu);
    }
    assert CpuTimes(lines, n, cpus) == Spans(lines, n, cpus);
  }

  /** In particular this holds when the first line already shows the highest CPU. */
  lemma NoGrowthNoRestart(lines: seq<Line>, n: nat, cpu: nat)
    requires 0 < n <= |lines| && MaxCpu(lines, 1) == MaxCpu(lines, n)
    ensures NeverRestarted(lines, n, cpu)
  {
    forall k | 0 < k < n
      ensures !Grows(lines, k)
    {
      MaxCpuGrows(lines, 1, k);
      MaxCpuGrows(lines, k, k + 1);
      MaxCpuGrows(lines, k + 1, n);
    }
  }

  lemma {:induction false} MaxCpuGrows(lines: seq<Line>, m: nat, n: nat)
    requires m <= n <= |lines|
    ensures MaxCpu(lines, m) <= MaxCpu(lines, n)
  {
    if m < n {
      MaxCpuGrows(lines, m, n - 1);
    }
  }

  // ---------- what is lost otherwise ----------

  /** Line `k` is a switch of `cpu` that is not charged although `cpu` has had two switches before: it is one of the
      first two since `cpu` was started anew. */
  predicate Loses(lines: seq<Line>, k: nat, cpu: nat)
    requires k < |lines|
  {
    SwitchOn(lines[k], cpu) && |SwitchTimes(lines, k, cpu)| >= 2 && |Current(lines, k, cpu)| < 2
  }

  /** The time since the switch before, at those lines. */
  function Lost(lines: seq<Line>, n: nat, cpu: nat): real
    requires n <= |lines|
  {
    if n == 0 then 0.0
    else
      var times := SwitchTimes(lines, n - 1, cpu);
      Lost(lines, n - 1, cpu)
      + (if Loses(lines, n - 1, cpu) then lines[n - 1].time - times[|times| - 1] else 0.0)
  }

  predicate Latest(segment: seq<real>, times: seq<real>) {
    |segment| <= |times| && (segment != [] ==> segment[|segment| - 1] == times[|times| - 1])
  }

  /** The current segment holds the latest of all switches. */
  lemma {:induction false} SegmentIsLatest(lines: seq<Line>, n: nat, cpu: nat)
    requires n <= |lines|
    ensures Latest(Segment(lines, n, cpu), SwitchTimes(lines, n, cpu))
  {
    if n > 0 {
      SegmentIsLatest(lines, n - 1, cpu);
      LatestStep(lines, n - 1, cpu);
    }
  }

  lemma LatestStep(lines: seq<Line>, n: nat, cpu: nat)
    requires n < |lines| && Latest(Segment(lines, n, cpu), SwitchTimes(lines, n, cpu))
    ensures Latest(Segment(lines, n + 1, cpu), SwitchTimes(lines, n + 1, cpu))
  {
    SegmentStep(lines, n, cpu);
    assert SwitchTimes(lines, n, cpu) + [] == SwitchTimes(lines, n, cpu);
  }

  /** The span grows by what is charged or lost. */
  lemma SpanStep(lines: seq<Line>, n: nat, cpu: nat)
    requires n < |lines|
    ensures Span(SwitchTimes(lines, n + 1, cpu)) - Span(SwitchTimes(lines, n, cpu))
            == (if lines[n].fromCpu == cpu then Charge(lines, n, cpu) else 0.0)
               + Lost(lines, n + 1, cpu) - Lost(lines, n, cpu)
  {
    var times := SwitchTimes(lines, n, cpu);
    SegmentIsLatest(lines, n, cpu);
    SpanAppend(times, lines[n].time);
    assert times + [] == times;
  }

  /** What is neither charged nor lost of the span of a CPU. */
  function Unaccounted(lines: seq<Line>, n: nat, cpu: nat): real
    requires n <= |lines|
  {
    Span(SwitchTimes(lines, n, cpu)) - CpuTime(lines, n, cpu) - Lost(lines, n, cpu)
  }

  lemma UnaccountedStep(lines: seq<Line>, n: nat, cpu: nat)
    requires n < |lines|
    ensures Unaccounted(lines, n + 1, cpu) == Unaccounted(lines, n, cpu)
  {
    CpuTimeStep(lines, n, cpu);
    SpanStep(lines, n, cpu);
  }

  /** For every trace that is nothing: what is charged for a CPU and what is lost there make up its whole span. */
  lemma {:induction false} ChargedAndLost(lines: seq<Line>, n: nat, cpu: nat)
    requires n <= |lines|
    ensures Unaccounted(lines, n, cpu) == 0.0
  {
    if n > 0 {
      ChargedAndLost(lines, n - 1, cpu);
      UnaccountedStep(lines, n - 1, cpu);
    }
  }

  ghost predicate Ordered(times: seq<real>) {
    forall i, j :: 0 <= i < j < |times| ==> times[i] < times[j]
  }

  ghost predicate LosesNothing(lines: seq<Line>, n: nat, cpu: nat)
    requires n <= |lines|
  {
    forall k :: 0 <= k < n ==> !Loses(lines, k, cpu)
  }

  /** If time goes on between switches, a CPU loses time exactly at those lines. */
  lemma {:induction false} LostSign(lines: seq<Line>, n: nat, cpu: nat)
    requires n <= |lines| && Ordered(SwitchTimes(lines, n, cpu))
    ensures Lost(lines, n, cpu) >= 0.0 && (Lost(lines, n, cpu) == 0.0 <==> LosesNothing(lines, n, cpu))
  {
    if n > 0 {
      var before, times := SwitchTimes(lines, n - 1, cpu), SwitchTimes(lines, n, cpu);
      assert forall i :: 0 <= i < |before| ==> before[i] == times[i];
      LostSign(lines, n - 1, cpu);
      if Loses(lines, n - 1, cpu) {
        assert times[|before| - 1] < times[|before|] == lines[n - 1].time;
      }
    }
  }

  /** The total falls short of the sum over the CPUs of the time from the second switch to the last, unless no CPU has a
      switch that loses time, and then it is that sum. */
  lemma TotalIsWholeExactly(lines: seq<Line>, n: nat, cpus: nat)
    requires n <= |lines| && forall cpu :: 0 <= cpu < cpus ==> Ordered(SwitchTimes(lines, n, cpu))
    ensures SumCpus(lines, n, cpus) <= SumSpans(lines, n, cpus)
    ensures SumCpus(lines, n, cpus) == SumSpans(lines, n, cpus)
            <==> forall cpu :: 0 <= cpu < cpus ==> LosesNothing(lines, n, cpu)
  {
    var charged, spans := CpuTimes(lines, n, cpus), Spans(lines, n, cpus);
    forall cpu | 0 <= cpu < cpus
      ensures charged[cpu] <= spans[cpu] && (charged[cpu] == spans[cpu] <==> LosesNothing(lines, n, cpu))
    {
      ChargedAndLost(lines, n, cpu);
      LostSign(lines, n, cpu);
    }
    SumCompare(charged, spans);
  }

  /** A trace in which a growth loses time: CPU 0 is restarted at the first sight of CPU 1. */
  function LosingTrace(): seq<Line> {
    [Line(true, 0.0, 0, 0, 0), Line(true, 1.0, 0, 0, 0), Line(true, 2.0, 0, 0, 1)]
  }

  lemma LosingTraceCpus()
    ensures var t := LosingTrace(); MaxCpu(t, 1) == 0 && MaxCpu(t, 2) == 0 && MaxCpu(t, 3) == 1
  {
  }

  lemma LosingTraceCpu0()
    ensures var t := LosingTrace(); CpuTime(t, 3, 0) == 0.0 && Span(SwitchTimes(t, 3, 0)) == 1.0
  {
    var t := LosingTrace();
    LosingTraceCpus();
    assert Segment(t, 1, 0) == [0.0];
    assert Segment(t, 2, 0) == Segment(t, 1, 0) + [1.0];
    assert Segment(t, 3, 0) == [2.0];
    assert EarlierSpans(t, 1, 0) == 0.0;
    assert EarlierSpans(t, 2, 0) == 0.0;
    assert EarlierSpans(t, 3, 0) == Span(Segment(t, 2, 0));
    assert SwitchTimes(t, 1, 0) == [0.0];
    assert SwitchTimes(t, 2, 0) == SwitchTimes(t, 1, 0) + [1.0];
    assert SwitchTimes(t, 3, 0) == SwitchTimes(t, 2, 0) + [2.0];
  }

  lemma LosingTraceCpu1()
    ensures var t := LosingTrace(); CpuTime(t, 3, 1) == 0.0 && Span(SwitchTimes(t, 3, 1)) == 0.0
  {
    var t := LosingTrace();
    LosingTraceCpus();
    UnseenCpu(t, 2, 1);
    assert Segment(t, 3, 1) == [];
    assert SwitchTimes(t, 1, 1) == [];
    assert SwitchTimes(t, 2, 1) == [];
    assert SwitchTimes(t, 3, 1) == [];
  }

  lemma GrowthLosesTime()
    ensures var t := LosingTrace();
            SumCpus(t, |t|, MaxCpu(t, |t|) + 1) == 0.0 && SumSpans(t, |t|, MaxCpu(t, |t|) + 1) == 1.0
  {
    var t := LosingTrace();
    LosingTraceCpus();
    LosingTraceCpu0();
    LosingTraceCpu1();
    assert SumCpus(t, 3, 1) == 0.0 && SumSpans(t, 3, 1) == 1.0;
  }
}
