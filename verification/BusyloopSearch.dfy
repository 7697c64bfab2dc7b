/** The search for the loop count that keeps a CPU busy for a given time (busyloop_search, utility_cpu.c). What a
    measurement yields is up to an arbitrary oracle: a negative duration stands for a failed measurement. */
module BusyloopSearch {
  import opened Common

  /** The measured duration of `loopCount` loops at the `pass`-th pass. */
  type Oracle = (nat, nat) -> real

  /** duration_to_loop_count: the greatest whole number of loops that take no longer than the duration. */
  function LoopCount(frequency: nat, duration: real): (n: int)
    ensures n as real <= frequency as real * duration < n as real + 1.0
    ensures duration >= 0.0 ==> n >= 0
  {
    (frequency as real * duration).Floor
  }

  /** `initial` times (11/10) to the power of `n`. */
  function Bound(initial: nat, n: nat): (b: real)
    ensures b >= initial as real
  {
    if n == 0 then initial as real else 1.1 * Bound(initial, n - 1)
  }

  /** (11/10) to the power of `n`. */
  function Growth(n: nat): real {
    if n == 0 then 1.0 else 1.1 * Growth(n - 1)
  }

  lemma {:induction false} BoundIsGrowth(initial: nat, n: nat)
    ensures Bound(initial, n) == initial as real * Growth(n)
  {
    if n > 0 {
      BoundIsGrowth(initial, n - 1);
      assert initial as real * (1.1 * Growth(n - 1)) == 1.1 * (initial as real * Growth(n - 1));
    }
  }

  lemma WrapsOnce(count: nat, more: nat, words: nat)
    requires count < words && more <= count / 10
    ensures (count + more) % words == if count + more < words then count + more else count + more - words
  {
    var n := count + more;
    DivisionIs(n, words, if n < words then 0 else 1, if n < words then n else n - words);
  }

  predicate Within(measured: real, duration: real, tolerance: real) {
    -tolerance <= measured - duration <= tolerance
  }

  datatype Goal = Goal(duration: real, tolerance: real, frequency: nat, words: nat)

  /** `loops` is the greatest whole number of loops that take no longer than the measurement was off. */
  predicate MakesUp(g: Goal, measured: real, loops: nat) {
    var off := if measured < g.duration then g.duration - measured else measured - g.duration;
    loops as real <= g.frequency as real * off < loops as real + 1.0
  }

  /** The count after a measurement that missed the duration: larger by those loops if it was too short, smaller by
      them if it was too long. An unsigned long has `words` values, so the addition wraps around. */
  ghost predicate Corrected(g: Goal, before: nat, after: nat, measured: real) {
    exists loops: nat :: MakesUp(g, measured, loops)
      && if measured < g.duration then
           && loops <= before / 10
           && after == (if before + loops < g.words then before + loops else before + loops - g.words)
         else
           loops <= before && after == before - loops
  }

  /** The counts measured by the successive passes: each measurement but the last missed the tolerance, by no more than a
      tenth of its count if it was too short, and by no more than the count if it was too long. */
  ghost predicate Passes(g: Goal, measure: Oracle, counts: seq<nat>)
    requires g.words >= 1
  {
    forall k :: 0 < k < |counts| ==> PassAt(g, measure, counts, k)
  }

  lemma LongerIsCorrected(g: Goal, count: nat, measured: real, more: int)
    requires measured < g.duration && more == LoopCount(g.frequency, g.duration - measured)
    requires count < g.words && more <= count / 10
    ensures more >= 0 && Corrected(g, count, (count + more) % g.words, measured)
  {
    assert MakesUp(g, measured, more);
    WrapsOnce(count, more, g.words);
  }

  lemma ShorterIsCorrected(g: Goal, count: nat, measured: real, less: int)
    requires measured >= g.duration && less == LoopCount(g.frequency, measured - g.duration)
    requires less <= count
    ensures less >= 0 && Corrected(g, count, count - less, measured)
  {
    assert MakesUp(g, measured, less);
  }

  ghost predicate PassAt(g: Goal, measure: Oracle, counts: seq<nat>, k: nat)
    requires g.words >= 1 && 0 < k < |counts|
  {
    var measured := measure(k, counts[k - 1]);
    && measured >= 0.0 && !Within(measured, g.duration, g.tolerance)
    && Corrected(g, counts[k - 1], counts[k], measured)
  }

  lemma PassesAppend(g: Goal, measure: Oracle, counts: seq<nat>, next: nat)
    requires g.words >= 1 && counts != [] && Passes(g, measure, counts)
    requires PassAt(g, measure, counts + [next], |counts|)
    ensures Passes(g, measure, counts + [next])
  {
    forall k | 0 < k < |counts|
      ensures PassAt(g, measure, counts + [next], k)
    {
      assert PassAt(g, measure, counts, k);
    }
  }

  /** Every count is within the bound for its pass. */
  ghost predicate Bounded(initial: nat, counts: seq<nat>) {
    forall k :: 0 <= k < |counts| ==> counts[k] as real <= Bound(initial, k)
  }

  lemma BoundedAppend(initial: nat, counts: seq<nat>, next: nat)
    requires Bounded(initial, counts) && next as real <= Bound(initial, |counts|)
    ensures Bounded(initial, counts + [next])
  {
  }

  /** A pass that corrects the count keeps it within the bound. */
  lemma NextPass(g: Goal, measure: Oracle, initial: nat, counts: seq<nat>, next: nat)
    requires g.words >= 1 && counts != [] && Passes(g, measure, counts) && Bounded(initial, counts)
    requires PassAt(g, measure, counts + [next], |counts|) && counts[|counts| - 1] < g.words
    ensures next < g.words && Passes(g, measure, counts + [next]) && Bounded(initial, counts + [next])
  {
    var count, measured, bound := counts[|counts| - 1], measure(|counts|, counts[|counts| - 1]),
                                  Bound(initial, |counts| - 1);
    if measured < g.duration {
      var more: nat :| MakesUp(g, measured, more) && more <= count / 10
                       && next == (if count + more < g.words then count + more else count + more - g.words);
      GrowsByATenth(count, more, bound);
    }
    assert Bound(initial, |counts|) == 1.1 * bound;
    PassesAppend(g, measure, counts, next);
    BoundedAppend(initial, counts, next);
  }

  /** The measurement was too short by more loops than a tenth of the count. */
  predicate TooShort(g: Goal, count: nat, measured: real) {
    measured - g.duration < -g.tolerance
    && (count / 10 + 1) as real <= g.frequency as real * (g.duration - measured)
  }

  /** The measurement was too long by more loops than the count. */
  predicate TooLong(g: Goal, count: nat, measured: real) {
    measured - g.duration > g.tolerance && (count + 1) as real <= g.frequency as real * (measured - g.duration)
  }

  /** The correction of the count after a measurement that missed the tolerance, or -2 or -3 if there is none. */
  method Correct(g: Goal, loopCount: nat, actual: real) returns (rc: int, next: nat)
    requires loopCount < g.words && g.tolerance >= 0.0 && !Within(actual, g.duration, g.tolerance)
    ensures rc == 0 ==> Corrected(g, loopCount, next, actual)
    ensures rc == -2 ==> next == loopCount && TooLong(g, loopCount, actual)
    ensures rc == -3 ==> next == loopCount && TooShort(g, loopCount, actual)
    ensures rc in {0, -2, -3}
  {
    var delta := actual - g.duration;
    if delta < 0.0 {
      var more := LoopCount(g.frequency, g.duration - actual);
      if more > loopCount / 10 {
        return -3, loopCount;
      }
      LongerIsCorrected(g, loopCount, actual, more);
      return 0, (loopCount + more) % g.words;
    }
    var less := LoopCount(g.frequency, delta);
    if loopCount < less {
      return -2, loopCount;
    }
    ShorterIsCorrected(g, loopCount, actual, less);
    return 0, loopCount - less;
  }

  /** busyloop_search. `counts` are the counts measured, the last one by the last pass made. */
  method Search(g: Goal, maxPasses: nat, initial: nat, measure: Oracle)
      returns (rc: int, loopCount: nat, ghost counts: seq<nat>)
    requires initial < g.words && g.tolerance >= 0.0
    ensures maxPasses == 0 ==> rc == 0 && loopCount == initial
    ensures maxPasses >= 1 ==>
              && 1 <= |counts| <= maxPasses && counts[0] == initial && Passes(g, measure, counts)
              && loopCount == counts[|counts| - 1] < g.words
              && Bounded(initial, counts)
              && var measured := measure(|counts|, loopCount);
              && (rc == 0 <==> measured >= 0.0
                               && (|counts| == maxPasses || Within(measured, g.duration, g.tolerance)))
              && (rc == -2 <==> measured >= 0.0 && |counts| < maxPasses && measured - g.duration > g.tolerance)
              && (rc == -2 ==> TooLong(g, loopCount, measured))
              && (rc == -3 && measured >= 0.0 ==> TooShort(g, loopCount, measured))
    ensures rc in {0, -2, -3}
  {
    rc, loopCount, counts := 0, initial, [initial];
    var pass := 1;
    while pass <= maxPasses
      invariant rc == 0 && 1 <= pass && (maxPasses >= 1 ==> pass <= maxPasses)
      invariant |counts| == pass && counts[0] == initial && counts[pass - 1] == loopCount < g.words
      invariant Passes(g, measure, counts)
      invariant Bounded(initial, counts)
      invariant maxPasses == 0 ==> loopCount == initial
      decreases maxPasses - pass
    {
      var actual := measure(pass, loopCount);
      if actual < 0.0 {
        return -3, loopCount, counts;
      }
      if pass == maxPasses || Within(actual, g.duration, g.tolerance) {
        break;
      }
      rc, loopCount := Correct(g, loopCount, actual);
      if rc != 0 {
        return;
      }
      NextPass(g, measure, initial, counts, loopCount);
      counts := counts + [loopCount];
      pass := pass + 1;
    }
  }

  lemma GrowsByATenth(count: nat, more: nat, bound: real)
    requires more <= count / 10 && count as real <= bound
    ensures (count + more) as real <= 1.1 * bound
  {
    assert 10 * more <= count;
  }
}
