/** The two-field time of utility_time.h.

    A time is a count of seconds and a count of nanoseconds. `Ns` is the value a time stands for,
    and every operation is stated against it. `Time` is the value itself, as passed around by the
    `_dyn` variants that allocate their result; `TimeCell` is a `utility_time` object in memory, and
    its methods write through a result reference that may be one of the operands.
 */
module UtilityTime {
  import opened Common

  const BILLION := 1_000_000_000

  datatype Time = Time(sec: int, nsec: int) {
    /** The nanosecond field is within one second. */
    predicate Normal() {
      0 <= nsec < BILLION
    }

    /** The total in nanoseconds. */
    function Ns(): int {
      sec * BILLION + nsec
    }
  }

  const ZERO := Time(0, 0)

  /** A total has one normalised representation, so `Ns` determines a normalised time. */
  lemma NormalFormIsUnique(a: Time, b: Time)
    requires a.Normal() && b.Normal() && a.Ns() == b.Ns()
    ensures a == b
  {
  }

  // ---------- comparisons ----------

  predicate Eq(a: Time, b: Time) {
    a.sec == b.sec && a.nsec == b.nsec
  }

  predicate Lt(a: Time, b: Time) {
    a.sec < b.sec || (a.sec == b.sec && a.nsec < b.nsec)
  }

  predicate Le(a: Time, b: Time) {
    Eq(a, b) || Lt(a, b)
  }

  predicate Gt(a: Time, b: Time) {
    !Le(a, b)
  }

  predicate Ge(a: Time, b: Time) {
    !Lt(a, b)
  }

  predicate Ne(a: Time, b: Time) {
    !Eq(a, b)
  }

  /** On normalised times the six field-by-field comparisons are the order of the totals. */
  lemma ComparisonsAreTheOrderOfTotals(a: Time, b: Time)
    requires a.Normal() && b.Normal()
    ensures Eq(a, b) <==> a.Ns() == b.Ns()
    ensures Ne(a, b) <==> a.Ns() != b.Ns()
    ensures Lt(a, b) <==> a.Ns() < b.Ns()
    ensures Le(a, b) <==> a.Ns() <= b.Ns()
    ensures Gt(a, b) <==> a.Ns() > b.Ns()
    ensures Ge(a, b) <==> a.Ns() >= b.Ns()
  {
    if a.sec < b.sec {
      assert (a.sec + 1) * BILLION <= b.sec * BILLION;
    } else if b.sec < a.sec {
      assert (b.sec + 1) * BILLION <= a.sec * BILLION;
    }
  }

  // ---------- operations on values ----------

  /** The sum; the carry is right even when an operand holds more than one second of nanoseconds. */
  function Add(a: Time, b: Time): (r: Time)
    requires 0 <= a.nsec && 0 <= b.nsec
    ensures r.Normal() && r.Ns() == a.Ns() + b.Ns()
  {
    Time(a.sec + b.sec + (a.nsec + b.nsec) / BILLION, (a.nsec + b.nsec) % BILLION)
  }

  /** The difference cut off at zero. Times that are not normalised are subtracted field by field as well, but
      then the result means nothing. */
  function Sub(a: Time, b: Time): (r: Time)
    ensures a.Normal() && b.Normal() ==> r.Normal() && r.Ns() == Max(0, a.Ns() - b.Ns())
  {
    if Le(a, b) then ZERO
    else if a.nsec < b.nsec then Time(a.sec - 1 - b.sec, BILLION + a.nsec - b.nsec)
    else Time(a.sec - b.sec, a.nsec - b.nsec)
  }

  /** The n-fold sum, defined by its total rather than by the loop that computes it. */
  function Times(a: Time, n: nat): (r: Time)
    ensures r.Normal() && r.Ns() == a.Ns() * n
  {
    Time(a.Ns() * n / BILLION, a.Ns() * n % BILLION)
  }

  datatype Unit = Second | Millisecond | Microsecond | Nanosecond

  function NsPer(u: Unit): int {
    match u
    case Second => 1_000_000_000
    case Millisecond => 1_000_000
    case Microsecond => 1_000
    case Nanosecond => 1
  }

  /** Conversion of a count of some unit, by the divisions the code uses for each unit. */
  function FromUnit(t: nat, u: Unit): (r: Time)
    ensures r.Normal() && r.Ns() == t * NsPer(u)
  {
    match u
    case Second => Time(t, 0)
    case Millisecond => Time(t / 1_000, t % 1_000 * 1_000_000)
    case Microsecond => Time(t / 1_000_000, t % 1_000_000 * 1_000)
    case Nanosecond => Time(t / BILLION, t % BILLION)
  }

  // ---------- operations in memory ----------

  class TimeCell {
    var sec: int
    var nsec: int

    constructor (t: Time)
      ensures Value() == t
    {
      sec, nsec := t.sec, t.nsec;
    }

    function Value(): Time
      reads this
    {
      Time(sec, nsec)
    }

    method Assign(t: Time)
      modifies this
      ensures Value() == t
    {
      sec := t.sec;
      nsec := t.nsec;
    }
  }

  /** utility_time_add: the two fields are written one after the other, and `res` may be `t1`, `t2` or both. */
  method AddInto(t1: TimeCell, t2: TimeCell, res: TimeCell)
    requires 0 <= t1.nsec && 0 <= t2.nsec
    modifies res
    ensures res.Value().Normal()
    ensures res.Value().Ns() == old(t1.Value().Ns()) + old(t2.Value().Ns())
    ensures res.Value() == Add(old(t1.Value()), old(t2.Value()))
  {
    res.sec := t1.sec + t2.sec + (t1.nsec + t2.nsec) / BILLION;
    res.nsec := (t1.nsec + t2.nsec) % BILLION;
  }

  /** utility_time_inc; `inc` may be `target`, which doubles it. */
  method Increment(target: TimeCell, inc: TimeCell)
    requires 0 <= target.nsec && 0 <= inc.nsec
    modifies target
    ensures target.Value().Normal()
    ensures target.Value().Ns() == old(target.Value().Ns()) + old(inc.Value().Ns())
  {
    AddInto(target, inc, target);
  }

  /** utility_time_sub, again with any overlap of operands and result. */
  method SubInto(t1: TimeCell, t2: TimeCell, res: TimeCell)
    requires t1.Value().Normal() && t2.Value().Normal()
    modifies res
    ensures res.Value().Normal()
    ensures res.Value().Ns() == Max(0, old(t1.Value().Ns()) - old(t2.Value().Ns()))
    ensures res.Value() == Sub(old(t1.Value()), old(t2.Value()))
  {
    ComparisonsAreTheOrderOfTotals(t1.Value(), t2.Value());
    if Le(t1.Value(), t2.Value()) {
      res.sec := 0;
      res.nsec := 0;
    } else if t1.nsec < t2.nsec {
      res.sec := t1.sec - 1 - t2.sec;
      res.nsec := BILLION + t1.nsec - t2.nsec;
    } else {
      res.sec := t1.sec - t2.sec;
      res.nsec := t1.nsec - t2.nsec;
    }
  }

  /** utility_time_mul: repeated addition into a scratch object, so `res` may be `t1`. */
  method MulInto(t1: TimeCell, n: nat, res: TimeCell)
    requires 0 <= t1.nsec
    modifies res
    ensures res.Value().Normal()
    ensures res.Value().Ns() == old(t1.Value().Ns()) * n
    ensures res.Value() == Times(old(t1.Value()), n)
  {
    var scratch := new TimeCell(ZERO);
    var left := n;
    while left > 0
      invariant 0 <= left <= n
      invariant scratch != t1 && scratch != res && fresh(scratch)
      invariant t1.Value() == old(t1.Value())
      invariant scratch.Value().Normal()
      invariant scratch.Value().Ns() == old(t1.Value().Ns()) * (n - left)
    {
      left := left - 1;
      Increment(scratch, t1);
      OneMore(old(t1.Value().Ns()), n - left);
    }
    res.Assign(scratch.Value());
    NormalFormIsUnique(res.Value(), Times(old(t1.Value()), n));
  }

  lemma OneMore(x: int, k: int)
    ensures x * k == x * (k - 1) + x
  {
  }
}
