/** The response-time histogram of read_task_stats_file.c: a linked list kept in increasing order, one node per
    microsecond value, and the cumulative counts printed from it.

    `inputs` are the values inserted so far, already rounded to microseconds.
 */
module ResponseTimes {

  /** Nanoseconds to microseconds: the nearest one, and the greater one in the middle. */
  function Microseconds(ns: nat): (us: nat)
    ensures -500 <= ns - 1000 * us < 500
  {
    if ns % 1000 >= 500 then ns / 1000 + 1 else ns / 1000
  }

  /** A point of the histogram. */
  datatype Bar = Bar(responseTime: nat, jobCount: nat)

  ghost predicate Increasing(bars: seq<Bar>) {
    forall i, j :: 0 <= i < j < |bars| ==> bars[i].responseTime < bars[j].responseTime
  }

  /** The bars are exactly the histogram of the inputs. */
  ghost predicate IsHistogram(bars: seq<Bar>, inputs: seq<nat>) {
    && Increasing(bars)
    && (forall i :: 0 <= i < |bars| ==> 0 < bars[i].jobCount == multiset(inputs)[bars[i].responseTime])
    && (forall x :: x in inputs ==> HasBar(bars, x))
  }

  ghost predicate HasBar(bars: seq<Bar>, x: nat) {
    exists i :: 0 <= i < |bars| && bars[i].responseTime == x
  }

  function AtMost(inputs: seq<nat>, v: nat): nat {
    if inputs == [] then 0 else (if inputs[0] <= v then 1 else 0) + AtMost(inputs[1..], v)
  }

  /** The sum of the first `k` counts. */
  function Cumulative(bars: seq<Bar>, k: nat): nat
    requires k <= |bars|
  {
    if k == 0 then 0 else Cumulative(bars, k - 1) + bars[k - 1].jobCount
  }

  // ---------- counting ----------

  lemma FirstAndRest(inputs: seq<nat>)
    requires inputs != []
    ensures multiset(inputs) == multiset{inputs[0]} + multiset(inputs[1..])
    ensures inputs[0] in inputs && forall x :: x in inputs[1..] ==> x in inputs
  {
    assert inputs == [inputs[0]] + inputs[1..];
  }

  lemma {:induction false} AtMostGrows(inputs: seq<nat>, v: nat, w: nat)
    requires v <= w
    requires forall x :: x in inputs ==> !(v < x < w)
    ensures AtMost(inputs, w) == AtMost(inputs, v) + (if v < w then multiset(inputs)[w] else 0)
  {
    if inputs != [] {
      FirstAndRest(inputs);
      AtMostGrows(inputs[1..], v, w);
    }
  }

  lemma {:induction false} NoneAtMost(inputs: seq<nat>, v: nat)
    requires forall x :: x in inputs ==> v <= x
    ensures AtMost(inputs, v) == multiset(inputs)[v]
  {
    if inputs != [] {
      FirstAndRest(inputs);
      NoneAtMost(inputs[1..], v);
    }
  }

  lemma {:induction false} AllAtMost(inputs: seq<nat>, v: nat)
    requires forall x :: x in inputs ==> x <= v
    ensures AtMost(inputs, v) == |inputs|
  {
    if inputs != [] {
      FirstAndRest(inputs);
      AllAtMost(inputs[1..], v);
    }
  }

  lemma EmptyOrMember(inputs: seq<nat>)
    ensures inputs == [] || exists x :: x in inputs
  {
    if inputs != [] {
      assert inputs[0] in inputs;
    }
  }

  /** Each cumulative count is the number of inputs at or below that bar. */
  lemma {:induction false} CumulativeCountsInputs(bars: seq<Bar>, inputs: seq<nat>, k: nat)
    requires IsHistogram(bars, inputs) && k < |bars|
    ensures Cumulative(bars, k + 1) == AtMost(inputs, bars[k].responseTime)
  {
    var v := bars[k].responseTime;
    if k == 0 {
      assert Cumulative(bars, 0) == 0;
      NoneAtMost(inputs, v);
    } else {
      CumulativeCountsInputs(bars, inputs, k - 1);
      AtMostGrows(inputs, bars[k - 1].responseTime, v);
    }
  }

  /** The last cumulative count, so also the sum of all counts, is the number of inputs. */
  lemma CumulativeEndsAtTotal(bars: seq<Bar>, inputs: seq<nat>)
    requires IsHistogram(bars, inputs)
    ensures Cumulative(bars, |bars|) == |inputs|
  {
    if bars == [] {
      EmptyOrMember(inputs);
    } else {
      CumulativeCountsInputs(bars, inputs, |bars| - 1);
      AllAtMost(inputs, bars[|bars| - 1].responseTime);
    }
  }

  lemma {:induction false} HistogramsAgree(a: seq<Bar>, b: seq<Bar>, inputs: seq<nat>, k: nat)
    requires IsHistogram(a, inputs) && IsHistogram(b, inputs)
    requires k < |a| && k < |b|
    ensures a[k] == b[k]
  {
    if k > 0 {
      HistogramsAgree(a, b, inputs, k - 1);
    }
    assert a[k].responseTime in inputs && b[k].responseTime in inputs;
    var i :| 0 <= i < |b| && b[i].responseTime == a[k].responseTime;
    var j :| 0 <= j < |a| && a[j].responseTime == b[k].responseTime;
    if i < k {
      HistogramsAgree(a, b, inputs, i);
    }
    if j < k {
      HistogramsAgree(a, b, inputs, j);
    }
  }

  lemma NoLonger(a: seq<Bar>, b: seq<Bar>, inputs: seq<nat>)
    requires IsHistogram(a, inputs) && IsHistogram(b, inputs)
    ensures |b| <= |a|
  {
    if |a| < |b| {
      assert b[|a|].responseTime in inputs;
      var i :| 0 <= i < |a| && a[i].responseTime == b[|a|].responseTime;
      HistogramsAgree(a, b, inputs, i);
      assert false;
    }
  }

  /** A set of inputs has one histogram. */
  lemma HistogramIsUnique(a: seq<Bar>, b: seq<Bar>, inputs: seq<nat>)
    requires IsHistogram(a, inputs) && IsHistogram(b, inputs)
    ensures a == b
  {
    NoLonger(a, b, inputs);
    NoLonger(b, a, inputs);
    forall k | 0 <= k < |a|
      ensures a[k] == b[k]
    {
      HistogramsAgree(a, b, inputs, k);
    }
  }

  // ---------- inserting ----------

  /** `s` with `x` put in front of place `k`. */
  function InsertAt<T>(s: seq<T>, k: nat, x: T): (r: seq<T>)
    requires k <= |s|
    ensures |r| == |s| + 1
    ensures forall i :: 0 <= i < |r| ==> r[i] == if i < k then s[i] else if i == k then x else s[i - 1]
  {
    s[..k] + [x] + s[k..]
  }

  lemma OneMoreInput(inputs: seq<nat>, x: nat)
    ensures multiset(inputs + [x]) == multiset(inputs) + multiset{x}
    ensures forall y :: y in inputs + [x] <==> y in inputs || y == x
  {
    assert x == (inputs + [x])[|inputs|];
    assert forall y :: y in inputs ==> y in inputs + [x];
  }

  /** The value already has a bar. */
  lemma CountOneMore(bars: seq<Bar>, inputs: seq<nat>, k: nat)
    requires IsHistogram(bars, inputs) && k < |bars|
    ensures IsHistogram(bars[k := Bar(bars[k].responseTime, bars[k].jobCount + 1)], inputs + [bars[k].responseTime])
  {
    var x := bars[k].responseTime;
    var after := bars[k := Bar(x, bars[k].jobCount + 1)];
    OneMoreInput(inputs, x);
    assert forall i :: 0 <= i < |bars| ==> after[i].responseTime == bars[i].responseTime;
    forall y | y in inputs + [x]
      ensures HasBar(after, y)
    {
      if y == x {
        assert after[k].responseTime == y;
      } else {
        var i :| 0 <= i < |bars| && bars[i].responseTime == y;
        assert after[i].responseTime == y;
      }
    }
  }

  /** The value falls between two bars, or before or after all of them. */
  lemma NewBar(bars: seq<Bar>, inputs: seq<nat>, k: nat, x: nat)
    requires IsHistogram(bars, inputs) && k <= |bars|
    requires forall i :: 0 <= i < k ==> bars[i].responseTime < x
    requires forall i :: k <= i < |bars| ==> x < bars[i].responseTime
    ensures IsHistogram(InsertAt(bars, k, Bar(x, 1)), inputs + [x])
  {
    NewBarCounts(bars, inputs, k, x);
    forall y | y in inputs + [x]
      ensures HasBar(InsertAt(bars, k, Bar(x, 1)), y)
    {
      OneMoreInput(inputs, x);
      NewBarCovers(bars, k, x, y);
    }
  }

  lemma NewBarCovers(bars: seq<Bar>, k: nat, x: nat, y: nat)
    requires k <= |bars| && (y == x || HasBar(bars, y))
    ensures HasBar(InsertAt(bars, k, Bar(x, 1)), y)
  {
    var after := InsertAt(bars, k, Bar(x, 1));
    if y == x {
      assert after[k].responseTime == y;
    } else {
      var i :| 0 <= i < |bars| && bars[i].responseTime == y;
      assert after[if i < k then i else i + 1].responseTime == y;
    }
  }

  lemma NewBarCounts(bars: seq<Bar>, inputs: seq<nat>, k: nat, x: nat)
    requires IsHistogram(bars, inputs) && k <= |bars|
    requires forall i :: 0 <= i < k ==> bars[i].responseTime < x
    requires forall i :: k <= i < |bars| ==> x < bars[i].responseTime
    ensures var after := InsertAt(bars, k, Bar(x, 1));
            forall i :: 0 <= i < |after| ==> 0 < after[i].jobCount == multiset(inputs + [x])[after[i].responseTime]
  {
    var after := InsertAt(bars, k, Bar(x, 1));
    OneMoreInput(inputs, x);
    NewValue(bars, inputs, k, x);
    forall i | 0 <= i < |after|
      ensures 0 < after[i].jobCount == multiset(inputs + [x])[after[i].responseTime]
    {
      if i != k {
        assert after[i] == bars[if i < k then i else i - 1];
      }
    }
  }

  lemma NewValue(bars: seq<Bar>, inputs: seq<nat>, k: nat, x: nat)
    requires IsHistogram(bars, inputs) && k <= |bars|
    requires forall i :: 0 <= i < k ==> bars[i].responseTime < x
    requires forall i :: k <= i < |bars| ==> x < bars[i].responseTime
    ensures x !in inputs && multiset(inputs)[x] == 0
  {
    forall y | y in inputs
      ensures y != x
    {
      var i :| 0 <= i < |bars| && bars[i].responseTime == y;
    }
    assert x !in inputs;
  }

  /** The bars after counting `us` at place `k`. */
  function OneMore(bars: seq<Bar>, k: nat, us: nat): seq<Bar>
    requires k <= |bars|
  {
    if k < |bars| && bars[k].responseTime == us then bars[k := Bar(us, bars[k].jobCount + 1)]
    else InsertAt(bars, k, Bar(us, 1))
  }

  lemma OneMoreHistogram(bars: seq<Bar>, inputs: seq<nat>, k: nat, us: nat)
    requires IsHistogram(bars, inputs) && k <= |bars|
    requires forall i :: 0 <= i < k ==> bars[i].responseTime < us
    requires k < |bars| ==> us <= bars[k].responseTime
    ensures IsHistogram(OneMore(bars, k, us), inputs + [us])
  {
    if k < |bars| && bars[k].responseTime == us {
      CountOneMore(bars, inputs, k);
    } else {
      NewBar(bars, inputs, k, us);
    }
  }

  /** The first bar whose value is not less than `us`. */
  function PlaceOf(bars: seq<Bar>, us: nat): (k: nat)
    ensures k <= |bars|
    ensures forall i :: 0 <= i < k ==> bars[i].responseTime < us
    ensures k < |bars| ==> us <= bars[k].responseTime
  {
    if bars == [] || us <= bars[0].responseTime then 0
    else
      var k := 1 + PlaceOf(bars[1..], us);
      assert forall i :: 1 <= i < k ==> bars[i] == bars[1..][i - 1];
      k
  }

  lemma {:induction false} PlaceIs(bars: seq<Bar>, us: nat, k: nat)
    requires k <= |bars|
    requires forall i :: 0 <= i < k ==> bars[i].responseTime < us
    requires k < |bars| ==> us <= bars[k].responseTime
    ensures PlaceOf(bars, us) == k
  {
    if k > 0 {
      PlaceIs(bars[1..], us, k - 1);
    }
  }

  /** The bars after counting `us` where it belongs. */
  function Placed(bars: seq<Bar>, us: nat): seq<Bar> {
    OneMore(bars, PlaceOf(bars, us), us)
  }

  /** The histogram built by inserting the inputs one after the other. */
  function HistogramOf(inputs: seq<nat>): seq<Bar> {
    if inputs == [] then [] else Placed(HistogramOf(inputs[..|inputs| - 1]), inputs[|inputs| - 1])
  }

  lemma {:induction false} HistogramOfIsHistogram(inputs: seq<nat>)
    ensures IsHistogram(HistogramOf(inputs), inputs)
  {
    if inputs != [] {
      var n := |inputs| - 1;
      var bars := HistogramOf(inputs[..n]);
      HistogramOfIsHistogram(inputs[..n]);
      OneMoreHistogram(bars, inputs[..n], PlaceOf(bars, inputs[n]), inputs[n]);
      assert inputs[..n] + [inputs[n]] == inputs;
    }
  }

  /** The cumulative counts of the histogram count the inputs at or below each bar, and end at their number. */
  lemma CumulativeOfHistogram(inputs: seq<nat>)
    ensures var bars := HistogramOf(inputs);
            && (forall k :: 0 <= k < |bars| ==> Cumulative(bars, k + 1) == AtMost(inputs, bars[k].responseTime))
            && Cumulative(bars, |bars|) == |inputs|
            && (inputs != [] ==> bars != [])
  {
    var bars := HistogramOf(inputs);
    HistogramOfIsHistogram(inputs);
    forall k | 0 <= k < |bars|
      ensures Cumulative(bars, k + 1) == AtMost(inputs, bars[k].responseTime)
    {
      CumulativeCountsInputs(bars, inputs, k);
    }
    CumulativeEndsAtTotal(bars, inputs);
  }

  lemma CumulativeAt(inputs: seq<nat>, k: nat)
    requires k < |HistogramOf(inputs)|
    ensures Cumulative(HistogramOf(inputs), k + 1) == AtMost(inputs, HistogramOf(inputs)[k].responseTime)
  {
    CumulativeOfHistogram(inputs);
  }

  /** Each line has the value of a bar and the number of inputs at or below it. */
  ghost predicate Counts(lines: seq<Bar>, bars: seq<Bar>, inputs: seq<nat>) {
    && |lines| <= |bars|
    && forall i :: 0 <= i < |lines| ==>
         lines[i] == Bar(bars[i].responseTime, AtMost(inputs, bars[i].responseTime))
  }

  lemma CountsAppend(lines: seq<Bar>, bars: seq<Bar>, inputs: seq<nat>, line: Bar)
    requires Counts(lines, bars, inputs) && |lines| < |bars|
    requires line == Bar(bars[|lines|].responseTime, AtMost(inputs, bars[|lines|].responseTime))
    ensures Counts(lines + [line], bars, inputs)
  {
  }

  lemma OneMoreLine(lines: seq<Bar>, bars: seq<Bar>, inputs: seq<nat>, cumulative: nat)
    requires bars == HistogramOf(inputs) && Counts(lines, bars, inputs) && |lines| < |bars|
    requires cumulative == Cumulative(bars, |lines| + 1)
    ensures Counts(lines + [Bar(bars[|lines|].responseTime, cumulative)], bars, inputs)
  {
    CumulativeAt(inputs, |lines|);
    CountsAppend(lines, bars, inputs, Bar(bars[|lines|].responseTime, cumulative));
  }

  /** There is one line for every value among the inputs, in increasing order, and it counts the inputs at or below
      that value; so the last one counts all of them. */
  ghost predicate IsCdf(lines: seq<Bar>, inputs: seq<nat>) {
    && Increasing(lines)
    && (forall x :: x in inputs <==> HasBar(lines, x))
    && (forall i :: 0 <= i < |lines| ==> lines[i].jobCount == AtMost(inputs, lines[i].responseTime))
    && (inputs != [] ==> lines != [] && lines[|lines| - 1].jobCount == |inputs|)
  }

  lemma LastCount(lines: seq<Bar>, inputs: seq<nat>)
    requires Counts(lines, HistogramOf(inputs), inputs) && |lines| == |HistogramOf(inputs)|
    ensures inputs != [] ==> lines != [] && lines[|lines| - 1].jobCount == |inputs|
  {
    CumulativeOfHistogram(inputs);
    if inputs != [] {
      CumulativeAt(inputs, |lines| - 1);
    }
  }

  lemma SameValues(a: seq<Bar>, b: seq<Bar>)
    requires |a| == |b| && forall i :: 0 <= i < |a| ==> a[i].responseTime == b[i].responseTime
    ensures Increasing(a) ==> Increasing(b)
    ensures forall x :: HasBar(a, x) <==> HasBar(b, x)
  {
    forall x
      ensures HasBar(a, x) <==> HasBar(b, x)
    {
      if HasBar(a, x) {
        var i :| 0 <= i < |a| && a[i].responseTime == x;
        assert b[i].responseTime == x;
      }
      if HasBar(b, x) {
        var i :| 0 <= i < |b| && b[i].responseTime == x;
        assert a[i].responseTime == x;
      }
    }
  }

  lemma BarsAreInputs(bars: seq<Bar>, inputs: seq<nat>)
    requires IsHistogram(bars, inputs)
    ensures forall x :: x in inputs <==> HasBar(bars, x)
  {
    forall x | HasBar(bars, x)
      ensures x in inputs
    {
      var i :| 0 <= i < |bars| && bars[i].responseTime == x;
      assert multiset(inputs)[x] > 0;
    }
  }

  lemma IsWholeCdf(lines: seq<Bar>, inputs: seq<nat>)
    requires Counts(lines, HistogramOf(inputs), inputs) && |lines| == |HistogramOf(inputs)|
    ensures IsCdf(lines, inputs)
  {
    HistogramOfIsHistogram(inputs);
    BarsAreInputs(HistogramOf(inputs), inputs);
    SameValues(HistogramOf(inputs), lines);
    LastCount(lines, inputs);
  }

  lemma HistogramOfOneMore(inputs: seq<nat>, us: nat)
    ensures HistogramOf(inputs + [us]) == Placed(HistogramOf(inputs), us)
  {
    assert (inputs + [us])[..|inputs|] == inputs;
  }

  class Node {
    var next: Node?
    var jobCount: nat
    var responseTime: nat

    constructor (us: nat)
      ensures next == null && jobCount == 1 && responseTime == us
    {
      next, jobCount, responseTime := null, 1, us;
    }
  }

  class ResponseTimeList {
    var smallest: Node?
    ghost var nodes: seq<Node>
    ghost var repr: set<Node>
    ghost var bars: seq<Bar>
    ghost var inputs: seq<nat>

    constructor ()
      ensures Valid() && inputs == [] && repr == {}
    {
      smallest, nodes, repr, bars, inputs := null, [], {}, [], [];
    }

    /** The `i`-th node, or null past the end. */
    ghost function NodeAt(i: nat): Node?
      reads this
    {
      if i < |nodes| then nodes[i] else null
    }

    /** The nodes are distinct and linked in order from `smallest` to null. */
    ghost predicate Chained()
      reads this, repr
    {
      && (forall i :: 0 <= i < |nodes| ==> nodes[i] in repr)
      && smallest == NodeAt(0)
      && (forall i {:trigger nodes[i].next} :: 0 <= i < |nodes| ==> nodes[i].next == NodeAt(i + 1))
      && (forall i, j :: 0 <= i < j < |nodes| ==> nodes[i] != nodes[j])
    }

    /** The chain holds the bars. */
    ghost predicate Linked()
      reads this, repr
    {
      && Chained()
      && |bars| == |nodes|
      && (forall i :: 0 <= i < |nodes| ==> bars[i] == Bar(nodes[i].responseTime, nodes[i].jobCount))
    }

    /** The list, which has no cycle, is the histogram of the inputs. */
    ghost predicate Valid()
      reads this, repr
    {
      Linked() && bars == HistogramOf(inputs)
    }

    /** The walk of insert_response_time: stops at the first node whose value is not less than `us`. */
    method Find(us: nat) returns (prev: Node?, itr: Node?)
      requires Linked()
      ensures var k := PlaceOf(bars, us);
              itr == NodeAt(k) && prev == if k == 0 then null else nodes[k - 1]
    {
      prev, itr := null, smallest;
      ghost var k := 0;
      while itr != null && itr.responseTime < us
        invariant k <= |nodes| && itr == NodeAt(k)
        invariant prev == if k == 0 then null else nodes[k - 1]
        invariant forall i :: 0 <= i < k ==> bars[i].responseTime < us
        decreases |nodes| - k
      {
        prev := itr;
        itr := itr.next;
        k := k + 1;
      }
      PlaceIs(bars, us, k);
    }

    /** insert_response_time. */
    method Insert(ns: nat)
      requires Valid()
      modifies this, repr
      ensures Valid()
      ensures inputs == old(inputs) + [Microseconds(ns)]
      ensures fresh(repr - old(repr))
    {
      var us := Microseconds(ns);
      HistogramOfOneMore(inputs, us);
      Place(us);
      inputs := inputs + [us];
    }

    /** The walk and what follows it: count one more at an existing value, or link in a new node. */
    method Place(us: nat)
      requires Linked()
      modifies this, repr
      ensures Linked() && inputs == old(inputs)
      ensures bars == Placed(old(bars), us)
      ensures fresh(repr - old(repr))
    {
      var prev, itr := Find(us);
      ghost var k := PlaceOf(bars, us);
      if itr != null && itr.responseTime == us {
        CountAt(itr, k);
      } else {
        Link(prev, itr, us, k);
      }
    }

    /** Count one more job at a node. */
    method CountAt(itr: Node, ghost k: nat)
      requires Linked() && k < |nodes| && itr == nodes[k]
      modifies this`bars, itr
      ensures Linked() && repr == old(repr)
      ensures bars == old(bars)[k := Bar(old(bars)[k].responseTime, old(bars)[k].jobCount + 1)]
    {
      itr.jobCount := itr.jobCount + 1;
      bars := bars[k := Bar(bars[k].responseTime, bars[k].jobCount + 1)];
    }

    /** Link in a new node between `prev` and `itr`. */
    method Link(prev: Node?, itr: Node?, us: nat, ghost k: nat)
      requires Linked() && k <= |nodes|
      requires itr == NodeAt(k) && prev == if k == 0 then null else nodes[k - 1]
      modifies this, repr
      ensures Linked() && inputs == old(inputs)
      ensures bars == InsertAt(old(bars), k, Bar(us, 1))
      ensures fresh(repr - old(repr))
    {
      var node := new Node(us);
      node.next := itr;
      Splice(prev, node, k);
      bars := InsertAt(bars, k, Bar(us, 1));
    }

    /** The pointer that led past the new node now leads to it. */
    method Splice(prev: Node?, node: Node, ghost k: nat)
      requires Chained() && k <= |nodes| && node !in repr && node.next == NodeAt(k)
      requires prev == if k == 0 then null else nodes[k - 1]
      modifies this`smallest, this`nodes, this`repr, (if prev == null then {} else {prev})`next
      ensures Chained() && nodes == InsertAt(old(nodes), k, node) && repr == old(repr) + {node}
    {
      if prev == null {
        smallest := node;
      } else {
        prev.next := node;
      }
      nodes := InsertAt(nodes, k, node);
      repr := repr + {node};
    }

    /** print_gnuplot_cdf: each line has a value and the count of jobs at or below it (the total, by which the
        code divides, is the same on every line). */
    method PrintCdf() returns (lines: seq<Bar>)
      requires Valid()
      ensures |lines| == |bars| && Counts(lines, bars, inputs)
      ensures IsCdf(lines, inputs)
    {
      lines := [];
      var cumulative, itr := 0, smallest;
      ghost var k := 0;
      while itr != null
        invariant k == |lines| <= |nodes| && itr == NodeAt(k)
        invariant cumulative == Cumulative(bars, k)
        invariant Counts(lines, bars, inputs)
        decreases |nodes| - k
      {
        assert bars[k] == Bar(itr.responseTime, itr.jobCount);
        cumulative := cumulative + itr.jobCount;
        OneMoreLine(lines, bars, inputs, cumulative);
        lines := lines + [Bar(itr.responseTime, cumulative)];
        itr := itr.next;
        k := k + 1;
      }
      IsWholeCdf(lines, inputs);
    }
  }
}
