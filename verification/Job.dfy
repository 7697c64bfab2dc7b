/** The job statistics ring buffer and the logging of a job (job.c).

    A ring refines a history: every record that a job has tried to log, in order. With wrapping the ring
    holds the last records of the history, without wrapping the first ones.
 */
module Job {
  import opened Common
  import opened Stdio
  import opened ByteFormat
  import opened UtilityTime

  // ---------- what a ring promises about the history ----------

  /** What a ring of `m` slots keeps of a history. */
  function Kept(history: seq<JobStatistics>, m: nat, overrunDisabled: bool): (kept: seq<JobStatistics>)
    ensures |kept| == Min(|history|, m)
    ensures forall h :: FitRecords(h, history) ==> FitRecords(h, kept)
  {
    if |history| <= m then history
    else if overrunDisabled then history[..m]
    else history[|history| - m..]
  }

  /** These are the first records of the history without wrapping, and the last ones with it. */
  lemma KeptIsFirstOrLast(history: seq<JobStatistics>, m: nat, overrunDisabled: bool)
    ensures var kept, n := Kept(history, m, overrunDisabled), Min(|history|, m);
            && |kept| == n
            && kept == if overrunDisabled then history[..n] else history[|history| - n..]
  {
  }

  /** The release position, counted from one, of the oldest record kept; zero when there is none. */
  function OldestOf(n: nat, m: nat, overrunDisabled: bool): (oldest: nat)
    ensures n > 0 ==> 1 <= oldest && oldest + Min(n, m) <= n + 1
  {
    if n == 0 then 0 else if overrunDisabled || n <= m then 1 else n - m + 1
  }

  function LostOf(n: nat, m: nat): nat {
    if n <= m then 0 else n - m
  }

  /** The record at place `k` of what is kept is the one logged by the job `k` places after the oldest. */
  lemma KeptIsNumberedFromOldest(history: seq<JobStatistics>, m: nat, overrunDisabled: bool, k: nat)
    requires m >= 1 && k < |Kept(history, m, overrunDisabled)|
    ensures 1 <= OldestOf(|history|, m, overrunDisabled) + k <= |history|
    ensures Kept(history, m, overrunDisabled)[k] == history[OldestOf(|history|, m, overrunDisabled) + k - 1]
  {
  }

  // ---------- the state of a ring ----------

  /** The fields of jobstats_ringbuf, with the slots as a value. */
  datatype Ring = Ring(slots: seq<JobStatistics>, next: nat, overrunCount: nat, overrunDisabled: bool,
                       overrun: bool, writeCount: nat)
  {
    function Size(): nat {
      |slots|
    }

    /** `history` is what has been logged into this ring. */
    ghost predicate Refines(history: seq<JobStatistics>) {
      && 1 <= Size()
      && next <= Size()
      && writeCount == |history|
      && (if overrunDisabled then RefinesFirst(history) else RefinesLast(history))
    }

    /** Without wrapping the first records stay in place. */
    ghost predicate RefinesFirst(history: seq<JobStatistics>)
      requires next <= Size()
    {
      && overrunCount == 0
      && next == Min(|history|, Size())
      && overrun == (|history| > Size())
      && slots[..next] == history[..next]
    }

    /** With wrapping `next` is one past the newest record and, once wrapped, at the oldest. */
    ghost predicate RefinesLast(history: seq<JobStatistics>)
      requires next <= Size()
    {
      && |history| == Slots(overrunCount, Size()) + next
      && (next == 0 ==> history == [])
      && overrun == (overrunCount > 0)
      && overrun == (|history| > Size())
      && (if overrun then slots[next..] + slots[..next] == history[|history| - Size()..]
          else slots[..next] == history)
    }

    predicate HasOverrun() {
      if overrunDisabled then overrun else overrunCount != 0
    }

    /** jobstats_ringbuf_oldest_pos. */
    function OldestPos(): int {
      if writeCount == 0 then 0
      else if overrunDisabled || !HasOverrun() then 1
      else writeCount - Size() + 1
    }

    /** jobstats_ringbuf_lost_count. */
    function LostCount(): int {
      if !HasOverrun() then 0
      else if overrunDisabled then writeCount - Size()
      else OldestPos() - 1
    }

    /** The index of the `k`-th slot to be saved. */
    function SavedSlot(k: nat): nat {
      if overrunDisabled || !overrun then k
      else if next + k < Size() then next + k
      else if next + k < 2 * Size() then next + k - Size()
      else 0
    }

    /** Saving in that order yields exactly what is kept of the history. */
    lemma SavedSlotsAreKept(history: seq<JobStatistics>, k: nat)
      requires Refines(history) && k < Min(|history|, Size())
      ensures SavedSlot(k) < Size() && slots[SavedSlot(k)] == Kept(history, Size(), overrunDisabled)[k]
    {
      if overrunDisabled {
        assert slots[..next][k] == history[..next][k];
      } else if overrun {
        assert (slots[next..] + slots[..next])[k] == history[|history| - Size()..][k];
      }
    }

    function SaveStart(): nat {
      if overrunDisabled || !overrun then 0 else next
    }

    function SaveEnd(): nat {
      if !overrunDisabled && overrun && Size() == 1 then 1 else next
    }

    /** The index that starts at `SaveStart` and steps by one modulo the size runs through the saved slots, and
        meets `SaveEnd` after the last of them and not before. */
    lemma SavedSlotSteps(history: seq<JobStatistics>, k: nat)
      requires Refines(history) && k < Min(|history|, Size())
      ensures SavedSlot(0) == SaveStart() % Size()
      ensures SavedSlot(k) + 1 == SaveEnd() <==> k + 1 == Min(|history|, Size())
      ensures k + 1 < Min(|history|, Size()) ==> SavedSlot(k + 1) == (SavedSlot(k) + 1) % Size()
    {
      ModuloOnce(SaveStart(), Size());
      ModuloOnce(SavedSlot(k) + 1, Size());
    }

    /** The counters say what they are documented to say, in terms of the number of writes alone. */
    lemma Counters(history: seq<JobStatistics>)
      requires Refines(history)
      ensures overrun <==> writeCount > Size()
      ensures HasOverrun() <==> writeCount > Size()
      ensures OldestPos() == OldestOf(writeCount, Size(), overrunDisabled)
      ensures LostCount() == LostOf(writeCount, Size())
      ensures |Kept(history, Size(), overrunDisabled)| + LostCount() == writeCount
      ensures overrunCount == if overrunDisabled || writeCount == 0 then 0 else (writeCount - 1) / Size()
      ensures !overrunDisabled && writeCount >= 1 ==> OldestPos() == LostCount() + 1
    {
      if !overrunDisabled && writeCount >= 1 {
        SlotsIsProduct(overrunCount, Size());
        QuotientIs(writeCount - 1, Size(), overrunCount, next - 1);
      }
    }
  }

  /** The state after a write. */
  function Logged(r: Ring, x: JobStatistics): Ring
    requires 1 <= r.Size() && r.next <= r.Size()
  {
    if r.next < r.Size() then
      r.(slots := r.slots[r.next := x], next := r.next + 1, writeCount := r.writeCount + 1)
    else if r.overrunDisabled then
      r.(overrun := true, writeCount := r.writeCount + 1)
    else
      r.(slots := r.slots[0 := x], next := 1, overrun := true, overrunCount := r.overrunCount + 1,
         writeCount := r.writeCount + 1)
  }

  lemma LoggedRefinesFirst(r: Ring, history: seq<JobStatistics>, x: JobStatistics)
    requires r.Refines(history) && r.overrunDisabled
    ensures Logged(r, x).Refines(history + [x])
  {
    if r.next < r.Size() {
      assert Logged(r, x).slots[..r.next + 1] == r.slots[..r.next] + [x];
    } else {
      assert (history + [x])[..r.next] == history[..r.next];
    }
  }

  lemma LoggedRefinesLast(r: Ring, history: seq<JobStatistics>, x: JobStatistics)
    requires r.Refines(history) && !r.overrunDisabled && r.next < r.Size()
    ensures Logged(r, x).Refines(history + [x])
  {
    var l, m, h := Logged(r, x), r.Size(), history + [x];
    assert l.slots[..r.next + 1] == r.slots[..r.next] + [x];
    if r.overrun {
      assert l.slots[r.next + 1..] == (r.slots[r.next..] + r.slots[..r.next])[1..m - r.next];
      assert h[|h| - m..] == history[|history| - m..][1..] + [x];
    }
  }

  /** The write that wraps: a full ring is read from slot 0 on, so the oldest record is the one overwritten. */
  lemma LoggedRefinesWrap(r: Ring, history: seq<JobStatistics>, x: JobStatistics)
    requires r.Refines(history) && !r.overrunDisabled && r.next == r.Size()
    ensures Logged(r, x).Refines(history + [x])
  {
    var l, m, h := Logged(r, x), r.Size(), history + [x];
    assert r.slots == history[|history| - m..] by {
      assert r.slots == if r.overrun then r.slots[m..] + r.slots[..m] else r.slots[..m];
    }
    assert l.slots[1..] + l.slots[..1] == r.slots[1..] + [x];
    assert h[|h| - m..] == history[|history| - m..][1..] + [x];
  }

  /** A write appends to the history that the ring refines. */
  lemma LoggedRefines(r: Ring, history: seq<JobStatistics>, x: JobStatistics)
    requires r.Refines(history)
    ensures Logged(r, x).Refines(history + [x])
  {
    if r.overrunDisabled {
      LoggedRefinesFirst(r, history, x);
    } else if r.next < r.Size() {
      LoggedRefinesLast(r, history, x);
    } else {
      LoggedRefinesWrap(r, history, x);
    }
  }

  /** A new ring: no slot has been written. */
  function EmptyRing(m: nat, overrunDisabled: bool): Ring {
    Ring(seq(m, _ => JobStatistics(ZERO, ZERO)), 0, 0, overrunDisabled, false, 0)
  }

  /** The state of a ring of `m` slots into which `history` has been logged. */
  function RingAfter(m: nat, overrunDisabled: bool, history: seq<JobStatistics>): (r: Ring)
    requires m >= 1
    ensures r.Size() == m && r.next <= m && r.overrunDisabled == overrunDisabled
  {
    if history == [] then EmptyRing(m, overrunDisabled)
    else
      var n := |history| - 1;
      Logged(RingAfter(m, overrunDisabled, history[..n]), history[n])
  }

  /** Every reachable state refines what has been logged. */
  lemma {:induction false} RingAfterRefines(m: nat, overrunDisabled: bool, history: seq<JobStatistics>)
    requires m >= 1
    ensures RingAfter(m, overrunDisabled, history).Refines(history)
  {
    if history != [] {
      var n := |history| - 1;
      RingAfterRefines(m, overrunDisabled, history[..n]);
      LoggedRefines(RingAfter(m, overrunDisabled, history[..n]), history[..n], history[n]);
      assert history[..n] + [history[n]] == history;
    }
  }

  lemma RingAfterOneMore(m: nat, overrunDisabled: bool, history: seq<JobStatistics>, x: JobStatistics)
    requires m >= 1
    ensures RingAfter(m, overrunDisabled, history + [x]) == Logged(RingAfter(m, overrunDisabled, history), x)
  {
    assert (history + [x])[..|history|] == history;
  }

  lemma ModuloOnce(i: nat, m: nat)
    requires m >= 1
    ensures i < m ==> i % m == i
    ensures i == m ==> i % m == 0
  {
  }

  /** The number of slots written in `rounds` rounds. */
  function Slots(rounds: nat, m: nat): nat {
    if rounds == 0 then 0 else Slots(rounds - 1, m) + m
  }

  lemma {:induction false} SlotsIsProduct(rounds: nat, m: nat)
    ensures Slots(rounds, m) == rounds * m
  {
    if rounds > 0 {
      SlotsIsProduct(rounds - 1, m);
      assert rounds * m == (rounds - 1) * m + m;
    }
  }

  // ---------- the ring in memory ----------

  /** One run of a job: the two clock readings around its program, and how many of them failed. After a
      failed reading the slot holds whatever clock_gettime left in it, which is then the record. */
  datatype JobRun = JobRun(sample: JobStatistics, clockErrors: nat)

  class RingBuffer {
    const ringbuf: array<JobStatistics>
    const slotCount: nat
    const overrunDisabled: bool
    var next: nat
    var overrunCount: nat
    var overrun: bool
    var writeCount: nat
    ghost var history: seq<JobStatistics>

    /** jobstats_ringbuf_create, for a slot count that is not refused. */
    constructor (slots: nat, disableOverrun: bool)
      requires slots >= 1
      ensures Valid() && fresh(ringbuf)
      ensures history == [] && slotCount == slots && overrunDisabled == disableOverrun
    {
      ringbuf := new JobStatistics[slots](_ => JobStatistics(ZERO, ZERO));
      slotCount, next, overrunCount, writeCount := slots, 0, 0, 0;
      overrunDisabled, overrun := disableOverrun, false;
      history := [];
      new;
      assert ringbuf[..] == EmptyRing(slots, disableOverrun).slots;
    }

    function State(): Ring
      reads this, ringbuf
    {
      Ring(ringbuf[..], next, overrunCount, overrunDisabled, overrun, writeCount)
    }

    ghost predicate Valid()
      reads this, ringbuf
    {
      slotCount == ringbuf.Length >= 1 && State() == RingAfter(slotCount, overrunDisabled, history)
    }

    /** What a save of this ring is to write. */
    ghost function Saved(): seq<JobStatistics>
      reads this
    {
      Kept(history, slotCount, overrunDisabled)
    }

    /** The logging step of job_start. The slot is chosen before the program runs and filled around it. */
    method Log(sample: JobStatistics)
      requires Valid()
      modifies this, ringbuf
      ensures Valid()
      ensures State() == Logged(old(State()), sample)
      ensures history == old(history) + [sample]
    {
      RingAfterOneMore(slotCount, overrunDisabled, history, sample);
      history := history + [sample];
      if next == slotCount {
        if !overrun {
          overrun := true;
        }
        if !overrunDisabled {
          next := 0;
          overrunCount := overrunCount + 1;
          ringbuf[next] := sample;
          next := next + 1;
        }
      } else {
        ringbuf[next] := sample;
        next := next + 1;
      }
      writeCount := writeCount + 1;
    }

    /** jobstats_ringbuf_save. */
    method Save(h: Host, file: Stream)
      requires Valid()
      requires FitRecords(h, Saved())
      modifies file
      ensures file.data == old(file.data) + EncodeRecords(h, Saved())
      ensures file.pos == old(file.pos) && file.eof == old(file.eof)
    {
      RingAfterRefines(slotCount, overrunDisabled, history);
      if writeCount == 0 {
        return;
      }
      var i := if overrunDisabled || !overrun then 0 else next;
      var end := if !overrunDisabled && overrun && slotCount == 1 then 1 else next;
      ghost var order := SaveOrder(State(), history);
      SaveRound(h, ringbuf, i, end, file, order, Saved());
    }
  }

  /** The slots at the indices hold the records. */
  ghost predicate Visits(slots: seq<JobStatistics>, order: seq<nat>, records: seq<JobStatistics>) {
    |order| == |records| && forall k :: 0 <= k < |order| ==> order[k] < |slots| && slots[order[k]] == records[k]
  }

  /** The index after the last of them is `end`, and no index before it is. */
  ghost predicate EndsAt(order: seq<nat>, end: nat) {
    forall k :: 0 <= k < |order| ==> (order[k] + 1 == end <==> k + 1 == |order|)
  }

  /** Each index is the one before it plus one, modulo the size. */
  ghost predicate StepsModulo(order: seq<nat>, size: nat) {
    size >= 1 && forall k :: 0 <= k && k + 1 < |order| ==> order[k + 1] == (order[k] + 1) % size
  }

  function OrderOf(st: Ring, n: nat): (order: seq<nat>)
    ensures |order| == Min(n, st.Size())
    ensures forall k :: 0 <= k < |order| ==> order[k] == st.SavedSlot(k)
  {
    seq(Min(n, st.Size()), k requires 0 <= k => st.SavedSlot(k))
  }

  lemma OrderVisitsKept(st: Ring, history: seq<JobStatistics>)
    requires st.Refines(history)
    ensures Visits(st.slots, OrderOf(st, |history|), Kept(history, st.Size(), st.overrunDisabled))
  {
    forall k | 0 <= k < Min(|history|, st.Size())
      ensures st.SavedSlot(k) < st.Size()
      ensures st.slots[st.SavedSlot(k)] == Kept(history, st.Size(), st.overrunDisabled)[k]
    {
      st.SavedSlotsAreKept(history, k);
    }
  }

  lemma OrderEndsAt(st: Ring, history: seq<JobStatistics>)
    requires st.Refines(history)
    ensures EndsAt(OrderOf(st, |history|), st.SaveEnd())
  {
    forall k | 0 <= k < Min(|history|, st.Size())
      ensures st.SavedSlot(k) + 1 == st.SaveEnd() <==> k + 1 == Min(|history|, st.Size())
    {
      st.SavedSlotSteps(history, k);
    }
  }

  lemma OrderStepsModulo(st: Ring, history: seq<JobStatistics>)
    requires st.Refines(history)
    ensures StepsModulo(OrderOf(st, |history|), st.Size())
  {
    forall k | 0 <= k && k + 1 < Min(|history|, st.Size())
      ensures st.SavedSlot(k + 1) == (st.SavedSlot(k) + 1) % st.Size()
    {
      st.SavedSlotSteps(history, k);
    }
  }

  /** The slots that hold what is to be saved, in that order, are those which an index runs through that starts at
      `SaveStart`, steps by one modulo the size, and stops when it meets `SaveEnd`. */
  lemma SaveOrder(st: Ring, history: seq<JobStatistics>) returns (order: seq<nat>)
    requires st.Refines(history) && history != []
    ensures |order| == Min(|history|, st.Size()) >= 1
    ensures order[0] == st.SaveStart() % st.Size()
    ensures Visits(st.slots, order, Kept(history, st.Size(), st.overrunDisabled))
    ensures EndsAt(order, st.SaveEnd()) && StepsModulo(order, st.Size())
  {
    order := OrderOf(st, |history|);
    OrderVisitsKept(st, history);
    OrderEndsAt(st, history);
    OrderStepsModulo(st, history);
    st.SavedSlotSteps(history, 0);
  }

  /** The do-while of jobstats_ringbuf_save: the index is reduced modulo the slot count each time round. `order` is
      the sequence of slots it goes through. */
  method SaveRound(h: Host, ringbuf: array<JobStatistics>, start: nat, end: nat, file: Stream,
                   ghost order: seq<nat>, ghost saved: seq<JobStatistics>)
    requires ringbuf.Length >= 1 && |order| >= 1 && FitRecords(h, saved)
    requires order[0] == start % ringbuf.Length
    requires Visits(ringbuf[..], order, saved) && EndsAt(order, end) && StepsModulo(order, ringbuf.Length)
    modifies file
    ensures file.data == old(file.data) + EncodeRecords(h, saved)
    ensures file.pos == old(file.pos) && file.eof == old(file.eof)
  {
    var i := start;
    ghost var done, before := 0, file.data;
    NothingWritten(h, before, saved);
    while true
      invariant done < |saved|
      invariant i % ringbuf.Length == order[done]
      invariant file.data == Written(h, before, saved, done)
      invariant file.pos == old(file.pos) && file.eof == old(file.eof)
      decreases |saved| - done
    {
      i := i % ringbuf.Length;
      assert ringbuf[i] == saved[done];
      file.Fwrite(EncodeRecord(h, ringbuf[i]));
      OneMoreWritten(h, before, saved, done);
      i := i + 1;
      done := done + 1;
      if i == end {
        break;
      }
    }
    AllWritten(h, before, saved);
  }

  /** A file to which the first `k` records have been written. */
  ghost function Written(h: Host, before: seq<Byte>, rs: seq<JobStatistics>, k: nat): seq<Byte>
    requires FitRecords(h, rs) && k <= |rs|
  {
    before + EncodeRecords(h, Prefix(rs, k))
  }

  lemma NothingWritten(h: Host, before: seq<Byte>, rs: seq<JobStatistics>)
    requires FitRecords(h, rs)
    ensures Written(h, before, rs, 0) == before
  {
  }

  lemma OneMoreWritten(h: Host, before: seq<Byte>, rs: seq<JobStatistics>, k: nat)
    requires FitRecords(h, rs) && k < |rs|
    ensures Written(h, before, rs, k + 1) == Written(h, before, rs, k) + EncodeRecord(h, rs[k])
  {
    NextPrefix(h, rs, k);
    Regroup(before, EncodeRecords(h, Prefix(rs, k)), EncodeRecord(h, rs[k]));
  }

  lemma AllWritten(h: Host, before: seq<Byte>, rs: seq<JobStatistics>)
    requires FitRecords(h, rs)
    ensures Written(h, before, rs, |rs|) == before + EncodeRecords(h, rs)
  {
    assert Prefix(rs, |rs|) == rs;
  }

  ghost function Prefix(rs: seq<JobStatistics>, k: nat): (p: seq<JobStatistics>)
    requires k <= |rs|
    ensures forall h :: FitRecords(h, rs) ==> FitRecords(h, p)
  {
    rs[..k]
  }

  lemma NextPrefix(h: Host, rs: seq<JobStatistics>, k: nat)
    requires FitRecords(h, rs) && k < |rs|
    ensures EncodeRecords(h, Prefix(rs, k + 1)) == EncodeRecords(h, Prefix(rs, k)) + EncodeRecord(h, rs[k])
  {
    assert rs[..k + 1] == rs[..k] + [rs[k]];
    EncodeRecordsAppend(h, rs[..k], rs[k]);
  }

  /** job_start: a null log neither reads the clock nor records anything. */
  method JobStart(log: RingBuffer?, run: JobRun) returns (rc: nat)
    requires log != null ==> log.Valid()
    modifies if log == null then {} else {log, log.ringbuf}
    ensures log == null ==> rc == 0
    ensures log != null ==>
              && rc == run.clockErrors && log.Valid()
              && log.State() == Logged(old(log.State()), run.sample)
              && log.history == old(log.history) + [run.sample]
  {
    rc := 0;
    if log != null {
      log.Log(run.sample);
      rc := run.clockErrors;
    }
  }
}
