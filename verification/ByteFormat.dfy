/** The byte format of a task statistics file (task.h, job.h): how numbers, times and records become bytes
    in the host's order and widths, and back. */
module ByteFormat {
  import opened Common
  import opened Stdio
  import opened UtilityTime

  datatype ByteOrder = LittleEndian | BigEndian

  /** What the format takes from the host. `pointer` is what the header records as the width of unsigned
      long: the code applies sizeof to a pointer there. */
  datatype Host = Host(order: ByteOrder, tvSec: nat, tvNsec: nat, unsignedLong: nat, pointer: nat) {
    /** The widths of a host with at least 32-bit fields, each recorded in one byte. */
    predicate Valid() {
      4 <= tvSec < 256 && 4 <= tvNsec < 256 && 4 <= unsignedLong < 256 && 1 <= pointer < 256
    }
  }

  /** The number of values of an unsigned number of `w` bytes. */
  function Pow256(w: nat): (p: nat)
    ensures p >= 1
  {
    if w == 0 then 1 else 256 * Pow256(w - 1)
  }

  lemma {:induction false} Pow256Grows(v: nat, w: nat)
    requires v <= w
    ensures Pow256(v) <= Pow256(w)
  {
    if v < w {
      Pow256Grows(v, w - 1);
    }
  }

  lemma Pow256Of4()
    ensures Pow256(4) == 0x1_0000_0000
  {
    assert Pow256(1) == 256;
    assert Pow256(2) == 0x1_0000;
    assert Pow256(3) == 0x100_0000;
  }

  // ---------- numbers ----------

  function Digits(v: nat, w: nat): (s: seq<Byte>)
    ensures |s| == w
  {
    if w == 0 then [] else [v % 256] + Digits(v / 256, w - 1)
  }

  function FromDigits(s: seq<Byte>): (v: nat)
    ensures v < Pow256(|s|)
  {
    if s == [] then 0 else s[0] + 256 * FromDigits(s[1..])
  }

  lemma {:induction false} DigitsRoundTrip(v: nat, w: nat)
    requires v < Pow256(w)
    ensures FromDigits(Digits(v, w)) == v
  {
    if w > 0 {
      assert Digits(v, w)[1..] == Digits(v / 256, w - 1);
      DigitsRoundTrip(v / 256, w - 1);
    }
  }

  function Reverse(s: seq<Byte>): (r: seq<Byte>)
    ensures |r| == |s|
    ensures forall i :: 0 <= i < |s| ==> r[i] == s[|s| - 1 - i]
  {
    if s == [] then [] else Reverse(s[1..]) + [s[0]]
  }

  lemma ReverseTwice(s: seq<Byte>)
    ensures Reverse(Reverse(s)) == s
  {
  }

  /** An unsigned number of `w` bytes in the host's byte order. */
  function EncodeUnsigned(h: Host, v: nat, w: nat): (s: seq<Byte>)
    ensures |s| == w
  {
    if h.order == LittleEndian then Digits(v, w) else Reverse(Digits(v, w))
  }

  function DecodeUnsigned(h: Host, s: seq<Byte>): (v: nat)
    ensures v < Pow256(|s|)
  {
    if h.order == LittleEndian then FromDigits(s) else FromDigits(Reverse(s))
  }

  lemma UnsignedRoundTrip(h: Host, v: nat, w: nat)
    requires v < Pow256(w)
    ensures DecodeUnsigned(h, EncodeUnsigned(h, v, w)) == v
  {
    DigitsRoundTrip(v, w);
    ReverseTwice(Digits(v, w));
  }

  /** `v` fits in a two's complement number of `w` bytes. */
  predicate FitsSigned(v: int, w: nat) {
    0 <= 2 * v + Pow256(w) < 2 * Pow256(w)
  }

  function EncodeSigned(h: Host, v: int, w: nat): (s: seq<Byte>)
    requires FitsSigned(v, w)
    ensures |s| == w
  {
    EncodeUnsigned(h, if v < 0 then v + Pow256(w) else v, w)
  }

  function DecodeSigned(h: Host, s: seq<Byte>): int {
    var v := DecodeUnsigned(h, s);
    if 2 * v < Pow256(|s|) then v else v - Pow256(|s|)
  }

  lemma SignedRoundTrip(h: Host, v: int, w: nat)
    requires FitsSigned(v, w)
    ensures DecodeSigned(h, EncodeSigned(h, v, w)) == v
  {
    UnsignedRoundTrip(h, if v < 0 then v + Pow256(w) else v, w);
  }

  // ---------- job records: raw struct timespec pairs ----------

  datatype JobStatistics = JobStatistics(begin: Time, end: Time)

  predicate FitsTimespec(h: Host, t: Time) {
    FitsSigned(t.sec, h.tvSec) && FitsSigned(t.nsec, h.tvNsec)
  }

  predicate FitsRecord(h: Host, r: JobStatistics) {
    FitsTimespec(h, r.begin) && FitsTimespec(h, r.end)
  }

  function TimespecSize(h: Host): nat {
    h.tvSec + h.tvNsec
  }

  function RecordSize(h: Host): nat {
    2 * TimespecSize(h)
  }

  function EncodeTimespec(h: Host, t: Time): (s: seq<Byte>)
    requires FitsTimespec(h, t)
    ensures |s| == TimespecSize(h)
  {
    EncodeSigned(h, t.sec, h.tvSec) + EncodeSigned(h, t.nsec, h.tvNsec)
  }

  function DecodeTimespec(h: Host, s: seq<Byte>): Time
    requires |s| == TimespecSize(h)
  {
    Time(DecodeSigned(h, s[..h.tvSec]), DecodeSigned(h, s[h.tvSec..]))
  }

  lemma TimespecRoundTrip(h: Host, t: Time)
    requires FitsTimespec(h, t)
    ensures DecodeTimespec(h, EncodeTimespec(h, t)) == t
  {
    var a, b := EncodeSigned(h, t.sec, h.tvSec), EncodeSigned(h, t.nsec, h.tvNsec);
    assert (a + b)[..h.tvSec] == a && (a + b)[h.tvSec..] == b;
    SignedRoundTrip(h, t.sec, h.tvSec);
    SignedRoundTrip(h, t.nsec, h.tvNsec);
  }

  function EncodeRecord(h: Host, r: JobStatistics): (s: seq<Byte>)
    requires FitsRecord(h, r)
    ensures |s| == RecordSize(h)
  {
    EncodeTimespec(h, r.begin) + EncodeTimespec(h, r.end)
  }

  function DecodeRecord(h: Host, s: seq<Byte>): JobStatistics
    requires |s| == RecordSize(h)
  {
    JobStatistics(DecodeTimespec(h, s[..TimespecSize(h)]), DecodeTimespec(h, s[TimespecSize(h)..]))
  }

  lemma RecordRoundTrip(h: Host, r: JobStatistics)
    requires FitsRecord(h, r)
    ensures DecodeRecord(h, EncodeRecord(h, r)) == r
  {
    var a, b := EncodeTimespec(h, r.begin), EncodeTimespec(h, r.end);
    assert (a + b)[..TimespecSize(h)] == a && (a + b)[TimespecSize(h)..] == b;
    TimespecRoundTrip(h, r.begin);
    TimespecRoundTrip(h, r.end);
  }

  predicate FitRecords(h: Host, rs: seq<JobStatistics>) {
    forall i :: 0 <= i < |rs| ==> FitsRecord(h, rs[i])
  }

  function EncodeRecords(h: Host, rs: seq<JobStatistics>): (s: seq<Byte>)
    requires FitRecords(h, rs)
    ensures |s| == |rs| * RecordSize(h)
  {
    if rs == [] then []
    else
      OneMoreRecord(|rs|, RecordSize(h));
      EncodeRecord(h, rs[0]) + EncodeRecords(h, rs[1..])
  }

  lemma OneMoreRecord(n: nat, size: nat)
    requires n >= 1
    ensures n * size == size + (n - 1) * size
  {
  }

  /** One more record at the end of the file. */
  lemma {:induction false} EncodeRecordsAppend(h: Host, rs: seq<JobStatistics>, r: JobStatistics)
    requires FitRecords(h, rs + [r])
    ensures FitRecords(h, rs) && FitsRecord(h, r)
    ensures EncodeRecords(h, rs + [r]) == EncodeRecords(h, rs) + EncodeRecord(h, r)
  {
    assert (rs + [r])[|rs|] == r;
    assert forall i :: 0 <= i < |rs| ==> (rs + [r])[i] == rs[i];
    if rs == [] {
      assert (rs + [r])[1..] == [];
    } else {
      assert (rs + [r])[1..] == rs[1..] + [r];
      EncodeRecordsAppend(h, rs[1..], r);
    }
  }

  // ---------- the header ----------

  /** The theoretical parameters of a task. `name` is a C string, without its terminator. */
  datatype TaskParams = TaskParams(
    name: seq<Byte>, aperiodic: bool, disabled: bool,
    wcet: Time, period: Time, deadline: Time, t0: Time, offset: Time,
    jobStatisticsOverhead: Time, finishToStartOverhead: Time)

  datatype RingParams = RingParams(oldestJobPos: int, lostJobCount: int, writeCount: int)

  /** A time in the header takes two 32-bit fields; wider values are cut off. */
  function EncodeHeaderTime(h: Host, t: Time): (s: seq<Byte>)
    ensures |s| == 8
  {
    EncodeUnsigned(h, t.sec % 0x1_0000_0000, 4) + EncodeUnsigned(h, t.nsec % 0x1_0000_0000, 4)
  }

  function DecodeHeaderTime(h: Host, s: seq<Byte>): (t: Time)
    requires |s| == 8
    ensures 0 <= t.sec && 0 <= t.nsec
  {
    Time(DecodeUnsigned(h, s[..4]), DecodeUnsigned(h, s[4..]))
  }

  /** What 32-bit fields can carry of a time. */
  function Truncated(t: Time): Time {
    Time(t.sec % 0x1_0000_0000, t.nsec % 0x1_0000_0000)
  }

  lemma HeaderTimeRoundTrip(h: Host, t: Time)
    ensures DecodeHeaderTime(h, EncodeHeaderTime(h, t)) == Truncated(t)
  {
    Pow256Of4();
    var a, b := EncodeUnsigned(h, t.sec % 0x1_0000_0000, 4), EncodeUnsigned(h, t.nsec % 0x1_0000_0000, 4);
    assert (a + b)[..4] == a && (a + b)[4..] == b;
    UnsignedRoundTrip(h, t.sec % 0x1_0000_0000, 4);
    UnsignedRoundTrip(h, t.nsec % 0x1_0000_0000, 4);
  }

  function EncodeHeaderTimes(h: Host, ts: seq<Time>): (s: seq<Byte>)
    ensures |s| == 8 * |ts|
  {
    if ts == [] then [] else EncodeHeaderTime(h, ts[0]) + EncodeHeaderTimes(h, ts[1..])
  }

  /** The `i`-th time of a packed run of header times. */
  function HeaderTimeAt(h: Host, s: seq<Byte>, i: nat): Time
    requires 8 * (i + 1) <= |s|
  {
    DecodeHeaderTime(h, s[8 * i..8 * (i + 1)])
  }

  lemma SliceAfter(a: seq<Byte>, b: seq<Byte>, i: nat, j: nat)
    requires i <= j <= |b|
    ensures (a + b)[|a| + i..|a| + j] == b[i..j]
  {
  }

  lemma HeaderTimeAfter(h: Host, first: seq<Byte>, others: seq<Byte>, i: nat)
    requires |first| == 8 && 1 <= i && 8 * (i + 1) <= |first + others|
    ensures HeaderTimeAt(h, first + others, i) == HeaderTimeAt(h, others, i - 1)
  {
    SliceAfter(first, others, 8 * (i - 1), 8 * i);
  }

  lemma {:induction false} HeaderTimesRoundTrip(h: Host, ts: seq<Time>, rest: seq<Byte>, i: nat)
    requires i < |ts|
    ensures HeaderTimeAt(h, EncodeHeaderTimes(h, ts) + rest, i) == Truncated(ts[i])
  {
    var first, others := EncodeHeaderTime(h, ts[0]), EncodeHeaderTimes(h, ts[1..]);
    Regroup(first, others, rest);
    if i == 0 {
      assert (first + (others + rest))[0..8] == first;
      HeaderTimeRoundTrip(h, ts[0]);
    } else {
      HeaderTimesRoundTrip(h, ts[1..], rest, i - 1);
      HeaderTimeAfter(h, first, others + rest, i);
    }
  }

  const FIXED_HEADER := 66

  function OrderByte(o: ByteOrder): Byte {
    if o == LittleEndian then 0 else 1
  }

  function Flag(b: bool): Byte {
    if b then 1 else 0
  }

  function HeaderTimes(p: TaskParams): seq<Time> {
    [p.wcet, p.period, p.deadline, p.t0, p.offset, p.jobStatisticsOverhead, p.finishToStartOverhead]
  }

  function HeaderFlags(h: Host, p: TaskParams): (s: seq<Byte>)
    requires h.Valid()
    ensures |s| == 6
  {
    [OrderByte(h.order), h.tvSec, h.tvNsec, h.pointer, Flag(p.aperiodic), Flag(p.disabled)]
  }

  /** The packed task_statistics object followed by the name. */
  function EncodeHeader(h: Host, p: TaskParams): (s: seq<Byte>)
    requires h.Valid()
    ensures |s| == FIXED_HEADER + |p.name|
  {
    HeaderFlags(h, p) + EncodeHeaderTimes(h, HeaderTimes(p))
    + EncodeUnsigned(h, |p.name| % 0x1_0000_0000, 4) + p.name
  }

  function EncodePreamble(h: Host, r: RingParams): (s: seq<Byte>)
    requires 0 <= r.oldestJobPos && 0 <= r.lostJobCount && 0 <= r.writeCount
    ensures |s| == 3 * h.unsignedLong
  {
    EncodeUnsigned(h, r.oldestJobPos, h.unsignedLong) + EncodeUnsigned(h, r.lostJobCount, h.unsignedLong)
    + EncodeUnsigned(h, r.writeCount, h.unsignedLong)
  }

  function DecodePreamble(h: Host, s: seq<Byte>): RingParams
    requires |s| == 3 * h.unsignedLong
  {
    var u := h.unsignedLong;
    RingParams(DecodeUnsigned(h, s[..u]), DecodeUnsigned(h, s[u..2 * u]), DecodeUnsigned(h, s[2 * u..]))
  }

  lemma PreambleRoundTrip(h: Host, r: RingParams)
    requires 0 <= r.oldestJobPos < Pow256(h.unsignedLong)
    requires 0 <= r.lostJobCount < Pow256(h.unsignedLong)
    requires 0 <= r.writeCount < Pow256(h.unsignedLong)
    ensures DecodePreamble(h, EncodePreamble(h, r)) == r
  {
    var u := h.unsignedLong;
    var a, b, c := EncodeUnsigned(h, r.oldestJobPos, u), EncodeUnsigned(h, r.lostJobCount, u),
                   EncodeUnsigned(h, r.writeCount, u);
    assert (a + b + c)[..u] == a && (a + b + c)[u..2 * u] == b && (a + b + c)[2 * u..] == c;
    UnsignedRoundTrip(h, r.oldestJobPos, u);
    UnsignedRoundTrip(h, r.lostJobCount, u);
    UnsignedRoundTrip(h, r.writeCount, u);
  }

  // ---------- reading the header ----------

  /** The reader's binary compatibility check on the first four bytes. */
  predicate Compatible(h: Host, s: seq<Byte>)
    requires |s| >= FIXED_HEADER
  {
    s[0] == OrderByte(h.order) && s[1] == h.tvSec && s[2] == h.tvNsec && s[3] == h.pointer
  }

  function NameLength(h: Host, s: seq<Byte>): nat
    requires |s| >= FIXED_HEADER
  {
    DecodeUnsigned(h, s[62..66])
  }

  /** The parameters held in a header whose name is complete. */
  function DecodeHeader(h: Host, s: seq<Byte>): TaskParams
    requires |s| >= FIXED_HEADER && |s| - FIXED_HEADER >= NameLength(h, s)
  {
    var times := s[6..62];
    TaskParams(s[66..66 + NameLength(h, s)], s[4] != 0, s[5] != 0,
               HeaderTimeAt(h, times, 0), HeaderTimeAt(h, times, 1), HeaderTimeAt(h, times, 2),
               HeaderTimeAt(h, times, 3), HeaderTimeAt(h, times, 4), HeaderTimeAt(h, times, 5),
               HeaderTimeAt(h, times, 6))
  }

  /** What the header can carry of the parameters: 32-bit times. */
  function HeaderView(p: TaskParams): TaskParams {
    TaskParams(p.name, p.aperiodic, p.disabled, Truncated(p.wcet), Truncated(p.period), Truncated(p.deadline),
               Truncated(p.t0), Truncated(p.offset), Truncated(p.jobStatisticsOverhead),
               Truncated(p.finishToStartOverhead))
  }

  /** Reading a header looks at no more than the header. */
  lemma HeaderIsLocal(h: Host, a: seq<Byte>, s: seq<Byte>)
    requires FIXED_HEADER <= |a| <= |s| && a == s[..|a|]
    ensures Compatible(h, a) == Compatible(h, s) && NameLength(h, a) == NameLength(h, s)
    ensures |a| >= FIXED_HEADER + NameLength(h, a) ==> DecodeHeader(h, a) == DecodeHeader(h, s)
  {
    assert a[62..66] == s[62..66];
    assert a[6..62] == s[6..62];
    var n := NameLength(h, a);
    if |a| >= FIXED_HEADER + n {
      assert a[66..66 + n] == s[66..66 + n];
    }
  }

  predicate FitsHeader(t: Time) {
    0 <= t.sec < 0x1_0000_0000
  }

  /** A normalised time survives the header if and only if its seconds fit in 32 bits. */
  lemma TimeSurvivesHeader(h: Host, t: Time)
    requires t.Normal()
    ensures DecodeHeaderTime(h, EncodeHeaderTime(h, t)) == t <==> FitsHeader(t)
  {
    HeaderTimeRoundTrip(h, t);
  }

  /** The fixed part of a written header, seen as the first bytes of a longer or shorter file. */
  lemma FixedHeaderFacts(h: Host, p: TaskParams, s: seq<Byte>)
    requires h.Valid()
    requires |s| >= FIXED_HEADER && s[..FIXED_HEADER] == EncodeHeader(h, p)[..FIXED_HEADER]
    ensures Compatible(h, s)
    ensures s[4] == Flag(p.aperiodic) && s[5] == Flag(p.disabled)
    ensures NameLength(h, s) == |p.name| % 0x1_0000_0000
    ensures s[6..62] == EncodeHeaderTimes(h, HeaderTimes(p))
  {
    var e := EncodeHeader(h, p);
    var flags, times, len := HeaderFlags(h, p), EncodeHeaderTimes(h, HeaderTimes(p)),
                             EncodeUnsigned(h, |p.name| % 0x1_0000_0000, 4);
    assert e[..FIXED_HEADER] == flags + times + len;
    assert forall i :: 0 <= i < 6 ==> s[i] == s[..FIXED_HEADER][i] == flags[i];
    assert s[6..62] == s[..FIXED_HEADER][6..62] == times;
    assert s[62..66] == s[..FIXED_HEADER][62..66] == len;
    Pow256Of4();
    UnsignedRoundTrip(h, |p.name| % 0x1_0000_0000, 4);
  }

  lemma HeaderTimesComeBack(h: Host, p: TaskParams, times: seq<Byte>)
    requires times == EncodeHeaderTimes(h, HeaderTimes(p))
    ensures var ts := HeaderTimes(p);
            forall i :: 0 <= i < 7 ==> |times| == 56 && HeaderTimeAt(h, times, i) == Truncated(ts[i])
  {
    assert times == times + [];
    forall i | 0 <= i < 7
      ensures HeaderTimeAt(h, times, i) == Truncated(HeaderTimes(p)[i])
    {
      HeaderTimesRoundTrip(h, HeaderTimes(p), [], i);
    }
  }

  /** Whatever follows it, a header reads back as what the format can carry of the parameters. */
  lemma HeaderRoundTrip(h: Host, p: TaskParams, rest: seq<Byte>)
    requires h.Valid() && |p.name| < 0x1_0000_0000
    ensures var s := EncodeHeader(h, p) + rest;
            Compatible(h, s) && NameLength(h, s) == |p.name| && DecodeHeader(h, s) == HeaderView(p)
  {
    var e := EncodeHeader(h, p);
    var s := e + rest;
    assert s[..FIXED_HEADER] == e[..FIXED_HEADER];
    FixedHeaderFacts(h, p, s);
    assert s[66..66 + |p.name|] == p.name;
    HeaderTimesComeBack(h, p, s[6..62]);
  }

  // ---------- where everything stands ----------

  /** Byte `k` of `v`, counted from the lowest: shifted right by `k` bytes, the lowest one. */
  function ByteOf(v: int, k: nat): Byte
    decreases k
  {
    if k == 0 then v % 256 else ByteOf(v / 256, k - 1)
  }

  /** The lowest `w` bytes of `v`, in two's complement if it is negative, the lowest of them first or last. */
  function BytesOf(h: Host, v: int, w: nat): (s: seq<Byte>)
    ensures |s| == w
  {
    seq(w, i requires 0 <= i < w => ByteOf(v, if h.order == LittleEndian then i else w - 1 - i))
  }

  lemma {:induction false} DigitIs(v: nat, w: nat, i: nat)
    requires i < w
    ensures Digits(v, w)[i] == ByteOf(v, i)
  {
    if i > 0 {
      DigitIs(v / 256, w - 1, i - 1);
    }
  }

  lemma UnsignedLayout(h: Host, v: nat, w: nat)
    ensures EncodeUnsigned(h, v, w) == BytesOf(h, v, w)
  {
    forall i | 0 <= i < w
      ensures EncodeUnsigned(h, v, w)[i] == BytesOf(h, v, w)[i]
    {
      DigitIs(v, w, if h.order == LittleEndian then i else w - 1 - i);
    }
  }

  /** Higher bytes make no difference to lower ones. */
  lemma {:induction false} LowByte(v: int, m: int, w: nat, i: nat)
    requires i < w
    ensures ByteOf(v + m * Pow256(w), i) == ByteOf(v, i)
    decreases i
  {
    var q := m * Pow256(w - 1);
    assert m * (256 * Pow256(w - 1)) == 256 * q;
    assert (v + 256 * q) % 256 == v % 256 && (v + 256 * q) / 256 == v / 256 + q;
    if i > 0 {
      LowByte(v / 256, m, w - 1, i - 1);
    }
  }

  lemma LowBytes(h: Host, v: int, m: int, w: nat, x: int)
    requires x == v + m * Pow256(w)
    ensures BytesOf(h, x, w) == BytesOf(h, v, w)
  {
    forall i | 0 <= i < w
      ensures BytesOf(h, x, w)[i] == BytesOf(h, v, w)[i]
    {
      LowByte(v, m, w, if h.order == LittleEndian then i else w - 1 - i);
    }
  }

  /** The field of `w` bytes at `at` holds `v`. */
  predicate FieldAt(h: Host, s: seq<Byte>, at: nat, w: nat, v: int) {
    at + w <= |s| && s[at..at + w] == BytesOf(h, v, w)
  }

  /** The 32-bit fields of a time. */
  predicate TimeAt(h: Host, s: seq<Byte>, at: nat, t: Time) {
    FieldAt(h, s, at, 4, t.sec) && FieldAt(h, s, at + 4, 4, t.nsec)
  }

  /** The fields of a time in a record. */
  predicate TimespecAt(h: Host, s: seq<Byte>, at: nat, t: Time) {
    FieldAt(h, s, at, h.tvSec, t.sec) && FieldAt(h, s, at + h.tvSec, h.tvNsec, t.nsec)
  }

  lemma FieldBefore(h: Host, a: seq<Byte>, b: seq<Byte>, at: nat, w: nat, v: int)
    requires FieldAt(h, a, at, w, v)
    ensures FieldAt(h, a + b, at, w, v)
  {
    assert (a + b)[at..at + w] == a[at..at + w];
  }

  lemma FieldAfter(h: Host, a: seq<Byte>, b: seq<Byte>, at: nat, w: nat, v: int)
    requires FieldAt(h, b, at, w, v)
    ensures FieldAt(h, a + b, |a| + at, w, v)
  {
    SliceAfter(a, b, at, at + w);
  }

  lemma UnsignedAt(h: Host, v: nat, w: nat)
    ensures FieldAt(h, EncodeUnsigned(h, v, w), 0, w, v)
  {
    UnsignedLayout(h, v, w);
    TakeAll(EncodeUnsigned(h, v, w));
  }

  lemma CutOffAt(h: Host, v: int)
    ensures FieldAt(h, EncodeUnsigned(h, v % 0x1_0000_0000, 4), 0, 4, v)
  {
    Pow256Of4();
    UnsignedAt(h, v % 0x1_0000_0000, 4);
    LowBytes(h, v, 0 - v / 0x1_0000_0000, 4, v % 0x1_0000_0000);
  }

  lemma SignedAt(h: Host, v: int, w: nat)
    requires FitsSigned(v, w)
    ensures FieldAt(h, EncodeSigned(h, v, w), 0, w, v)
  {
    var x := if v < 0 then v + Pow256(w) else v;
    UnsignedAt(h, x, w);
    LowBytes(h, v, if v < 0 then 1 else 0, w, x);
  }

  /** Two fields in a row. */
  lemma TwoFields(h: Host, a: seq<Byte>, b: seq<Byte>, v: int, x: int)
    requires FieldAt(h, a, 0, |a|, v) && FieldAt(h, b, 0, |b|, x)
    ensures FieldAt(h, a + b, 0, |a|, v) && FieldAt(h, a + b, |a|, |b|, x)
  {
    FieldBefore(h, a, b, 0, |a|, v);
    FieldAfter(h, a, b, 0, |b|, x);
  }

  lemma HeaderTimeLayout(h: Host, t: Time)
    ensures TimeAt(h, EncodeHeaderTime(h, t), 0, t)
  {
    CutOffAt(h, t.sec);
    CutOffAt(h, t.nsec);
    TwoFields(h, EncodeUnsigned(h, t.sec % 0x1_0000_0000, 4), EncodeUnsigned(h, t.nsec % 0x1_0000_0000, 4), t.sec,
              t.nsec);
  }

  lemma TimeBefore(h: Host, a: seq<Byte>, b: seq<Byte>, at: nat, t: Time)
    requires TimeAt(h, a, at, t)
    ensures TimeAt(h, a + b, at, t)
  {
    FieldBefore(h, a, b, at, 4, t.sec);
    FieldBefore(h, a, b, at + 4, 4, t.nsec);
  }

  lemma TimeAfter(h: Host, a: seq<Byte>, b: seq<Byte>, at: nat, t: Time)
    requires TimeAt(h, b, at, t)
    ensures TimeAt(h, a + b, |a| + at, t)
  {
    FieldAfter(h, a, b, at, 4, t.sec);
    FieldAfter(h, a, b, at + 4, 4, t.nsec);
  }

  lemma {:induction false} HeaderTimesLayout(h: Host, ts: seq<Time>, i: nat)
    requires i < |ts|
    ensures TimeAt(h, EncodeHeaderTimes(h, ts), 8 * i, ts[i])
  {
    var first, others := EncodeHeaderTime(h, ts[0]), EncodeHeaderTimes(h, ts[1..]);
    if i == 0 {
      HeaderTimeLayout(h, ts[0]);
      TimeBefore(h, first, others, 0, ts[0]);
    } else {
      HeaderTimesLayout(h, ts[1..], i - 1);
      TimeAfter(h, first, others, 8 * (i - 1), ts[i]);
    }
  }

  predicate TimesAt(h: Host, s: seq<Byte>, p: TaskParams) {
    && TimeAt(h, s, 6, p.wcet) && TimeAt(h, s, 14, p.period) && TimeAt(h, s, 22, p.deadline)
    && TimeAt(h, s, 30, p.t0) && TimeAt(h, s, 38, p.offset)
    && TimeAt(h, s, 46, p.jobStatisticsOverhead) && TimeAt(h, s, 54, p.finishToStartOverhead)
  }

  predicate FlagsAt(h: Host, s: seq<Byte>, p: TaskParams) {
    && |s| >= 6
    && s[0] == (if h.order == LittleEndian then 0 else 1)
    && s[1] == h.tvSec && s[2] == h.tvNsec && s[3] == h.pointer
    && s[4] == (if p.aperiodic then 1 else 0) && s[5] == (if p.disabled then 1 else 0)
  }

  /** The first bytes of a file: the description of the host, the flags, seven times, the length of the name, and the
      name. */
  lemma HeaderLayout(h: Host, p: TaskParams, rest: seq<Byte>)
    requires h.Valid()
    ensures FlagsAt(h, EncodeHeader(h, p) + rest, p)
    ensures TimesAt(h, EncodeHeader(h, p) + rest, p)
    ensures FieldAt(h, EncodeHeader(h, p) + rest, 62, 4, |p.name|)
    ensures (EncodeHeader(h, p) + rest)[66..] == p.name + rest
  {
    var flags, times, len := HeaderFlags(h, p), EncodeHeaderTimes(h, HeaderTimes(p)),
                             EncodeUnsigned(h, |p.name| % 0x1_0000_0000, 4);
    TimesInOrder(h, p, flags, len + p.name + rest);
    CutOffAt(h, |p.name|);
    TakeAll(len);
    EndsOfHeader(flags, times, len, p.name, rest);
  }

  lemma EndsOfHeader(flags: seq<Byte>, times: seq<Byte>, len: seq<Byte>, name: seq<Byte>, rest: seq<Byte>)
    requires |flags| == 6 && |times| == 56 && |len| == 4
    ensures flags + times + len + name + rest == flags + times + (len + name + rest)
    ensures forall i :: 0 <= i < 6 ==> (flags + times + (len + name + rest))[i] == flags[i]
    ensures (flags + times + (len + name + rest))[62..66] == len
    ensures (flags + times + (len + name + rest))[66..] == name + rest
  {
  }

  lemma TimesInOrder(h: Host, p: TaskParams, flags: seq<Byte>, after: seq<Byte>)
    requires |flags| == 6
    ensures TimesAt(h, flags + EncodeHeaderTimes(h, HeaderTimes(p)) + after, p)
  {
    var ts := HeaderTimes(p);
    TimeInHeader(h, ts, flags, after, 0, 6);
    TimeInHeader(h, ts, flags, after, 1, 14);
    TimeInHeader(h, ts, flags, after, 2, 22);
    TimeInHeader(h, ts, flags, after, 3, 30);
    TimeInHeader(h, ts, flags, after, 4, 38);
    TimeInHeader(h, ts, flags, after, 5, 46);
    TimeInHeader(h, ts, flags, after, 6, 54);
  }

  lemma TimeInHeader(h: Host, ts: seq<Time>, flags: seq<Byte>, after: seq<Byte>, i: nat, at: nat)
    requires |flags| == 6 && i < |ts| && at == 6 + 8 * i
    ensures TimeAt(h, flags + EncodeHeaderTimes(h, ts) + after, at, ts[i])
  {
    var times := EncodeHeaderTimes(h, ts);
    HeaderTimesLayout(h, ts, i);
    TimeAfter(h, flags, times, 8 * i, ts[i]);
    TimeBefore(h, flags + times, after, at, ts[i]);
  }

  /** Behind the header: the number of the oldest job, the jobs lost, and the jobs logged. */
  lemma PreambleLayout(h: Host, r: RingParams)
    requires 0 <= r.oldestJobPos && 0 <= r.lostJobCount && 0 <= r.writeCount
    ensures var s, u := EncodePreamble(h, r), h.unsignedLong;
            && FieldAt(h, s, 0, u, r.oldestJobPos) && FieldAt(h, s, u, u, r.lostJobCount)
            && FieldAt(h, s, u + u, u, r.writeCount)
  {
    var u := h.unsignedLong;
    var a, b, c := EncodeUnsigned(h, r.oldestJobPos, u), EncodeUnsigned(h, r.lostJobCount, u),
                   EncodeUnsigned(h, r.writeCount, u);
    UnsignedAt(h, r.oldestJobPos, u);
    UnsignedAt(h, r.lostJobCount, u);
    UnsignedAt(h, r.writeCount, u);
    TwoFields(h, a, b, r.oldestJobPos, r.lostJobCount);
    FieldBefore(h, a + b, c, 0, u, r.oldestJobPos);
    FieldBefore(h, a + b, c, u, u, r.lostJobCount);
    FieldAfter(h, a + b, c, 0, u, r.writeCount);
  }

  lemma TimespecLayout(h: Host, t: Time)
    requires FitsTimespec(h, t)
    ensures TimespecAt(h, EncodeTimespec(h, t), 0, t)
  {
    SignedAt(h, t.sec, h.tvSec);
    SignedAt(h, t.nsec, h.tvNsec);
    TwoFields(h, EncodeSigned(h, t.sec, h.tvSec), EncodeSigned(h, t.nsec, h.tvNsec), t.sec, t.nsec);
  }

  lemma TwoTimespecs(h: Host, a: seq<Byte>, b: seq<Byte>, t: Time, u: Time)
    requires TimespecAt(h, a, 0, t) && TimespecAt(h, b, 0, u)
    ensures TimespecAt(h, a + b, 0, t) && TimespecAt(h, a + b, |a|, u)
  {
    FieldBefore(h, a, b, 0, h.tvSec, t.sec);
    FieldBefore(h, a, b, h.tvSec, h.tvNsec, t.nsec);
    FieldAfter(h, a, b, 0, h.tvSec, u.sec);
    FieldAfter(h, a, b, h.tvSec, h.tvNsec, u.nsec);
  }

  /** A record: the start and then the finish of a job, each with the nanoseconds behind the seconds. */
  lemma RecordLayout(h: Host, r: JobStatistics)
    requires FitsRecord(h, r)
    ensures TimespecAt(h, EncodeRecord(h, r), 0, r.begin)
    ensures TimespecAt(h, EncodeRecord(h, r), h.tvSec + h.tvNsec, r.end)
  {
    TimespecLayout(h, r.begin);
    TimespecLayout(h, r.end);
    TwoTimespecs(h, EncodeTimespec(h, r.begin), EncodeTimespec(h, r.end), r.begin, r.end);
  }
}
