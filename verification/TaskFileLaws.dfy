/** What reading a statistics file promises about how it was written: the round trip, repeated reads, and files that
    were cut short. */
module TaskFileLaws {
  import opened Common
  import opened Stdio
  import opened ByteFormat
  import opened UtilityTime
  import opened TaskFile
  import opened Job
  import opened Task

  /** The header, the preamble and the records of a task whose statistics are enabled. */
  function EnabledFile(h: Host, p: TaskParams, c: RingParams, records: seq<JobStatistics>): (file: seq<Byte>)
    requires h.Valid() && FitRecords(h, records)
    requires 0 <= c.oldestJobPos && 0 <= c.lostJobCount && 0 <= c.writeCount
    ensures |file| == RecordsStart(h, p) + |EncodeRecords(h, records)|
  {
    EncodeHeader(h, p) + EncodePreamble(h, c) + EncodeRecords(h, records)
  }

  /** Where the records start in such a file. */
  function RecordsStart(h: Host, p: TaskParams): nat {
    FIXED_HEADER + |p.name| + 3 * h.unsignedLong
  }

  predicate FitsUnsignedLong(h: Host, c: RingParams) {
    && 0 <= c.oldestJobPos < Pow256(h.unsignedLong)
    && 0 <= c.lostJobCount < Pow256(h.unsignedLong)
    && 0 <= c.writeCount < Pow256(h.unsignedLong)
  }

  function Flatten(chunks: seq<seq<Byte>>): seq<Byte> {
    if chunks == [] then [] else chunks[0] + Flatten(chunks[1..])
  }

  /** `chunks` are the encodings of `records`. */
  ghost predicate Encodes(h: Host, chunks: seq<seq<Byte>>, records: seq<JobStatistics>) {
    && |chunks| == |records|
    && (forall i :: 0 <= i < |chunks| ==>
          |chunks[i]| == RecordSize(h) && DecodeRecord(h, chunks[i]) == records[i])
  }

  lemma {:induction false} ChunksOf(h: Host, records: seq<JobStatistics>) returns (chunks: seq<seq<Byte>>)
    requires FitRecords(h, records)
    ensures Encodes(h, chunks, records) && Flatten(chunks) == EncodeRecords(h, records)
  {
    if records == [] {
      chunks := [];
    } else {
      var others := ChunksOf(h, records[1..]);
      chunks := [EncodeRecord(h, records[0])] + others;
      RecordRoundTrip(h, records[0]);
      assert chunks[1..] == others;
    }
  }

  /** Job records are handed out in order until the callback refuses one: that one is the last, and the code is -2.
      If it refuses none, all are handed out, and the code is 0 unless part of one more is left over. The callback has
      been given `done` of them before. */
  ghost predicate StopsAtRefusal(cb: Callbacks, t: ReadTask, done: nat, records: seq<JobStatistics>, leftOver: bool,
                                 r: Outcome) {
    && r.task == Some(t)
    && done <= |r.jobs| <= |records| && r.jobs == records[..|r.jobs|]
    && (forall n :: done < n < |r.jobs| ==> cb.onJob(t, records[..n]) == 0)
    && (r.code == -2 <==> done < |r.jobs| && cb.onJob(t, r.jobs) != 0)
    && (r.code != -2 ==> r.jobs == records && r.code == (if leftOver then -3 else 0))
  }

  /** What is handed out of a whole file: the task, and the records unless the callback refuses the task. */
  ghost predicate IsHandedOut(cb: Callbacks, t: ReadTask, records: seq<JobStatistics>, leftOver: bool, r: Outcome) {
    && r.task == Some(t)
    && (r.code == -1 <==> cb.onTask(t) != 0)
    && if r.code == -1 then r.jobs == [] else StopsAtRefusal(cb, t, 0, records, leftOver, r)
  }

  lemma AllAccepted(cb: Callbacks, t: ReadTask, records: seq<JobStatistics>, leftOver: bool, r: Outcome)
    requires AcceptAll(cb) && IsHandedOut(cb, t, records, leftOver, r)
    ensures r == Outcome(if leftOver then -3 else 0, Some(t), records)
  {
  }

  lemma {:induction false} ReadChunks(h: Host, cb: Callbacks, t: ReadTask, chunks: seq<seq<Byte>>,
                                      records: seq<JobStatistics>, tail: seq<Byte>, seen: seq<JobStatistics>)
    requires h.Valid() && Encodes(h, chunks, records)
    requires |tail| < RecordSize(h)
    ensures StopsAtRefusal(cb, t, |seen|, seen + records, tail != [], ReadJobs(h, cb, t, Flatten(chunks) + tail, seen))
    decreases |chunks|
  {
    if chunks == [] {
      assert Flatten(chunks) + tail == tail;
      assert seen + records == seen;
    } else {
      var now := seen + [records[0]];
      Regroup(chunks[0], Flatten(chunks[1..]), tail);
      ReadOneChunk(h, cb, t, chunks[0], records[0], Flatten(chunks[1..]) + tail, seen);
      MoveOver(seen, records);
      if cb.onJob(t, now) != 0 {
        RefusedAt(cb, t, seen, records, tail != []);
      } else {
        ReadChunks(h, cb, t, chunks[1..], records[1..], tail, now);
        AcceptedAt(cb, t, seen, records, tail != [], ReadJobs(h, cb, t, Flatten(chunks[1..]) + tail, now));
      }
    }
  }

  lemma RefusedAt(cb: Callbacks, t: ReadTask, seen: seq<JobStatistics>, records: seq<JobStatistics>, leftOver: bool)
    requires records != [] && cb.onJob(t, seen + [records[0]]) != 0
    ensures StopsAtRefusal(cb, t, |seen|, seen + records, leftOver, Outcome(-2, Some(t), seen + [records[0]]))
  {
    assert (seen + records)[..|seen| + 1] == seen + [records[0]];
  }

  lemma AcceptedAt(cb: Callbacks, t: ReadTask, seen: seq<JobStatistics>, records: seq<JobStatistics>, leftOver: bool,
                   r: Outcome)
    requires records != [] && cb.onJob(t, seen + [records[0]]) == 0
    requires StopsAtRefusal(cb, t, |seen| + 1, seen + records, leftOver, r)
    ensures StopsAtRefusal(cb, t, |seen|, seen + records, leftOver, r)
  {
    assert (seen + records)[..|seen| + 1] == seen + [records[0]];
  }

  lemma ReadOneChunk(h: Host, cb: Callbacks, t: ReadTask, chunk: seq<Byte>, record: JobStatistics, rest: seq<Byte>,
                     seen: seq<JobStatistics>)
    requires h.Valid()
    requires |chunk| == RecordSize(h) && DecodeRecord(h, chunk) == record
    ensures ReadJobs(h, cb, t, chunk + rest, seen)
            == if cb.onJob(t, seen + [record]) != 0 then Outcome(-2, Some(t), seen + [record])
               else ReadJobs(h, cb, t, rest, seen + [record])
  {
    SplitAfter(chunk, rest);
  }

  lemma MoveOver(seen: seq<JobStatistics>, records: seq<JobStatistics>)
    requires records != []
    ensures seen + [records[0]] + records[1..] == seen + records
  {
  }

  lemma SplitAfter(a: seq<Byte>, b: seq<Byte>)
    ensures (a + b)[..|a|] == a && (a + b)[|a|..] == b
  {
  }

  /** Reading whole records followed by less than one more. */
  lemma ReadRecords(h: Host, cb: Callbacks, t: ReadTask, records: seq<JobStatistics>, tail: seq<Byte>)
    requires h.Valid() && FitRecords(h, records)
    requires |tail| < RecordSize(h)
    ensures StopsAtRefusal(cb, t, 0, records, tail != [], ReadJobs(h, cb, t, EncodeRecords(h, records) + tail, []))
  {
    var chunks := ChunksOf(h, records);
    ReadChunks(h, cb, t, chunks, records, tail, []);
    assert [] + records == records;
  }

  /** Any first part of written records is some whole records followed by less than one more. */
  lemma {:induction false} SplitRecords(h: Host, records: seq<JobStatistics>, n: nat)
      returns (whole: nat, tail: seq<Byte>)
    requires h.Valid() && FitRecords(h, records) && n <= |EncodeRecords(h, records)|
    ensures whole <= |records| && |tail| < RecordSize(h) && n == whole * RecordSize(h) + |tail|
    ensures FitRecords(h, records[..whole])
    ensures EncodeRecords(h, records)[..n] == EncodeRecords(h, records[..whole]) + tail
  {
    var size := RecordSize(h);
    if n < size {
      whole, tail := 0, EncodeRecords(h, records)[..n];
    } else {
      var w;
      w, tail := SplitRecords(h, records[1..], n - size);
      whole := w + 1;
      OneMoreRecord(whole, size);
      TakeTail(records, w);
      SplitFirst(h, records, n, whole, tail);
    }
  }

  lemma SplitFirst(h: Host, records: seq<JobStatistics>, n: nat, whole: nat, tail: seq<Byte>)
    requires FitRecords(h, records) && records != [] && 1 <= whole <= |records|
    requires RecordSize(h) <= n <= |EncodeRecords(h, records)| && FitRecords(h, records[1..][..whole - 1])
    requires EncodeRecords(h, records[1..])[..n - RecordSize(h)] == EncodeRecords(h, records[1..][..whole - 1]) + tail
    ensures FitRecords(h, records[..whole])
    ensures EncodeRecords(h, records)[..n] == EncodeRecords(h, records[..whole]) + tail
  {
    var first, others := EncodeRecord(h, records[0]), EncodeRecords(h, records[1..]);
    TakeTail(records, whole - 1);
    TakeOver(first, others, n - RecordSize(h));
    Regroup(first, EncodeRecords(h, records[1..][..whole - 1]), tail);
  }

  lemma TakeTail<T>(s: seq<T>, n: nat)
    requires s != [] && n <= |s| - 1
    ensures s[..n + 1] != [] && s[..n + 1][0] == s[0] && s[..n + 1][1..] == s[1..][..n]
  {
  }

  lemma TakeOver<T>(a: seq<T>, b: seq<T>, n: nat)
    requires n <= |b|
    ensures (a + b)[..|a| + n] == a + b[..n]
  {
  }

  /** The task that is handed out for such a file. */
  function TaskHandedOut(p: TaskParams, c: RingParams): ReadTask {
    ReadTask(HeaderView(p), c)
  }

  lemma RegroupFour(a: seq<Byte>, b: seq<Byte>, c: seq<Byte>, d: seq<Byte>)
    ensures a + b + c + d == a + (b + (c + d))
  {
  }

  lemma CutLastPart(a: seq<Byte>, b: seq<Byte>, k: nat, c: seq<Byte>, d: seq<Byte>)
    requires k <= |b| && b[..k] == c + d
    ensures (a + b)[..|a| + k] == a + c + d
  {
  }

  lemma ReadHeader(h: Host, cb: Callbacks, p: TaskParams, rest: seq<Byte>)
    requires h.Valid() && |p.name| <= LONGEST_NAME
    ensures Read(h, cb, EncodeHeader(h, p) + rest) == ReadAfterHeader(h, cb, HeaderView(p), rest)
  {
    var s := EncodeHeader(h, p) + rest;
    HeaderRoundTrip(h, p, rest);
    assert s[FIXED_HEADER + |p.name|..] == rest;
  }

  lemma ReadPreamble(h: Host, cb: Callbacks, p: TaskParams, c: RingParams, rest: seq<Byte>)
    requires h.Valid() && !p.disabled && FitsUnsignedLong(h, c)
    ensures ReadAfterHeader(h, cb, p, EncodePreamble(h, c) + rest)
            == if cb.onTask(ReadTask(p, c)) != 0 then Outcome(-1, Some(ReadTask(p, c)), [])
               else ReadJobs(h, cb, ReadTask(p, c), rest, [])
  {
    var s, size := EncodePreamble(h, c) + rest, 3 * h.unsignedLong;
    assert s[..size] == EncodePreamble(h, c) && s[size..] == rest;
    PreambleRoundTrip(h, c);
  }

  /** Reading what follows the header, up to whole records and less than one more. */
  lemma ReadBody(h: Host, cb: Callbacks, p: TaskParams, c: RingParams, records: seq<JobStatistics>, tail: seq<Byte>)
    requires h.Valid() && FitRecords(h, records) && FitsUnsignedLong(h, c) && !p.disabled
    requires |tail| < RecordSize(h)
    ensures IsHandedOut(cb, ReadTask(p, c), records, tail != [],
                        ReadAfterHeader(h, cb, p, EncodePreamble(h, c) + (EncodeRecords(h, records) + tail)))
  {
    ReadPreamble(h, cb, p, c, EncodeRecords(h, records) + tail);
    ReadRecords(h, cb, ReadTask(p, c), records, tail);
  }

  /** Reading a header and preamble followed by whole records and less than one more, whatever the callbacks refuse. */
  lemma ReadEnabledFile(h: Host, cb: Callbacks, p: TaskParams, c: RingParams, records: seq<JobStatistics>,
                        tail: seq<Byte>)
    requires h.Valid() && FitRecords(h, records) && FitsUnsignedLong(h, c)
    requires |p.name| <= LONGEST_NAME && !p.disabled
    requires |tail| < RecordSize(h)
    ensures IsHandedOut(cb, TaskHandedOut(p, c), records, tail != [],
                        Read(h, cb, EnabledFile(h, p, c, records) + tail))
  {
    var preamble, body := EncodePreamble(h, c), EncodeRecords(h, records);
    RegroupFour(EncodeHeader(h, p), preamble, body, tail);
    ReadHeader(h, cb, p, preamble + (body + tail));
    ReadBody(h, cb, HeaderView(p), c, records, tail);
  }

  /** A statistics file cut before its records: nothing is handed out, and a file with nothing in it is told apart. */
  lemma CutBeforeRecords(h: Host, cb: Callbacks, p: TaskParams, c: RingParams, records: seq<JobStatistics>, n: nat)
    requires h.Valid() && FitRecords(h, records) && FitsUnsignedLong(h, c)
    requires |p.name| <= LONGEST_NAME && !p.disabled
    requires n < RecordsStart(h, p)
    ensures n <= |EnabledFile(h, p, c, records)|
    ensures Read(h, cb, EnabledFile(h, p, c, records)[..n]) == Outcome(if n == 0 then -4 else -3, None, [])
  {
    var header, rest := EncodeHeader(h, p), EncodePreamble(h, c) + EncodeRecords(h, records);
    assert EnabledFile(h, p, c, records) == header + rest;
    if n == 0 {
    } else if n < |header| {
      assert (header + rest)[..n] == header[..n];
      ReadCutHeader(h, cb, p, n);
    } else {
      assert (header + rest)[..n] == header + rest[..n - |header|];
      ReadHeader(h, cb, p, rest[..n - |header|]);
    }
  }

  lemma TakeTwice(s: seq<Byte>, n: nat, k: nat)
    requires k <= n <= |s|
    ensures s[..n][..k] == s[..k]
  {
  }

  lemma ReadCutHeader(h: Host, cb: Callbacks, p: TaskParams, n: nat)
    requires h.Valid() && |p.name| <= LONGEST_NAME
    requires 0 < n < |EncodeHeader(h, p)|
    ensures Read(h, cb, EncodeHeader(h, p)[..n]) == Outcome(-3, None, [])
  {
    var header := EncodeHeader(h, p);
    if FIXED_HEADER <= n {
      TakeTwice(header, n, FIXED_HEADER);
      FixedHeaderFacts(h, p, header[..n]);
      assert |header[..n]| - FIXED_HEADER < |p.name| == NameLength(h, header[..n]);
    }
  }

  /** A statistics file cut `k` bytes into its records: the whole records it holds are handed out unless the callbacks
      refuse. It reads successfully exactly when it was cut between two records (or not at all), otherwise the result
      is -3. Together with the previous lemma this covers every cut. */
  lemma CutInRecords(h: Host, cb: Callbacks, p: TaskParams, c: RingParams, records: seq<JobStatistics>, k: nat)
    requires h.Valid() && FitRecords(h, records) && FitsUnsignedLong(h, c)
    requires |p.name| <= LONGEST_NAME && !p.disabled
    requires k <= |EncodeRecords(h, records)|
    ensures RecordSize(h) > 0 && 0 <= k / RecordSize(h) <= |records|
    ensures IsHandedOut(cb, TaskHandedOut(p, c), records[..k / RecordSize(h)], k % RecordSize(h) != 0,
                        Read(h, cb, EnabledFile(h, p, c, records)[..RecordsStart(h, p) + k]))
    ensures AcceptAll(cb) ==>
              Read(h, cb, EnabledFile(h, p, c, records)[..RecordsStart(h, p) + k])
              == Outcome(if k % RecordSize(h) == 0 then 0 else -3, Some(TaskHandedOut(p, c)),
                         records[..k / RecordSize(h)])
  {
    var whole, tail := SplitRecordsAt(h, records, k);
    ReadCutRecords(h, cb, p, c, records, k, whole, tail);
    if AcceptAll(cb) {
      AllAccepted(cb, TaskHandedOut(p, c), records[..whole], tail != [],
                  Read(h, cb, EnabledFile(h, p, c, records)[..RecordsStart(h, p) + k]));
    }
  }

  lemma SplitRecordsAt(h: Host, records: seq<JobStatistics>, k: nat) returns (whole: nat, tail: seq<Byte>)
    requires h.Valid() && FitRecords(h, records) && k <= |EncodeRecords(h, records)|
    ensures RecordSize(h) > 0 && whole == k / RecordSize(h) <= |records| && |tail| == k % RecordSize(h) < RecordSize(h)
    ensures FitRecords(h, records[..whole])
    ensures EncodeRecords(h, records)[..k] == EncodeRecords(h, records[..whole]) + tail
  {
    whole, tail := SplitRecords(h, records, k);
    DivisionIs(k, RecordSize(h), whole, |tail|);
  }

  lemma ReadCutRecords(h: Host, cb: Callbacks, p: TaskParams, c: RingParams, records: seq<JobStatistics>, k: nat,
                       whole: nat, tail: seq<Byte>)
    requires h.Valid() && FitRecords(h, records) && FitsUnsignedLong(h, c)
    requires |p.name| <= LONGEST_NAME && !p.disabled
    requires k <= |EncodeRecords(h, records)| && whole <= |records|
    requires FitRecords(h, records[..whole]) && |tail| < RecordSize(h)
    requires EncodeRecords(h, records)[..k] == EncodeRecords(h, records[..whole]) + tail
    ensures IsHandedOut(cb, TaskHandedOut(p, c), records[..whole], tail != [],
                        Read(h, cb, EnabledFile(h, p, c, records)[..RecordsStart(h, p) + k]))
  {
    EnabledFileCut(h, p, c, records, whole, k, tail);
    ReadEnabledFile(h, cb, p, c, records[..whole], tail);
  }

  lemma EnabledFileCut(h: Host, p: TaskParams, c: RingParams, records: seq<JobStatistics>, whole: nat, k: nat,
                       tail: seq<Byte>)
    requires h.Valid() && FitRecords(h, records) && FitsUnsignedLong(h, c)
    requires whole <= |records| && FitRecords(h, records[..whole]) && k <= |EncodeRecords(h, records)|
    requires EncodeRecords(h, records)[..k] == EncodeRecords(h, records[..whole]) + tail
    ensures EnabledFile(h, p, c, records)[..RecordsStart(h, p) + k] == EnabledFile(h, p, c, records[..whole]) + tail
  {
    CutLastPart(EncodeHeader(h, p) + EncodePreamble(h, c), EncodeRecords(h, records), k,
                EncodeRecords(h, records[..whole]), tail);
  }

  /** The round trip: what a task wrote, in any host's format, comes back whole, up to what the callbacks refuse. */
  lemma FileRoundTrip(h: Host, cb: Callbacks, p: TaskParams, m: nat, overrunDisabled: bool, history: seq<JobStatistics>)
    requires h.Valid() && FitRecords(h, history)
    requires m >= 1 && |p.name| <= LONGEST_NAME
    requires |history| < Pow256(h.unsignedLong)
    ensures var t := TaskHandedOut(p.(disabled := false), RingCounters(|history|, m, overrunDisabled));
            var r := Read(h, cb, StatisticsFile(h, p, m, overrunDisabled, history));
            && IsHandedOut(cb, t, Kept(history, m, overrunDisabled), false, r)
            && (AcceptAll(cb) ==> r == Outcome(0, Some(t), Kept(history, m, overrunDisabled)))
  {
    var c, kept, q := RingCounters(|history|, m, overrunDisabled), Kept(history, m, overrunDisabled),
                      p.(disabled := false);
    var file := EnabledFile(h, q, c, kept);
    ReadEnabledFile(h, cb, q, c, kept, []);
    assert file + [] == file;
    if AcceptAll(cb) {
      AllAccepted(cb, TaskHandedOut(q, c), kept, false, Read(h, cb, file));
    }
  }

  predicate AllTimes(p: TaskParams, good: Time -> bool) {
    good(p.wcet) && good(p.period) && good(p.deadline) && good(p.t0) && good(p.offset)
    && good(p.jobStatisticsOverhead) && good(p.finishToStartOverhead)
  }

  /** The parameters come back unchanged exactly when every time has seconds that fit 32 bits. */
  lemma ParametersSurvive(p: TaskParams)
    requires AllTimes(p, (t: Time) => t.Normal())
    ensures HeaderView(p) == p <==> AllTimes(p, FitsHeader)
  {
  }

  /** Of a task with disabled statistics the parameters come back, but the read never succeeds. */
  lemma DisabledFileIsNeverReadSuccessfully(h: Host, cb: Callbacks, p: TaskParams, overrunDisabled: bool,
                                            history: seq<JobStatistics>)
    requires h.Valid() && FitRecords(h, history) && |p.name| <= LONGEST_NAME
    ensures var r := Read(h, cb, StatisticsFile(h, p, 0, overrunDisabled, history));
            && r.task.Some? && r.task.value.params == HeaderView(p.(disabled := true))
            && r.task.value.ring.oldestJobPos == Pow256(h.unsignedLong) - 1
            && r.task.value.ring.lostJobCount == Pow256(h.unsignedLong) - 1
            && r.task.value.ring.writeCount == Pow256(h.unsignedLong) - 1
            && r.code == (if cb.onTask(r.task.value) != 0 then -1 else -3) && r.jobs == []
  {
    var q := p.(disabled := true);
    HeaderRoundTrip(h, q, []);
    assert EncodeHeader(h, q) + [] == EncodeHeader(h, q);
  }

  /** A file from a host with another byte order or other widths is refused before any callback is made. */
  lemma ForeignFileIsRefused(h: Host, g: Host, cb: Callbacks, p: TaskParams, rest: seq<Byte>)
    requires h.Valid() && g.Valid()
    requires (h.order, h.tvSec, h.tvNsec, h.pointer) != (g.order, g.tvSec, g.tvNsec, g.pointer)
    ensures Read(h, cb, EncodeHeader(g, p) + rest) == Outcome(-3, None, [])
  {
    var s := EncodeHeader(g, p) + rest;
    assert s[..FIXED_HEADER] == EncodeHeader(g, p)[..FIXED_HEADER];
    FixedHeaderFacts(g, p, s);
  }

  /** A first read of a whole file succeeds and leaves the stream at its end, where a second read finds nothing. */
  method ReadTwice(h: Host, cb: Callbacks, p: TaskParams, m: nat, overrunDisabled: bool,
                   ghost history: seq<JobStatistics>, file: Stream) returns (first: Outcome, second: Outcome)
    requires h.Valid() && FitRecords(h, history) && AcceptAll(cb)
    requires m >= 1 && |p.name| <= LONGEST_NAME && |history| < Pow256(h.unsignedLong)
    requires file.data == StatisticsFile(h, p, m, overrunDisabled, history) && file.pos == 0 && !file.eof
    modifies file
    ensures first.code == 0 && first.jobs == Kept(history, m, overrunDisabled)
    ensures second == Outcome(-4, None, [])
  {
    FileRoundTrip(h, cb, p, m, overrunDisabled, history);
    assert file.data[0..] == file.data;
    first := TaskStatisticsRead(h, cb, file);
    second := TaskStatisticsRead(h, cb, file);
  }
}
