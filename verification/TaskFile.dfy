/** Reading a task statistics file (task.c, job.c, utility_file.c).

    `Read` says what a whole read amounts to on the bytes of the file; the methods below go through the file with a
    cursor and an end-of-file flag and are proved to amount to the same. The lemmas say that reading undoes writing,
    and what a file that was cut short reads as.
 */
module TaskFile {
  import opened Stdio
  import opened ByteFormat

  /** The longest name that can be read: the reader makes room for one byte more, counted in 32 bits. */
  const LONGEST_NAME: nat := 0xFFFF_FFFE

  /** The task object handed to the task callback: parameters and ring counters. */
  datatype ReadTask = ReadTask(params: TaskParams, ring: RingParams)

  /** The callbacks, as what they return: the task callback for the task it is given, the job callback for the
      records it has been given so far, the last one being the current one. */
  datatype Callbacks = Callbacks(onTask: ReadTask -> int, onJob: (ReadTask, seq<JobStatistics>) -> int)

  ghost predicate AcceptAll(cb: Callbacks) {
    && (forall t :: cb.onTask(t) == 0)
    && (forall t, jobs :: cb.onJob(t, jobs) == 0)
  }

  /** The exit code, the task that was handed out, and the records that were handed out. */
  datatype Outcome = Outcome(code: int, task: Option<ReadTask>, jobs: seq<JobStatistics>)

  /** The ring counters of a task whose statistics are disabled: (unsigned long) -1. */
  function NoRing(h: Host): RingParams {
    var top := Pow256(h.unsignedLong) - 1;
    RingParams(top, top, top)
  }

  function ReadJobs(h: Host, cb: Callbacks, t: ReadTask, s: seq<Byte>, seen: seq<JobStatistics>): Outcome
    requires h.Valid()
    decreases |s|
  {
    if s == [] then Outcome(0, Some(t), seen)
    else if |s| < RecordSize(h) then Outcome(-3, Some(t), seen)
    else
      var jobs := seen + [DecodeRecord(h, s[..RecordSize(h)])];
      if cb.onJob(t, jobs) != 0 then Outcome(-2, Some(t), jobs)
      else ReadJobs(h, cb, t, s[RecordSize(h)..], jobs)
  }

  /** Everything after the header. The exit code stays at -3 when there are no job statistics to read. */
  function ReadAfterHeader(h: Host, cb: Callbacks, p: TaskParams, s: seq<Byte>): Outcome
    requires h.Valid()
  {
    if p.disabled then
      var t := ReadTask(p, NoRing(h));
      Outcome(if cb.onTask(t) != 0 then -1 else -3, Some(t), [])
    else if |s| < 3 * h.unsignedLong then Outcome(-3, None, [])
    else
      var t := ReadTask(p, DecodePreamble(h, s[..3 * h.unsignedLong]));
      if cb.onTask(t) != 0 then Outcome(-1, Some(t), [])
      else ReadJobs(h, cb, t, s[3 * h.unsignedLong..], [])
  }

  /** task_statistics_read on the bytes of a file whose end has not been hit yet. */
  function Read(h: Host, cb: Callbacks, s: seq<Byte>): Outcome
    requires h.Valid()
  {
    if s == [] then Outcome(-4, None, [])
    else if |s| < FIXED_HEADER || !Compatible(h, s) || |s| - FIXED_HEADER < NameLength(h, s) then
      Outcome(-3, None, [])
    else ReadAfterHeader(h, cb, DecodeHeader(h, s), s[FIXED_HEADER + NameLength(h, s)..])
  }

  // ---------- reading through a stream ----------

  /** utility_file_read_bin: 0, or -1 at the end of the file, or -2 with the bytes of a short read. */
  method FileReadBin(file: Stream, len: nat) returns (rc: int, got: seq<Byte>)
    requires file.Valid()
    modifies file
    ensures file.Valid() && file.data == old(file.data)
    ensures file.pos == old(file.pos) + |got|
    ensures old(file.eof) ==> rc == -1 && got == [] && file.eof
    ensures !old(file.eof) ==>
              && got == (if len <= |old(file.Remaining())| then old(file.Remaining())[..len] else old(file.Remaining()))
              && file.Remaining() == old(file.Remaining())[|got|..]
              && rc == (if |got| == len then 0 else -2)
              && file.eof == (rc != 0)
  {
    if file.eof {
      return -1, [];
    }
    got := file.Fread(len);
    rc := if |got| != len then -2 else 0;
  }

  /** job_statistics_read: 0 with a record, -1 if there is none left, -2 if only part of one is left. */
  method JobStatisticsRead(h: Host, file: Stream) returns (rc: int, stats: Option<JobStatistics>)
    requires h.Valid() && file.Valid()
    modifies file
    ensures file.Valid() && file.data == old(file.data)
    ensures file.pos >= old(file.pos) && (rc == 0 ==> file.pos > old(file.pos))
    ensures old(file.eof) ==> rc == -1 && file.eof
    ensures !old(file.eof) ==>
              var s := old(file.Remaining());
              if s == [] then rc == -1 && file.eof
              else if |s| < RecordSize(h) then rc == -2
              else rc == 0 && stats == Some(DecodeRecord(h, s[..RecordSize(h)]))
                   && file.Remaining() == s[RecordSize(h)..] && !file.eof
  {
    stats := None;
    var code, got := FileReadBin(file, RecordSize(h));
    if code == -2 && |got| != 0 {
      return -2, stats;
    } else if code != 0 {
      return -1, stats;
    }
    rc, stats := 0, Some(DecodeRecord(h, got));
  }

  /** The loop over the job records. */
  method ReadJobRecords(h: Host, cb: Callbacks, t: ReadTask, file: Stream) returns (r: Outcome)
    requires h.Valid() && file.Valid() && !file.eof
    modifies file
    ensures file.Valid() && file.data == old(file.data)
    ensures r == ReadJobs(h, cb, t, old(file.Remaining()), [])
    ensures r.code == 0 ==> file.eof
  {
    var jobs := [];
    var rc, stats := JobStatisticsRead(h, file);
    while rc == 0
      invariant file.Valid() && file.data == old(file.data)
      invariant rc == 0 ==>
                  && stats.Some? && !file.eof
                  && ReadJobs(h, cb, t, old(file.Remaining()), [])
                     == (var now := jobs + [stats.value];
                         if cb.onJob(t, now) != 0 then Outcome(-2, Some(t), now)
                         else ReadJobs(h, cb, t, file.Remaining(), now))
      invariant rc == -1 ==> file.eof
      invariant rc != 0 ==> ReadJobs(h, cb, t, old(file.Remaining()), [])
                            == Outcome(if rc == -1 then 0 else -3, Some(t), jobs)
      decreases |file.data| - file.pos, rc == 0
    {
      jobs := jobs + [stats.value];
      if cb.onJob(t, jobs) != 0 {
        return Outcome(-2, Some(t), jobs);
      }
      rc, stats := JobStatisticsRead(h, file);
    }
    r := Outcome(if rc == -1 then 0 else -3, Some(t), jobs);
  }

  /** task_statistics_read. */
  method TaskStatisticsRead(h: Host, cb: Callbacks, file: Stream) returns (r: Outcome)
    requires h.Valid() && file.Valid()
    modifies file
    ensures file.Valid() && file.data == old(file.data)
    ensures old(file.eof) ==> r == Outcome(-4, None, []) && file.eof
    ensures !old(file.eof) ==> r == Read(h, cb, old(file.Remaining()))
    ensures r.code == 0 || r.code == -4 ==> file.eof
  {
    if file.eof {
      return Outcome(-4, None, []);
    }
    var fixed := file.Fread(FIXED_HEADER);
    if |fixed| != FIXED_HEADER {
      return Outcome(if |fixed| == 0 && file.eof then -4 else -3, None, []);
    }
    ghost var rest := file.Remaining();
    assert old(file.Remaining()) == fixed + rest;
    r := ReadFromName(h, cb, fixed, file);
  }

  /** task_statistics_read after the fixed part of the header. */
  method ReadFromName(h: Host, cb: Callbacks, fixed: seq<Byte>, file: Stream) returns (r: Outcome)
    requires h.Valid() && file.Valid() && !file.eof && |fixed| == FIXED_HEADER
    modifies file
    ensures file.Valid() && file.data == old(file.data)
    ensures r == Read(h, cb, fixed + old(file.Remaining()))
    ensures r.code == 0 ==> file.eof
    ensures r.code != -4
  {
    ghost var rest := file.Remaining();
    ReadRefused(h, cb, fixed, rest);
    if !Compatible(h, fixed) {
      return Outcome(-3, None, []);
    }
    var nameLength := NameLength(h, fixed);
    var name := file.Fread(nameLength);
    if |name| != nameLength {
      return Outcome(-3, None, []);
    }
    ReadAccepted(h, cb, fixed, name, rest);
    var p := DecodeHeader(h, fixed + name);
    r := ReadRest(h, cb, p, file);
  }

  /** What the fixed part of a header says holds of the whole file. */
  lemma FixedPart(h: Host, fixed: seq<Byte>, rest: seq<Byte>)
    requires |fixed| == FIXED_HEADER
    ensures Compatible(h, fixed) == Compatible(h, fixed + rest)
    ensures NameLength(h, fixed) == NameLength(h, fixed + rest)
  {
    assert (fixed + rest)[..FIXED_HEADER] == fixed;
    HeaderIsLocal(h, fixed, fixed + rest);
  }

  /** And so does what the header with its name says. */
  lemma WholeHeader(h: Host, fixed: seq<Byte>, name: seq<Byte>, rest: seq<Byte>)
    requires |fixed| == FIXED_HEADER && |name| == NameLength(h, fixed) <= |rest| && name == rest[..|name|]
    ensures NameLength(h, fixed + name) == NameLength(h, fixed + rest) == |name|
    ensures DecodeHeader(h, fixed + name) == DecodeHeader(h, fixed + rest)
    ensures (fixed + rest)[FIXED_HEADER + |name|..] == rest[|name|..]
  {
    FixedPart(h, fixed, rest);
    FixedPart(h, fixed, name);
    assert (fixed + rest)[..FIXED_HEADER + |name|] == fixed + name;
    HeaderIsLocal(h, fixed + name, fixed + rest);
  }

  lemma ReadRefused(h: Host, cb: Callbacks, fixed: seq<Byte>, rest: seq<Byte>)
    requires h.Valid() && |fixed| == FIXED_HEADER
    ensures !Compatible(h, fixed) || |rest| < NameLength(h, fixed) ==> Read(h, cb, fixed + rest) == Outcome(-3, None, [])
  {
    FixedPart(h, fixed, rest);
  }

  lemma ReadAccepted(h: Host, cb: Callbacks, fixed: seq<Byte>, name: seq<Byte>, rest: seq<Byte>)
    requires h.Valid() && |fixed| == FIXED_HEADER && Compatible(h, fixed)
    requires |name| == NameLength(h, fixed) <= |rest| && name == rest[..|name|]
    ensures |name| == NameLength(h, fixed + name)
    ensures Read(h, cb, fixed + rest) == ReadAfterHeader(h, cb, DecodeHeader(h, fixed + name), rest[|name|..])
  {
    FixedPart(h, fixed, rest);
    WholeHeader(h, fixed, name, rest);
  }

  /** The rest of task_statistics_read, after the name. */
  method ReadRest(h: Host, cb: Callbacks, p: TaskParams, file: Stream) returns (r: Outcome)
    requires h.Valid() && file.Valid() && !file.eof
    modifies file
    ensures file.Valid() && file.data == old(file.data)
    ensures r == ReadAfterHeader(h, cb, p, old(file.Remaining()))
    ensures r.code == 0 ==> file.eof
    ensures r.code != -4
  {
    if p.disabled {
      var t := ReadTask(p, NoRing(h));
      return Outcome(if cb.onTask(t) != 0 then -1 else -3, Some(t), []);
    }
    var preamble := file.Fread(3 * h.unsignedLong);
    if |preamble| != 3 * h.unsignedLong {
      return Outcome(-3, None, []);
    }
    var t := ReadTask(p, DecodePreamble(h, preamble));
    if cb.onTask(t) != 0 {
      return Outcome(-1, Some(t), []);
    }
    r := ReadJobRecords(h, cb, t, file);
    ReadJobsCodes(h, cb, t, old(file.Remaining())[3 * h.unsignedLong..], []);
  }

  lemma {:induction false} ReadJobsCodes(h: Host, cb: Callbacks, t: ReadTask, s: seq<Byte>, seen: seq<JobStatistics>)
    requires h.Valid()
    ensures ReadJobs(h, cb, t, s, seen).code in {0, -2, -3}
    decreases |s|
  {
    if |s| >= RecordSize(h) {
      ReadJobsCodes(h, cb, t, s[RecordSize(h)..], seen + [DecodeRecord(h, s[..RecordSize(h)])]);
    }
  }
}
