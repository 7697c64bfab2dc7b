/** Reading a text file line by line into a growing buffer (utility_file.c). */
module LineReader {
  import opened Common
  import opened Stdio

  const NEWLINE: Byte := 10
  const NUL: Byte := 0

  // ---------- lines ----------

  /** The length of the first line. */
  function LineEnd(s: seq<Byte>): (n: nat)
    ensures n <= |s| && (n < |s| ==> s[n] == NEWLINE) && NEWLINE !in s[..n]
  {
    if s == [] || s[0] == NEWLINE then 0
    else
      var n := 1 + LineEnd(s[1..]);
      assert s[..n] == [s[0]] + s[1..][..n - 1];
      n
  }

  /** The lines of a text: one more than it has newlines. */
  function Lines(s: seq<Byte>): (lines: seq<seq<Byte>>)
    ensures lines != []
    decreases |s|
  {
    var n := LineEnd(s);
    if n == |s| then [s] else [s[..n]] + Lines(s[n + 1..])
  }

  function Join(lines: seq<seq<Byte>>): seq<Byte>
    requires lines != []
  {
    if |lines| == 1 then lines[0] else lines[0] + [NEWLINE] + Join(lines[1..])
  }

  function Newlines(s: seq<Byte>): nat {
    if s == [] then 0 else (if s[0] == NEWLINE then 1 else 0) + Newlines(s[1..])
  }

  lemma {:induction false} NewlinesOfConcat(a: seq<Byte>, b: seq<Byte>)
    ensures Newlines(a + b) == Newlines(a) + Newlines(b)
  {
    if a == [] {
      assert a + b == b;
    } else {
      assert (a + b)[1..] == a[1..] + b;
      NewlinesOfConcat(a[1..], b);
    }
  }

  lemma {:induction false} NoNewlines(s: seq<Byte>)
    requires NEWLINE !in s
    ensures Newlines(s) == 0
  {
    if s != [] {
      assert s[0] in s;
      NoNewlines(s[1..]);
    }
  }

  /** Joining the lines with newlines restores the text. */
  lemma {:induction false} LinesJoinToText(s: seq<Byte>)
    ensures Join(Lines(s)) == s
    decreases |s|
  {
    var n := LineEnd(s);
    if n < |s| {
      LinesJoinToText(s[n + 1..]);
      JoinCons(s[..n], Lines(s[n + 1..]));
      CutAt(s, n);
    }
  }

  lemma JoinCons(line: seq<Byte>, lines: seq<seq<Byte>>)
    requires lines != []
    ensures Join([line] + lines) == line + [NEWLINE] + Join(lines)
  {
    assert ([line] + lines)[1..] == lines;
  }

  lemma CutAt(s: seq<Byte>, n: nat)
    requires n < |s|
    ensures s == s[..n] + [s[n]] + s[n + 1..]
  {
  }

  /** There is one more line than there are newlines. */
  lemma {:induction false} LineCount(s: seq<Byte>)
    ensures |Lines(s)| == Newlines(s) + 1
    decreases |s|
  {
    var n := LineEnd(s);
    NoNewlines(s[..n]);
    if n == |s| {
      assert s[..n] == s;
    } else {
      var rest := s[n + 1..];
      LineCount(rest);
      assert s == s[..n] + ([NEWLINE] + rest);
      NewlinesOfConcat(s[..n], [NEWLINE] + rest);
      assert ([NEWLINE] + rest)[1..] == rest;
    }
  }

  /** And there is no other way to cut the text into lines. */
  lemma {:induction false} LinesAreUnique(lines: seq<seq<Byte>>)
    requires lines != [] && forall i :: 0 <= i < |lines| ==> NEWLINE !in lines[i]
    ensures Lines(Join(lines)) == lines
  {
    if |lines| == 1 {
      LineEndIs(lines[0], |lines[0]|);
    } else {
      LinesAreUnique(lines[1..]);
      FirstOfJoined(lines[0], Join(lines[1..]));
    }
  }

  lemma FirstOfJoined(line: seq<Byte>, rest: seq<Byte>)
    requires NEWLINE !in line
    ensures Lines(line + [NEWLINE] + rest) == [line] + Lines(rest)
  {
    var s := line + [NEWLINE] + rest;
    assert s[..|line|] == line && s[|line| + 1..] == rest;
    LineEndIs(s, |line|);
  }

  lemma {:induction false} LineEndIs(s: seq<Byte>, n: nat)
    requires n <= |s| && NEWLINE !in s[..n] && (n < |s| ==> s[n] == NEWLINE)
    ensures LineEnd(s) == n
  {
    if n > 0 {
      assert s[0] == s[..n][0];
      assert s[1..][..n - 1] == s[..n][1..];
      LineEndIs(s[1..], n - 1);
    }
  }

  lemma {:induction false} BeforeLineEnd(s: seq<Byte>, n: nat)
    requires n <= LineEnd(s) && n < |s|
    ensures s[n] == NEWLINE <==> n == LineEnd(s)
  {
    if n > 0 {
      BeforeLineEnd(s[1..], n - 1);
    }
  }

  // ---------- the buffer ----------

  /** The length of a buffer of `len` bytes after as many increments as leave room for more than `need` bytes. */
  function Grown(len: nat, inc: nat, need: nat): (g: nat)
    requires inc >= 1
    ensures need < g && len <= g
    decreases if len <= need then need + 1 - len else 0
  {
    if need < len then len else Grown(len + inc, inc, need)
  }

  /** It takes a whole number of increments, and no fewer would do. */
  lemma {:induction false} GrownIsLeast(len: nat, inc: nat, need: nat) returns (times: nat)
    requires inc >= 1
    ensures Grown(len, inc, need) == len + times * inc
    ensures forall fewer :: 0 <= fewer < times ==> len + fewer * inc <= need
    decreases if len <= need then need + 1 - len else 0
  {
    if need < len {
      times := 0;
    } else {
      var t := GrownIsLeast(len + inc, inc, need);
      times := t + 1;
      assert times * inc == t * inc + inc;
      forall fewer | 0 <= fewer < times
        ensures len + fewer * inc <= need
      {
        if fewer > 0 {
          assert (fewer - 1) * inc + inc == fewer * inc;
        }
      }
    }
  }

  lemma {:induction false} GrownStep(len: nat, inc: nat, need: nat)
    requires inc >= 1
    ensures Grown(len, inc, need + 1)
            == if need + 1 < Grown(len, inc, need) then Grown(len, inc, need) else Grown(len, inc, need) + inc
    decreases if len <= need then need + 1 - len else 0
  {
    if need >= len {
      GrownStep(len + inc, inc, need);
    }
  }

  /** The length with which the buffer is used. */
  function StartLength(buffer: array?<Byte>, inc: nat): nat {
    if buffer == null || buffer.Length == 0 then inc else buffer.Length
  }

  /** utility_file_readln. Every write goes into the buffer as it is at that time, the terminator included. */
  method Readln(file: Stream, buffer: array?<Byte>, inc: nat) returns (rc: int, line: array?<Byte>)
    requires file.Valid() && inc >= 1
    modifies file, if buffer == null then {} else {buffer}
    ensures file.Valid() && file.data == old(file.data)
    ensures old(file.eof) ==> rc == -1 && line == buffer && file.eof && file.pos == old(file.pos)
    ensures !old(file.eof) ==>
              var s := old(file.Remaining());
              var n := LineEnd(s);
              && rc == 0 && line != null && (line == buffer || fresh(line))
              && line.Length == Grown(StartLength(buffer, inc), inc, n) > n
              && line[..n] == s[..n] && line[n] == NUL
              && file.eof == (n == |s|)
              && file.Remaining() == (if n == |s| then [] else s[n + 1..])
  {
    if file.eof {
      return -1, buffer;
    }
    line := buffer;
    if line == null || line.Length == 0 {
      line := Realloc(line, inc, 0);
    }
    ghost var s := file.Remaining();
    var n;
    line, n := ReadBytes(file, line, inc);
    line[n] := NUL;
    return 0, line;
  }

  /** The loop over the characters of a line; `start` is the buffer it starts with. */
  method ReadBytes(file: Stream, start: array<Byte>, inc: nat) returns (line: array<Byte>, n: nat)
    requires file.Valid() && !file.eof && inc >= 1 && start.Length >= 1
    modifies file, start
    ensures file.Valid() && file.data == old(file.data) && (line == start || fresh(line))
    ensures n == LineEnd(old(file.Remaining()))
    ensures n < line.Length == Grown(start.Length, inc, n)
    ensures line[..n] == old(file.Remaining())[..n]
    ensures file.eof == (n == |old(file.Remaining())|)
    ensures file.Remaining() == if file.eof then [] else old(file.Remaining())[n + 1..]
  {
    ghost var s, p := file.Remaining(), file.pos;
    line, n := start, 0;
    var c := file.Fgetc();
    while c != None && c != Some(NEWLINE)
      invariant file.Valid() && file.data == old(file.data)
      invariant line == start || fresh(line)
      invariant n <= LineEnd(s) && n < line.Length == Grown(start.Length, inc, n)
      invariant line[..n] == s[..n]
      invariant c == if n < |s| then Some(s[n]) else None
      invariant file.pos == (if n < |s| then p + n + 1 else |file.data|) && file.eof == (n == |s|)
      decreases |s| - n
    {
      BeforeLineEnd(s, n);
      line := Put(line, n, c.value, inc, start.Length);
      assert s[..n + 1] == s[..n] + [s[n]];
      n := n + 1;
      c := file.Fgetc();
    }
    if n < |s| {
      BeforeLineEnd(s, n);
    }
  }

  /** Store a byte and enlarge the buffer if that filled it. */
  method Put(line: array<Byte>, n: nat, c: Byte, inc: nat, ghost start: nat) returns (bigger: array<Byte>)
    requires inc >= 1 && n < line.Length == Grown(start, inc, n)
    modifies line
    ensures bigger == line || fresh(bigger)
    ensures n + 1 < bigger.Length == Grown(start, inc, n + 1)
    ensures bigger[..n + 1] == old(line[..n]) + [c]
  {
    line[n] := c;
    GrownStep(start, inc, n);
    bigger := line;
    if n + 1 == line.Length {
      bigger := Realloc(line, line.Length + inc, 0);
    }
    assert bigger[..n + 1] == line[..n + 1];
  }

  // ---------- whole files ----------

  /** What a C string shows of a line: the bytes before its first NUL. */
  function CString(line: seq<Byte>): seq<Byte> {
    if line == [] || line[0] == NUL then [] else [line[0]] + CString(line[1..])
  }

  /** The result of reading a file: the exit status, and the lines that were handed to the callback. The callback is
      given as what it returns for the lines it has been given so far, the last one being the current one. */
  datatype Outcome = Outcome(status: int, given: seq<seq<Byte>>)

  function ReadLines(lines: seq<seq<Byte>>, readFn: seq<seq<Byte>> -> int, given: seq<seq<Byte>>): Outcome
    decreases |lines|
  {
    if lines == [] then Outcome(0, given)
    else
      var now := given + [CString(lines[0])];
      if readFn(now) != 0 then Outcome(-1, now) else ReadLines(lines[1..], readFn, now)
  }

  lemma FirstLine(s: seq<Byte>)
    ensures Lines(s)[0] == s[..LineEnd(s)]
    ensures Lines(s)[1..] == if LineEnd(s) == |s| then [] else Lines(s[LineEnd(s) + 1..])
  {
    TakeAll(s);
  }

  /** Handing out the first line of a text. */
  lemma ReadOneLine(s: seq<Byte>, readFn: seq<seq<Byte>> -> int, given: seq<seq<Byte>>)
    ensures var n := LineEnd(s);
            var now := given + [CString(s[..n])];
            ReadLines(Lines(s), readFn, given)
            == if readFn(now) != 0 then Outcome(-1, now)
               else ReadLines(if n == |s| then [] else Lines(s[n + 1..]), readFn, now)
  {
    FirstLine(s);
  }

  /** utility_file_read: all the lines, unless the callback stops the reading. */
  method ReadFile(file: Stream, inc: nat, readFn: seq<seq<Byte>> -> int) returns (r: Outcome)
    requires file.Valid() && !file.eof && inc >= 1
    modifies file
    ensures r == ReadLines(Lines(old(file.Remaining())), readFn, [])
  {
    var buffer: array?<Byte> := null;
    var given: seq<seq<Byte>> := [];
    ghost var all := ReadLines(Lines(file.Remaining()), readFn, []);
    while true
      invariant file.Valid() && (buffer == null || fresh(buffer))
      invariant all == ReadLines(if file.eof then [] else Lines(file.Remaining()), readFn, given)
      decreases !file.eof, |file.data| - file.pos
    {
      ghost var s := file.Remaining();
      var rc, line := Readln(file, buffer, inc);
      if rc == -1 {
        return Outcome(0, given);
      }
      buffer := line;
      ghost var n := LineEnd(s);
      ReadOneLine(s, readFn, given);
      var shown := Show(line, n);
      given := given + [shown];
      if readFn(given) != 0 {
        return Outcome(-1, given);
      }
    }
  }

  /** The C string in a buffer that holds a line of `n` bytes and its terminator. */
  method Show(line: array<Byte>, ghost n: nat) returns (shown: seq<Byte>)
    requires n < line.Length && line[n] == NUL
    ensures shown == CString(line[..n])
  {
    shown := [];
    var i := 0;
    while line[i] != NUL
      invariant i <= n
      invariant CString(line[..n]) == shown + CString(line[i..n])
      decreases n - i
    {
      assert line[i..n][1..] == line[i + 1..n];
      shown := shown + [line[i]];
      i := i + 1;
    }
  }

  lemma {:induction false} NoNulIsShown(line: seq<Byte>)
    requires NUL !in line
    ensures CString(line) == line
  {
    if line != [] {
      assert line[0] in line;
      NoNulIsShown(line[1..]);
    }
  }

  lemma {:induction false} AllLinesAreGiven(lines: seq<seq<Byte>>, readFn: seq<seq<Byte>> -> int, given: seq<seq<Byte>>)
    requires forall g :: readFn(g) == 0
    requires NoneHasNul(lines)
    ensures ReadLines(lines, readFn, given) == Outcome(0, given + lines)
  {
    if lines == [] {
      assert given + lines == given;
    } else {
      NoNulIsShown(lines[0]);
      AllLinesAreGiven(lines[1..], readFn, given + [lines[0]]);
      assert given + [lines[0]] + lines[1..] == given + lines;
    }
  }

  ghost predicate NoneHasNul(lines: seq<seq<Byte>>) {
    forall i :: 0 <= i < |lines| ==> NUL !in lines[i]
  }

  lemma {:induction false} LinesHaveNoNul(s: seq<Byte>)
    requires NUL !in s
    ensures NoneHasNul(Lines(s))
    decreases |s|
  {
    var n := LineEnd(s);
    if n < |s| {
      LinesHaveNoNul(s[n + 1..]);
      OneMoreHasNoNul(s[..n], Lines(s[n + 1..]));
    }
  }

  lemma OneMoreHasNoNul(line: seq<Byte>, lines: seq<seq<Byte>>)
    requires NUL !in line && NoneHasNul(lines)
    ensures NoneHasNul([line] + lines)
  {
  }

  /** A callback that accepts every line of a text without NUL is given lines that, joined, are the text. */
  lemma TextComesBack(s: seq<Byte>, readFn: seq<seq<Byte>> -> int)
    requires NUL !in s && forall g :: readFn(g) == 0
    ensures var r := ReadLines(Lines(s), readFn, []);
            r.status == 0 && r.given != [] && Join(r.given) == s && |r.given| == Newlines(s) + 1
  {
    LinesHaveNoNul(s);
    AllLinesAreGiven(Lines(s), readFn, []);
    assert [] + Lines(s) == Lines(s);
    LinesJoinToText(s);
    LineCount(s);
  }

  /** The callback stops the reading if and only if it refuses what it has been given at some line, and then it has
      been given nothing after the first such line. */
  lemma {:induction false} StopsAtFirstRefusal(lines: seq<seq<Byte>>, readFn: seq<seq<Byte>> -> int,
                                               given: seq<seq<Byte>>)
    ensures var r := ReadLines(lines, readFn, given);
            && |given| <= |r.given| <= |given| + |lines| && r.given[..|given|] == given
            && (r.status == -1 <==> |r.given| > |given| && readFn(r.given) != 0)
            && (r.status != -1 ==> r.status == 0 && |r.given| == |given| + |lines|)
            && (forall k :: |given| < k < |r.given| ==> readFn(r.given[..k]) == 0)
    decreases |lines|
  {
    if lines != [] {
      var now := given + [CString(lines[0])];
      if readFn(now) == 0 {
        StopsAtFirstRefusal(lines[1..], readFn, now);
        var r := ReadLines(lines[1..], readFn, now);
        assert r.given[..|given|] == r.given[..|now|][..|given|] == given;
        assert r.given[..|r.given|] == r.given;
      }
    }
  }
}
