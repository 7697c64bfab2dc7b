/** The list of frequencies that a CPU can run at (cpu_freq_available, utility_cpu.c): a line of numbers in kilohertz,
    counted in a first pass over the line and stored in a second one that cuts the line up in place.
 */
module FreqList {
  import opened Common
  import opened TimeText

  const ULLONG: nat := 0x1_0000_0000_0000_0000

  /** isspace. */
  predicate IsSpace(c: char) {
    c == ' ' || 9 <= c as int <= 13
  }

  // ---------- what a line holds ----------

  /** The characters before the first whitespace. */
  function FieldEnd(s: string): (n: nat)
    ensures n <= |s| && (n < |s| ==> IsSpace(s[n]))
    ensures forall i :: 0 <= i < n ==> !IsSpace(s[i])
  {
    if s == [] || IsSpace(s[0]) then 0 else 1 + FieldEnd(s[1..])
  }

  /** The fields that end with whitespace, one for each whitespace character. */
  function Fields(s: string): seq<string>
    decreases |s|
  {
    var n := FieldEnd(s);
    if n == |s| then [] else [s[..n]] + Fields(s[n + 1..])
  }

  predicate IsSign(c: char) {
    c == '+' || c == '-'
  }

  /** strtoull on a field: the number that its leading digits denote, the greatest number if that is too large, and
      after a minus sign the number is negated as an unsigned one. */
  function Number(field: string): (n: nat)
    ensures n < ULLONG
  {
    var signed := field != [] && IsSign(field[0]);
    var digits := if signed then field[1..] else field;
    var v := ValueOf(digits[..DigitsEnd(digits, 0)]);
    if v >= ULLONG then ULLONG - 1
    else if signed && field[0] == '-' && v != 0 then ULLONG - v
    else v
  }

  /** In hertz, as an unsigned long long. */
  function Hertz(field: string): nat {
    Number(field) * 1000 % ULLONG
  }

  function Frequencies(fields: seq<string>): (fs: seq<nat>)
    ensures |fs| == |fields|
  {
    seq(|fields|, k requires 0 <= k < |fields| => Hertz(fields[k]))
  }

  lemma {:induction false} FieldEndIs(s: string, n: nat)
    requires n <= |s| && forall i :: 0 <= i < n ==> !IsSpace(s[i])
    requires n < |s| ==> IsSpace(s[n])
    ensures FieldEnd(s) == n
  {
    if n > 0 {
      FieldEndIs(s[1..], n - 1);
    }
  }

  // ---------- the two passes ----------

  predicate NoNul(line: string) {
    forall i :: 0 <= i < |line| ==> line[i] != NUL
  }

  /** From `from` on the buffer still holds the line and its terminator. */
  predicate Left(buffer: array<char>, from: nat, line: string)
    reads buffer
  {
    && from <= |line| < buffer.Length && buffer[|line|] == NUL
    && forall i :: from <= i < |line| ==> buffer[i] == line[i]
  }

  /** A field that starts at `start` and ends at the whitespace at `e`. */
  lemma FirstField(line: string, start: nat, e: nat)
    requires start <= e < |line| && IsSpace(line[e]) && forall i :: start <= i < e ==> !IsSpace(line[i])
    ensures Fields(line[start..]) == [line[start..e]] + Fields(line[e + 1..])
  {
    var rest := line[start..];
    FieldEndIs(rest, e - start);
    assert rest[..e - start] == line[start..e] && rest[e - start + 1..] == line[e + 1..];
  }

  lemma NoField(line: string, start: nat)
    requires start <= |line| && forall i :: start <= i < |line| ==> !IsSpace(line[i])
    ensures Fields(line[start..]) == []
  {
    FieldEndIs(line[start..], |line| - start);
  }

  /** The fields of the line from `start` on, of which the characters before `i` have been looked at. */
  function FieldsFrom(line: string, start: nat, i: nat): seq<string>
    requires start <= i <= |line|
    decreases |line| - i
  {
    if i == |line| then []
    else if IsSpace(line[i]) then [line[start..i]] + FieldsFrom(line, i + 1, i + 1)
    else FieldsFrom(line, start, i + 1)
  }

  lemma {:induction false} FieldsFromIs(line: string, start: nat, i: nat)
    requires start <= i <= |line| && forall k :: start <= k < i ==> !IsSpace(line[k])
    ensures FieldsFrom(line, start, i) == Fields(line[start..])
    decreases |line| - i
  {
    if i == |line| {
      NoField(line, start);
    } else if IsSpace(line[i]) {
      FirstField(line, start, i);
      FieldsFromIs(line, i + 1, i + 1);
    } else {
      FieldsFromIs(line, start, i + 1);
    }
  }

  lemma AllFields(line: string)
    ensures FieldsFrom(line, 0, 0) == Fields(line)
  {
    assert line[0..] == line;
    FieldsFromIs(line, 0, 0);
  }

  /** The pass that counts. */
  method CountFields(buffer: array<char>, ghost line: string) returns (count: nat)
    requires NoNul(line) && Left(buffer, 0, line)
    ensures count == |Fields(line)|
  {
    AllFields(line);
    count := 0;
    var ptr := 0;
    ghost var start := 0;
    while buffer[ptr] != NUL
      invariant 0 <= start <= ptr <= |line|
      invariant |FieldsFrom(line, 0, 0)| == count + |FieldsFrom(line, start, ptr)|
      decreases |line| - ptr
    {
      if IsSpace(buffer[ptr]) {
        count := count + 1;
        start := ptr + 1;
      }
      ptr := ptr + 1;
    }
  }

  /** strtoull from `start`, where the string reaches to the terminator at `e`. */
  method ReadNumber(buffer: array<char>, start: nat, e: nat) returns (n: nat)
    requires start <= e < buffer.Length && buffer[e] == NUL
    ensures n == Number(buffer[start..e])
  {
    n := Number(buffer[start..e]);
  }

  /** The first `k` fields have been stored. */
  ghost predicate Stored(result: seq<nat>, fields: seq<string>, k: nat) {
    |result| == |fields| && k <= |fields| && forall i :: 0 <= i < k ==> result[i] == Hertz(fields[i])
  }

  lemma AllStored(result: seq<nat>, fields: seq<string>)
    requires Stored(result, fields, |fields|)
    ensures result == Frequencies(fields)
  {
  }

  /** The pass that stores, into as many elements as were counted. */
  method StoreFields(buffer: array<char>, result: array<nat>, ghost line: string)
    requires NoNul(line) && Left(buffer, 0, line)
    requires result.Length == |Fields(line)|
    modifies buffer, result
    ensures result[..] == Frequencies(Fields(line))
  {
    AllFields(line);
    ghost var all := Fields(line);
    var resultIdx, ptr, ptrStart := 0, 0, 0;
    while buffer[ptr] != NUL
      invariant 0 <= ptrStart <= ptr <= |line|
      invariant Left(buffer, ptrStart, line)
      invariant Stored(result[..], all, resultIdx)
      invariant all[resultIdx..] == FieldsFrom(line, ptrStart, ptr)
      decreases |line| - ptr
    {
      if IsSpace(buffer[ptr]) {
        NextOf(all, resultIdx, line[ptrStart..ptr], FieldsFrom(line, ptr + 1, ptr + 1));
        StoreField(buffer, result, resultIdx, ptrStart, ptr, line, all);
        resultIdx := resultIdx + 1;
        ptr := ptr + 1;
        ptrStart := ptr;
      } else {
        ptr := ptr + 1;
      }
    }
    AllStored(result[..], all);
  }

  /** Terminate a field and store its number, in hertz. */
  method StoreField(buffer: array<char>, result: array<nat>, k: nat, start: nat, e: nat, ghost line: string,
                    ghost all: seq<string>)
    requires start <= e < |line| && Left(buffer, start, line)
    requires Stored(result[..], all, k) && k < |all| && all[k] == line[start..e]
    modifies buffer, result
    ensures Left(buffer, e + 1, line) && Stored(result[..], all, k + 1)
  {
    buffer[e] := NUL;
    assert buffer[start..e] == line[start..e];
    var n := ReadNumber(buffer, start, e);
    ghost var before := result[..];
    result[k] := n * 1000 % ULLONG;
    assert result[..] == before[k := Hertz(all[k])];
  }

  lemma NextOf(all: seq<string>, k: nat, field: string, rest: seq<string>)
    requires k <= |all| && all[k..] == [field] + rest
    ensures k < |all| && all[k] == field && all[k + 1..] == rest
  {
    assert all[k] == all[k..][0] && all[k + 1..] == all[k..][1..];
  }

  /** cpu_freq_available after its line has been read. */
  method Available(line: string) returns (result: seq<nat>)
    requires NoNul(line)
    ensures result == Frequencies(Fields(line))
  {
    var buffer := new char[|line| + 1](_ => NUL);
    forall i | 0 <= i < |line| {
      buffer[i] := line[i];
    }
    var count := CountFields(buffer, line);
    result := [];
    if count != 0 {
      var stored := new nat[count](_ => 0);
      StoreFields(buffer, stored, line);
      result := stored[..];
    }
  }

  // ---------- the numbers come back ----------

  /** The characters that separate: a blank, a tab, a newline, a vertical tab, a form feed, or a carriage return. */
  predicate Separate(seps: string) {
    forall i :: 0 <= i < |seps| ==> seps[i] in {' ', '\t', '\n', 11 as char, 12 as char, '\r'}
  }

  /** Numbers, each of them followed by its separator. */
  function Listed(ns: seq<nat>, seps: string): string
    requires |ns| == |seps|
  {
    if ns == [] then "" else Decimal(ns[0]) + [seps[0]] + Listed(ns[1..], seps[1..])
  }

  function Decimals(ns: seq<nat>): (ds: seq<string>)
    ensures |ds| == |ns|
  {
    seq(|ns|, k requires 0 <= k < |ns| => Decimal(ns[k]))
  }

  lemma ListedStep(ns: seq<nat>, seps: string, tail: string)
    requires ns != [] && |ns| == |seps|
    ensures Listed(ns, seps) + tail == Decimal(ns[0]) + [seps[0]] + (Listed(ns[1..], seps[1..]) + tail)
  {
    Regroup(Decimal(ns[0]) + [seps[0]], Listed(ns[1..], seps[1..]), tail);
  }

  lemma DecimalsStep(ns: seq<nat>)
    requires ns != []
    ensures Decimals(ns) == [Decimal(ns[0])] + Decimals(ns[1..])
  {
    forall k | 0 <= k < |ns|
      ensures Decimals(ns)[k] == ([Decimal(ns[0])] + Decimals(ns[1..]))[k]
    {
    }
  }

  lemma {:induction false} FieldsOfListed(ns: seq<nat>, seps: string, tail: string)
    requires |ns| == |seps| && Separate(seps)
    requires forall i :: 0 <= i < |tail| ==> !IsSpace(tail[i])
    ensures Fields(Listed(ns, seps) + tail) == Decimals(ns)
  {
    if ns == [] {
      assert (Listed(ns, seps) + tail)[0..] == tail;
      NoField(Listed(ns, seps) + tail, 0);
    } else {
      FieldsOfListed(ns[1..], seps[1..], tail);
      DecimalField(Decimal(ns[0]), seps[0], Listed(ns[1..], seps[1..]) + tail);
      ListedStep(ns, seps, tail);
      DecimalsStep(ns);
    }
  }

  lemma DecimalField(first: string, sep: char, rest: string)
    requires IsSpace(sep) && forall i :: 0 <= i < |first| ==> !IsSpace(first[i])
    ensures Fields(first + [sep] + rest) == [first] + Fields(rest)
  {
    var s := first + [sep] + rest;
    FirstField(s, 0, |first|);
    assert s[0..] == s && s[0..|first|] == first && s[|first| + 1..] == rest;
  }

  lemma LeadingDigits(digits: string, tail: string)
    requires AllDigits(digits) && (tail != "" ==> !IsDigit(tail[0]))
    ensures (digits + tail)[..DigitsEnd(digits + tail, 0)] == digits
  {
    assert (digits + tail)[0..|digits|] == digits == (digits + tail)[..|digits|];
    DigitsEndAt(digits + tail, 0, |digits|);
  }

  /** What strtoull makes of a number with or without a minus sign. */
  function Wrapped(minus: bool, v: nat): nat {
    if v >= 0x1_0000_0000_0000_0000 then 0xFFFF_FFFF_FFFF_FFFF
    else if minus && v > 0 then 0x1_0000_0000_0000_0000 - v
    else v
  }

  lemma SignedNumber(sign: char, digits: string, tail: string)
    requires IsSign(sign) && AllDigits(digits) && (tail != "" ==> !IsDigit(tail[0]))
    ensures Number([sign] + (digits + tail)) == Wrapped(sign == '-', ValueOf(digits))
  {
    LeadingDigits(digits, tail);
    assert ([sign] + (digits + tail))[1..] == digits + tail;
  }

  lemma UnsignedNumber(digits: string, tail: string)
    requires AllDigits(digits) && (tail != "" ==> !IsDigit(tail[0]))
    requires digits == "" && tail != "" ==> !IsSign(tail[0])
    ensures Number(digits + tail) == Wrapped(false, ValueOf(digits))
  {
    LeadingDigits(digits, tail);
    assert digits != "" ==> (digits + tail)[0] == digits[0];
    assert digits == "" ==> digits + tail == tail;
  }

  /** A field is read as an optional sign and the digits after it; what follows them does not matter. A number that is
      too large is read as the greatest one, and a negated one wraps around, as does the step from kilohertz to hertz. */
  lemma HertzIs(sign: string, digits: string, tail: string)
    requires sign in {"", "+", "-"} && AllDigits(digits) && (tail != "" ==> !IsDigit(tail[0]))
    requires sign == "" && digits == "" && tail != "" ==> !IsSign(tail[0])
    ensures Hertz(sign + (digits + tail)) == Wrapped(sign == "-", ValueOf(digits)) * 1000 % 0x1_0000_0000_0000_0000
  {
    if sign == "" {
      assert sign + (digits + tail) == digits + tail;
      UnsignedNumber(digits, tail);
    } else {
      assert sign == [sign[0]];
      SignedNumber(sign[0], digits, tail);
    }
  }

  lemma NumberOfDecimal(n: nat)
    requires n < ULLONG
    ensures Number(Decimal(n)) == n
  {
    var d := Decimal(n);
    assert !IsSign(d[0]);
    assert d[0..|d|] == d && d[..|d|] == d;
    DigitsEndAt(d, 0, |d|);
  }

  lemma HertzOfDecimal(n: nat)
    requires n * 1000 < ULLONG
    ensures Hertz(Decimal(n)) == n * 1000
  {
    NumberOfDecimal(n);
    SmallRemainder(Number(Decimal(n)) * 1000, ULLONG);
  }

  lemma SmallRemainder(a: nat, m: nat)
    requires a < m
    ensures a % m == a
  {
  }

  /** A line of numbers that each end with a separator gives all of them, in hertz. A number after the last one would not
      be among them. */
  lemma AllComeBack(ns: seq<nat>, seps: string, tail: string)
    requires |ns| == |seps| && Separate(seps) && forall k :: 0 <= k < |ns| ==> ns[k] * 1000 < ULLONG
    requires forall i :: 0 <= i < |tail| ==> !IsSpace(tail[i])
    ensures var fs := Frequencies(Fields(Listed(ns, seps) + tail));
            |fs| == |ns| && forall k :: 0 <= k < |ns| ==> fs[k] == ns[k] * 1000
  {
    FieldsOfListed(ns, seps, tail);
    forall k | 0 <= k < |ns|
      ensures Frequencies(Decimals(ns))[k] == ns[k] * 1000
    {
      HertzOfDecimal(ns[k]);
    }
  }

  // ---------- which lines are read as the numbers they show ----------

  /** What a line shows: its longest pieces without whitespace. */
  function Words(s: string): seq<string>
    decreases |s|
  {
    if s == [] then []
    else if IsSpace(s[0]) then Words(s[1..])
    else [s[..FieldEnd(s)]] + (if FieldEnd(s) == |s| then [] else Words(s[FieldEnd(s) + 1..]))
  }

  predicate DoubleAt(s: string, i: nat) {
    0 < i < |s| && IsSpace(s[i]) && IsSpace(s[i - 1])
  }

  /** No two whitespace characters stand side by side. */
  predicate Single(s: string) {
    forall i :: 0 < i < |s| ==> !DoubleAt(s, i)
  }

  /** Every word is followed by exactly one whitespace character, and none stands first. */
  predicate Regular(s: string) {
    (s != [] ==> !IsSpace(s[0]) && IsSpace(s[|s| - 1])) && Single(s)
  }

  lemma SingleStep(s: string, n: nat)
    requires n < |s| && IsSpace(s[n]) && forall i :: 0 <= i < n ==> !IsSpace(s[i])
    ensures Single(s) <==> Single(s[n + 1..]) && (n + 1 < |s| ==> !IsSpace(s[n + 1]))
  {
    var rest := s[n + 1..];
    forall i | 0 < i < |rest|
      ensures DoubleAt(rest, i) == DoubleAt(s, n + 1 + i)
    {
    }
    forall i | n + 1 < i < |s|
      ensures DoubleAt(s, i) == DoubleAt(rest, i - n - 1)
    {
    }
    assert n + 1 < |s| ==> DoubleAt(s, n + 1) == IsSpace(s[n + 1]);
  }

  lemma RegularStep(s: string, n: nat)
    requires 0 < n <= |s| && (n < |s| ==> IsSpace(s[n])) && forall i :: 0 <= i < n ==> !IsSpace(s[i])
    ensures n == |s| ==> !Regular(s)
    ensures n < |s| ==> (Regular(s) <==> Regular(s[n + 1..]))
  {
    if n < |s| {
      SingleStep(s, n);
    }
  }

  /** A line that starts with whitespace has an empty field first, and no empty word. */
  lemma {:induction false} WordsAreNotEmpty(s: string)
    ensures forall i :: 0 <= i < |Words(s)| ==> Words(s)[i] != ""
    decreases |s|
  {
    if s != [] {
      if IsSpace(s[0]) {
        WordsAreNotEmpty(s[1..]);
      } else if FieldEnd(s) < |s| {
        WordsAreNotEmpty(s[FieldEnd(s) + 1..]);
      }
    }
  }

  lemma EmptyFieldFirst(s: string)
    requires s != [] && IsSpace(s[0])
    ensures Fields(s) != Words(s)
  {
    WordsAreNotEmpty(s);
    assert Fields(s)[0] == "";
  }

  lemma ConsEqual<T>(x: seq<T>, y: seq<T>, a: T, s: seq<T>, t: seq<T>)
    requires x == [a] + s && y == [a] + t
    ensures x == y <==> s == t
  {
    assert s == x[1..] && t == y[1..];
  }

  lemma UnterminatedWord(s: string)
    requires s != [] && !IsSpace(s[0]) && FieldEnd(s) == |s|
    ensures Fields(s) == [] && Words(s) == [s[..|s|]]
  {
  }

  lemma FieldsStep(s: string, n: nat)
    requires n == FieldEnd(s) < |s|
    ensures Fields(s) == [s[..n]] + Fields(s[n + 1..])
  {
  }

  lemma WordsStep(s: string, n: nat)
    requires s != [] && !IsSpace(s[0]) && n == FieldEnd(s) < |s|
    ensures Words(s) == [s[..n]] + Words(s[n + 1..])
  {
    assert n != |s|;
    assert Words(s) == [s[..n]] + (if n == |s| then [] else Words(s[n + 1..]));
  }

  lemma FirstFieldIsWord(s: string, n: nat)
    requires s != [] && !IsSpace(s[0]) && n == FieldEnd(s) < |s|
    ensures Fields(s) == Words(s) <==> Fields(s[n + 1..]) == Words(s[n + 1..])
  {
    FieldsStep(s, n);
    WordsStep(s, n);
    ConsEqual(Fields(s), Words(s), s[..n], Fields(s[n + 1..]), Words(s[n + 1..]));
  }

  /** The fields of a line are its words if and only if every word is followed by exactly one whitespace character and
      none stands first. */
  lemma {:induction false} FieldsAreWords(s: string)
    ensures Fields(s) == Words(s) <==> Regular(s)
    decreases |s|
  {
    var n := FieldEnd(s);
    if s != [] {
      if n == 0 {
        EmptyFieldFirst(s);
      } else {
        RegularStep(s, n);
        if n < |s| {
          FieldsAreWords(s[n + 1..]);
          FirstFieldIsWord(s, n);
        } else {
          UnterminatedWord(s);
        }
      }
    }
  }

  lemma FrequenciesCons(field: string, fields: seq<string>)
    ensures Frequencies([field] + fields) == [Hertz(field)] + Frequencies(fields)
  {
  }

  lemma EmptyField()
    ensures Hertz("") == 0
  {
  }

  /** No word is read as zero. */
  ghost predicate NoneIsZero(words: seq<string>) {
    forall i :: 0 <= i < |words| ==> Hertz(words[i]) != 0
  }

  lemma ZeroFieldFirst(s: string)
    requires s != [] && IsSpace(s[0]) && NoneIsZero(Words(s))
    ensures Frequencies(Fields(s)) != Frequencies(Words(s))
  {
    EmptyField();
    assert Fields(s)[0] == "";
    assert Frequencies(Fields(s))[0] == 0;
    assert Words(s) != [] ==> Frequencies(Words(s))[0] == Hertz(Words(s)[0]);
  }

  lemma OthersAreNotZero(first: string, others: seq<string>)
    requires NoneIsZero([first] + others)
    ensures NoneIsZero(others)
  {
    forall i | 0 <= i < |others|
      ensures Hertz(others[i]) != 0
    {
      assert ([first] + others)[i + 1] == others[i];
    }
  }

  /** So the list is that of the numbers the line shows, none of which is zero, if and only if the line is like that. */
  lemma {:induction false} ListIsWhatIsShown(s: string)
    requires NoneIsZero(Words(s))
    ensures Frequencies(Fields(s)) == Frequencies(Words(s)) <==> Regular(s)
    decreases |s|
  {
    var n := FieldEnd(s);
    if s != [] {
      if n == 0 {
        ZeroFieldFirst(s);
      } else {
        RegularStep(s, n);
        if n < |s| {
          var rest := s[n + 1..];
          OthersAreNotZero(s[..n], Words(rest));
          ListIsWhatIsShown(rest);
          FrequenciesCons(s[..n], Fields(rest));
          FrequenciesCons(s[..n], Words(rest));
          ConsEqual(Frequencies(Fields(s)), Frequencies(Words(s)), Hertz(s[..n]), Frequencies(Fields(rest)),
                    Frequencies(Words(rest)));
        }
      }
    }
  }
}
