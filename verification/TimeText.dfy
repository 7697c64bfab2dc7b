/** Printing and parsing of times as text (utility_time.h).

    A text is the characters before the terminating NUL, so reading one past the end of the sequence
    in the model is reading the NUL in the code.
 */
module TimeText {
  import opened Common
  import opened UtilityTime

  /** The most digits the seconds may have: 8 bytes of tv_sec give 64 / 10 * 3. */
  const LONGEST_SECOND := 18
  const FRACTION_DIGITS := 9

  predicate IsDigit(c: char) {
    '0' <= c <= '9'
  }

  predicate AllDigits(s: string) {
    forall i :: 0 <= i < |s| ==> IsDigit(s[i])
  }

  function DigitChar(d: nat): (c: char)
    requires d < 10
    ensures IsDigit(c) && c as int - '0' as int == d
  {
    '0' + d as char
  }

  /** The number a string of decimal digits denotes (strtoull on digits). */
  function ValueOf(s: string): nat {
    if s == [] then 0 else 10 * ValueOf(s[..|s| - 1]) + DigitValue(s[|s| - 1])
  }

  function DigitValue(c: char): nat {
    if IsDigit(c) then c as int - '0' as int else 0
  }

  /** The %lu conversion: decimal digits without leading zeros, "0" for zero. */
  function Decimal(n: nat): (s: string)
    ensures |s| >= 1 && AllDigits(s) && ValueOf(s) == n
  {
    if n < 10 then
      var s := [DigitChar(n)];
      assert s[..0] == [];
      s
    else
      var s := Decimal(n / 10) + [DigitChar(n % 10)];
      assert s[..|s| - 1] == Decimal(n / 10);
      s
  }

  /** The %0wlu conversion of a number that fits in `w` digits. */
  function Padded(n: nat, w: nat): (s: string)
    requires n < Pow10(w)
    ensures |s| == w && AllDigits(s) && ValueOf(s) == n
  {
    if w == 0 then []
    else
      var s := Padded(n / 10, w - 1) + [DigitChar(n % 10)];
      assert s[..w - 1] == Padded(n / 10, w - 1);
      s
  }

  function Pow10(w: nat): (p: nat)
    ensures p >= 1
  {
    if w == 0 then 1 else 10 * Pow10(w - 1)
  }

  /** The text written by to_string. */
  function ToString(t: Time): string
    requires t.Normal() && 0 <= t.sec
  {
    Decimal(t.sec) + "." + Padded(t.nsec, FRACTION_DIGITS)
  }

  /** A decimal has more digits than `w` exactly when the number does not fit in `w` digits. */
  lemma {:induction false} DecimalLength(n: nat, w: nat)
    requires w >= 1
    ensures |Decimal(n)| <= w <==> n < Pow10(w)
  {
    if n < 10 {
    } else if w == 1 {
      assert |Decimal(n / 10)| >= 1;
      assert Pow10(1) == 10;
    } else {
      DecimalLength(n / 10, w - 1);
    }
  }

  const NUL: char := 0 as char

  /** to_string: the text and its terminator as far as there is room, and zero or else the least size that is enough. */
  method ToStringInto(t: Time, buffer: array<char>) returns (rc: nat)
    requires t.Normal() && 0 <= t.sec
    modifies buffer
    ensures rc == 0 <==> |ToString(t)| < buffer.Length
    ensures rc != 0 ==> rc == |ToString(t)| + 1
    ensures var n := if rc == 0 then |ToString(t)| else buffer.Length - 1;
            n >= 0 ==> buffer[..n] == ToString(t)[..n] && buffer[n] == NUL
  {
    var text := ToString(t);
    if buffer.Length > 0 {
      var n := if |text| < buffer.Length then |text| else buffer.Length - 1;
      forall i | 0 <= i < n {
        buffer[i] := text[i];
      }
      buffer[n] := NUL;
    }
    rc := if |text| < buffer.Length then 0 else |text| + 1;
  }

  /** to_string_dyn: a first call into one character finds out the size for the second one, which then never truncates. */
  method ToStringDyn(t: Time) returns (result: array<char>)
    requires t.Normal() && 0 <= t.sec
    ensures fresh(result) && result[..] == ToString(t) + [NUL]
  {
    var probe := new char[1](_ => NUL);
    var size := ToStringInto(t, probe);
    result := new char[size](_ => NUL);
    var rc := ToStringInto(t, result);
    assert rc == 0 && result[..size] == result[..size - 1] + [NUL];
  }

  // ---------- parsing ----------

  /** The first position from `i` on that does not hold a digit. */
  function DigitsEnd(s: string, i: nat): (e: nat)
    requires i <= |s|
    ensures i <= e <= |s|
    ensures forall j :: i <= j < e ==> IsDigit(s[j])
    ensures e < |s| ==> !IsDigit(s[e])
    decreases |s| - i
  {
    if i < |s| && IsDigit(s[i]) then DigitsEnd(s, i + 1) else i
  }

  function Zeros(n: nat): (z: string)
    ensures |z| == n && AllDigits(z)
  {
    seq(n, _ => '0')
  }

  datatype Parsed = Parsed(time: Time, end: nat)

  /** The nanoseconds denoted by `s` taken as a fraction of a second: missing digits are zeros. */
  function Nanoseconds(s: string): nat
    requires |s| <= FRACTION_DIGITS
  {
    ValueOf(s + Zeros(FRACTION_DIGITS - |s|))
  }

  /** What parsing `s` means: the time, and how many characters were consumed. */
  function Parse(s: string): Parsed {
    var d := DigitsEnd(s, 0);
    if d == 0 || d > LONGEST_SECOND then Parsed(ZERO, 0)
    else if d == |s| || s[d] != '.' then Parsed(Time(ValueOf(s[..d]), 0), d)
    else
      var e := Min(d + 1 + FRACTION_DIGITS, DigitsEnd(s, d + 1));
      if e == d + 1 then Parsed(Time(ValueOf(s[..d]), 0), d)
      else Parsed(Time(ValueOf(s[..d]), Nanoseconds(s[d + 1..e])), e)
  }

  lemma {:induction false} ZerosHaveNoValue(n: nat)
    ensures ValueOf(Zeros(n)) == 0
  {
    if n > 0 {
      assert Zeros(n)[..n - 1] == Zeros(n - 1);
      ZerosHaveNoValue(n - 1);
    }
  }

  /** The part of string_to_utility_time after the dot. The nine-character buffer starts out as zeros and is
      overwritten from the left. */
  method ReadFraction(s: string, start: nat) returns (nsec: nat, ptr: nat)
    requires start <= |s|
    ensures start <= ptr <= |s| && ptr == Min(start + FRACTION_DIGITS, DigitsEnd(s, start))
    ensures nsec == Nanoseconds(s[start..ptr])
  {
    var buffer := new char[FRACTION_DIGITS](_ => '0');
    ptr := start;
    var count := 0;
    while ptr < |s| && IsDigit(s[ptr]) && count < FRACTION_DIGITS
      invariant 0 <= count <= FRACTION_DIGITS && ptr == start + count && ptr <= |s|
      invariant DigitsEnd(s, start) == DigitsEnd(s, ptr)
      invariant forall k :: 0 <= k < count ==> buffer[k] == s[start + k]
      invariant forall k :: count <= k < FRACTION_DIGITS ==> buffer[k] == '0'
    {
      buffer[count] := s[ptr];
      ptr := ptr + 1;
      count := count + 1;
    }
    assert buffer[..] == s[start..ptr] + Zeros(FRACTION_DIGITS - count);
    nsec := ValueOf(buffer[..]);
  }

  /** string_to_utility_time. */
  method StringToTime(s: string, res: TimeCell) returns (end: nat)
    modifies res
    ensures res.Value() == Parse(s).time && end == Parse(s).end
  {
    end := 0;
    var ptr := 0;
    while ptr < |s| && IsDigit(s[ptr])
      invariant ptr <= |s|
      invariant DigitsEnd(s, 0) == DigitsEnd(s, ptr)
    {
      ptr := ptr + 1;
    }
    if ptr == 0 || ptr > LONGEST_SECOND {
      res.Assign(ZERO);
      return;
    }
    res.sec := ValueOf(s[..ptr]);
    if ptr < |s| && s[ptr] == '.' {
      var start := ptr + 1;
      res.nsec, ptr := ReadFraction(s, start);
      if ptr == start {
        assert s[start..ptr] + Zeros(FRACTION_DIGITS) == Zeros(FRACTION_DIGITS);
        ZerosHaveNoValue(FRACTION_DIGITS);
        ptr := ptr - 1;
      }
    } else {
      res.nsec := 0;
    }
    end := ptr;
  }

  // ---------- the promises ----------

  lemma {:induction false} DigitsEndAt(s: string, i: nat, e: nat)
    requires i <= e <= |s|
    requires AllDigits(s[i..e]) && (e < |s| ==> !IsDigit(s[e]))
    ensures DigitsEnd(s, i) == e
    decreases e - i
  {
    if i < e {
      assert s[i] == s[i..e][0];
      assert s[i + 1..e] == s[i..e][1..];
      DigitsEndAt(s, i + 1, e);
    }
  }

  /** `s` is "D.F" followed by other text, with `d` characters in D and `n` in F: it parses to D seconds
      and the first nine digits of F, padded with zeros on the right, and exactly those are consumed. */
  lemma ParsesSecondsAndFraction(s: string, d: nat, n: nat)
    requires 1 <= d <= 18 && 1 <= n && d + 1 + n <= |s|
    requires AllDigits(s[0..d]) && s[d] == '.' && AllDigits(s[d + 1..d + 1 + n])
    requires d + 1 + n < |s| ==> !IsDigit(s[d + 1 + n])
    ensures var e := d + 1 + Min(9, n);
            Parse(s) == Parsed(Time(ValueOf(s[..d]), Nanoseconds(s[d + 1..e])), e)
  {
    DigitsEndAt(s, 0, d);
    DigitsEndAt(s, d + 1, d + 1 + n);
  }

  /** A dot with no digit after it is left unconsumed, as are all other characters after the seconds. */
  lemma ParsesSecondsAlone(s: string, d: nat)
    requires 1 <= d <= 18 && d <= |s|
    requires AllDigits(s[0..d]) && (d < |s| ==> !IsDigit(s[d]))
    requires d + 1 < |s| && s[d] == '.' ==> !IsDigit(s[d + 1])
    ensures Parse(s) == Parsed(Time(ValueOf(s[..d]), 0), d)
  {
    DigitsEndAt(s, 0, d);
    if d < |s| && s[d] == '.' {
      DigitsEndAt(s, d + 1, d + 1);
    }
  }

  /** Nothing at all is converted of a text that starts with no digit, or with more than eighteen. */
  lemma ParsesNothing(s: string, d: nat)
    requires d <= |s| && AllDigits(s[0..d]) && (d < |s| ==> !IsDigit(s[d]))
    requires d == 0 || d > 18
    ensures Parse(s) == Parsed(Time(0, 0), 0)
  {
    DigitsEndAt(s, 0, d);
  }

  lemma TenToThe18()
    ensures Pow10(18) == 1_000_000_000_000_000_000
  {
    assert Pow10(6) == 1_000_000;
    assert Pow10(12) == 1_000_000_000_000;
  }

  lemma PrintedIsParsed(t: Time)
    requires t.Normal() && 0 <= t.sec && |Decimal(t.sec)| <= 18
    ensures Parse(ToString(t)) == Parsed(t, |ToString(t)|)
  {
    var whole, fraction := Decimal(t.sec), Padded(t.nsec, FRACTION_DIGITS);
    var s, d := ToString(t), |whole|;
    assert s[..d] == s[0..d] == whole;
    assert s[d + 1..|s|] == fraction;
    ParsesSecondsAndFraction(s, d, FRACTION_DIGITS);
    assert fraction + Zeros(0) == fraction;
  }

  lemma TooLongIsNotParsed(t: Time)
    requires t.Normal() && 0 <= t.sec && |Decimal(t.sec)| > 18
    ensures Parse(ToString(t)) == Parsed(Time(0, 0), 0)
  {
    assert ToString(t)[0..|Decimal(t.sec)|] == Decimal(t.sec);
    ParsesNothing(ToString(t), |Decimal(t.sec)|);
  }

  /** Parsing a printed time gives the time back, with everything consumed, if and only if the seconds have at most
      eighteen digits. Beyond that nothing is converted. */
  lemma PrintThenParse(t: Time)
    requires t.Normal() && 0 <= t.sec
    ensures Parse(ToString(t)) == Parsed(t, |ToString(t)|) <==> t.sec < 1_000_000_000_000_000_000
    ensures t.sec >= 1_000_000_000_000_000_000 ==> Parse(ToString(t)) == Parsed(Time(0, 0), 0)
  {
    TenToThe18();
    DecimalLength(t.sec, 18);
    if |Decimal(t.sec)| <= 18 {
      PrintedIsParsed(t);
    } else {
      TooLongIsNotParsed(t);
    }
  }
}
