/** The value change dump written from a sched_switch trace (sched_switch.c): the identifier code of each program and
    the bit strings that show CPU numbers. */
module SchedVcd {
  import opened Common

  // ---------- identifier codes ----------

  /** The printable characters allowed in an identifier code: section 18.2 of IEEE 1364-2005. */
  const FIRST_CODE := 33
  const CODES := 94

  predicate IsCode(c: char) {
    33 <= c as int <= 126
  }

  /** The code of program `n`: digits to base 94, the least significant one first. */
  function Tag(n: nat): (tag: string)
    ensures tag != [] && forall i :: 0 <= i < |tag| ==> IsCode(tag[i])
  {
    var c := (n % CODES + FIRST_CODE) as char;
    if n < CODES then [c] else [c] + Tag(n / CODES)
  }

  function TagValue(tag: string): int {
    if tag == [] then 0 else tag[0] as int - FIRST_CODE + CODES * TagValue(tag[1..])
  }

  lemma {:induction false} TagDenotes(n: nat)
    ensures TagValue(Tag(n)) == n
  {
    if n >= CODES {
      TagDenotes(n / CODES);
      assert Tag(n)[1..] == Tag(n / CODES);
    } else {
      assert Tag(n)[1..] == [];
    }
  }

  /** `n` without its `k` lowest digits to base 94. */
  function WithoutDigits(n: nat, k: nat): nat {
    if k == 0 then n else WithoutDigits(n / 94, k - 1)
  }

  /** The character at each place is the digit of its weight, and there is one for each digit that is not a leading
      zero. */
  lemma {:induction false} TagAt(n: nat, k: nat)
    ensures k < |Tag(n)| <==> k == 0 || WithoutDigits(n, k) > 0
    ensures k < |Tag(n)| ==> Tag(n)[k] as int == 33 + WithoutDigits(n, k) % 94
  {
    TagStep(n);
    if k > 0 {
      if n < CODES {
        NoDigitsLeft(k - 1);
      } else {
        TagAt(n / CODES, k - 1);
      }
    }
  }

  lemma {:induction false} NoDigitsLeft(k: nat)
    ensures WithoutDigits(0, k) == 0
  {
    if k > 0 {
      NoDigitsLeft(k - 1);
    }
  }

  /** No two programs share a code. */
  lemma TagsAreDistinct(m: nat, n: nat)
    ensures Tag(m) == Tag(n) ==> m == n
  {
    TagDenotes(m);
    TagDenotes(n);
  }

  lemma {:induction false} TagLength(n: nat, k: nat)
    requires n < Pow94(k) && k >= 1
    ensures |Tag(n)| <= k
  {
    if n >= CODES {
      assert k > 1 by {
        assert Pow94(1) == 94;
      }
      TagLength(n / CODES, k - 1);
    }
  }

  function Pow94(k: nat): nat {
    if k == 0 then 1 else CODES * Pow94(k - 1)
  }

  /** The first character of a code, and the rest. */
  lemma TagStep(n: nat)
    ensures Tag(n) == [(n % CODES + FIRST_CODE) as char] + (if n / CODES == 0 then [] else Tag(n / CODES))
  {
  }

  lemma FiveAreEnough(n: nat)
    requires n < 0x1_0000_0000
    ensures |Tag(n)| <= 5
  {
    assert Pow94(2) == 94 * 94 && Pow94(3) == 94 * 94 * 94;
    assert Pow94(4) == 94 * 94 * 94 * 94 && Pow94(5) == 94 * 94 * 94 * 94 * 94;
    TagLength(n, 5);
  }

  /** What is still to be written, of a code of which a part has been written. */
  function Rest(n: nat): string {
    if n == 0 then [] else Tag(n)
  }

  /** The do-while that writes a code into the line buffer; five places are enough for an unsigned number. */
  method WriteTag(n0: nat, line: array<char>) returns (j: nat)
    requires n0 < 0x1_0000_0000 && line.Length == 1000
    modifies line
    ensures j < 1000 && line[..j] == Tag(n0) && line[j] == '\0'
  {
    FiveAreEnough(n0);
    var n: nat;
    j, n := WriteCode(0, n0, line);
    TagStep(n0);
    while n != 0
      invariant j + |Rest(n)| == |Tag(n0)| <= 5
      invariant line[..j] + Rest(n) == Tag(n0)
      decreases n
    {
      ghost var before := line[..j];
      TagStep(n);
      Regroup(before, [(n % CODES + FIRST_CODE) as char], Rest(n / CODES));
      j, n := WriteCode(j, n, line);
    }
    line[j] := '\0';
  }

  /** The body of that loop. */
  method WriteCode(j: nat, n: nat, line: array<char>) returns (next: nat, rest: nat)
    requires j < line.Length
    modifies line
    ensures next == j + 1 && rest == n / CODES
    ensures line[..next] == old(line[..j]) + [(n % CODES + FIRST_CODE) as char]
  {
    line[j] := (n % CODES + FIRST_CODE) as char;
    return j + 1, n / CODES;
  }

  // ---------- CPU numbers as bits ----------

  function Pow2(k: nat): (p: nat)
    ensures p >= 1
  {
    if k == 0 then 1 else 2 * Pow2(k - 1)
  }

  /** Bit `k` of `n`: shifted right `k` times, the lowest bit. */
  function Bit(n: nat, k: nat): (b: nat)
    ensures b < 2
  {
    if k == 0 then n % 2 else Bit(n / 2, k - 1)
  }

  /** Below twice a power of two, the bit of that power tells whether the number reaches it. */
  lemma {:induction false} TopBit(n: nat, k: nat)
    requires n < Pow2(k + 1)
    ensures Bit(n, k) == 1 <==> Pow2(k) <= n
  {
    if k > 0 {
      TopBit(n / 2, k - 1);
    }
  }

  /** The loop that finds the highest bit set in a 32-bit number: `nofBits + 1` digits are enough for it, and for
      every smaller number, and no fewer are, except that there is always one. */
  method HighestBit(maxCpu: nat) returns (nofBits: nat)
    requires maxCpu < Pow2(32)
    ensures nofBits <= 31 && maxCpu < Pow2(nofBits + 1)
    ensures nofBits > 0 ==> Pow2(nofBits) <= maxCpu
  {
    nofBits := 31;
    while nofBits > 0
      invariant nofBits <= 31 && maxCpu < Pow2(nofBits + 1)
    {
      TopBit(maxCpu, nofBits);
      if Bit(maxCpu, nofBits) != 0 {
        break;
      }
      nofBits := nofBits - 1;
    }
  }

  /** The number that a string of binary digits shows, with `one` for the digit one. */
  function Shown(bits: string, one: char): nat {
    if bits == [] then 0
    else 2 * Shown(bits[..|bits| - 1], one) + (if bits[|bits| - 1] == one then 1 else 0)
  }

  /** The `k` lowest bits of `n`, the highest of them first. */
  function BitString(n: nat, k: nat, digits: string): (bits: string)
    requires |digits| == 2
    ensures |bits| == k
  {
    if k == 0 then [] else BitString(n / 2, k - 1, digits) + [digits[n % 2]]
  }

  lemma {:induction false} BitStringAt(n: nat, k: nat, digits: string, j: nat)
    requires |digits| == 2 && j < k
    ensures BitString(n, k, digits)[j] == digits[Bit(n, k - 1 - j)]
  {
    if j < k - 1 {
      BitStringAt(n / 2, k - 1, digits, j);
    }
  }

  lemma {:induction false} BitStringShows(n: nat, k: nat, digits: string)
    requires |digits| == 2 && digits[0] != digits[1] && n < Pow2(k)
    ensures Shown(BitString(n, k, digits), digits[1]) == n
  {
    if k > 0 {
      BitStringShows(n / 2, k - 1, digits);
      assert BitString(n, k, digits)[..k - 1] == BitString(n / 2, k - 1, digits);
    }
  }

  function Digits(inherited: bool): string {
    if inherited then "LH" else "01"
  }

  /** The loop that prints a CPU number, with "01" or, while priority is inherited, "LH". For every CPU up to the
      maximum the digits show that CPU. */
  method PrintCpu(toCpu: nat, maxCpu: nat, nofBits: nat, inherited: bool) returns (bits: string)
    requires toCpu <= maxCpu < Pow2(nofBits + 1)
    ensures |bits| == nofBits + 1
    ensures forall i :: 0 <= i < |bits| ==>
              if inherited then bits[i] == 'L' || bits[i] == 'H' else bits[i] == '0' || bits[i] == '1'
    ensures Shown(bits, if inherited then 'H' else '1') == toCpu
  {
    bits := [];
    var j := 0;
    while j <= nofBits
      invariant 0 <= j <= nofBits + 1 && |bits| == j
      invariant forall i :: 0 <= i < j ==> bits[i] in Digits(inherited)
      invariant bits == BitString(toCpu, nofBits + 1, Digits(inherited))[..j]
    {
      BitStringAt(toCpu, nofBits + 1, Digits(inherited), j);
      bits := bits + [Digits(inherited)[Bit(toCpu, nofBits - j)]];
      j := j + 1;
    }
    assert bits == BitString(toCpu, nofBits + 1, Digits(inherited));
    BitStringShows(toCpu, nofBits + 1, Digits(inherited));
  }
}
