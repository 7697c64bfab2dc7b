/** Small things that several components need. */
module Common {
  function Min(a: nat, b: nat): nat {
    if a < b then a else b
  }

  function Max(a: int, b: int): int {
    if a < b then b else a
  }

  lemma Regroup<T>(a: seq<T>, b: seq<T>, c: seq<T>)
    ensures a + b + c == a + (b + c)
  {
  }

  lemma TakeOne<T>(s: seq<T>, n: nat)
    requires n < |s|
    ensures s[..n + 1] == s[..n] + [s[n]]
  {
  }

  lemma TakeAll<T>(s: seq<T>)
    ensures s[..|s|] == s
  {
  }

  lemma QuotientIs(n: nat, m: nat, q: nat, r: nat)
    requires m >= 1 && n == q * m + r && r < m
    ensures n / m == q
  {
    var d := n / m - q;
    assert n / m * m + n % m == n;
    assert d * m == n / m * m - q * m;
    assert d >= 1 ==> d * m >= m;
    assert d <= -1 ==> d * m + m <= 0;
  }

  lemma DivisionIs(n: nat, m: nat, q: nat, r: nat)
    requires m >= 1 && n == q * m + r && r < m
    ensures n / m == q && n % m == r
  {
    QuotientIs(n, m, q, r);
    assert n / m * m + n % m == n;
  }

  /** realloc to no fewer elements; what is new has no particular value, here `fill`. */
  method Realloc<T>(a: array?<T>, n: nat, fill: T) returns (b: array<T>)
    requires a != null ==> a.Length <= n
    ensures fresh(b) && b.Length == n
    ensures a != null ==> forall i :: 0 <= i < a.Length ==> b[i] == a[i]
  {
    b := new T[n](_ => fill);
    if a != null {
      forall i | 0 <= i < a.Length {
        b[i] := a[i];
      }
    }
  }
}
