/** Optional values and results. */
module Options {
  datatype Option<T> = None | Some(value: T)
  datatype Result<T> = Ok(value: T) | Err
}

/** Lists without repeats. */
module Sequences {

  ghost predicate NoRepeats<T>(s: seq<T>) {
    forall i, j {:trigger s[i], s[j]} :: 0 <= i < j < |s| ==> s[i] != s[j]
  }

  lemma NoRepeatsConcat<T>(a: seq<T>, b: seq<T>)
    requires NoRepeats(a) && NoRepeats(b) && forall x :: x in a ==> x !in b
    ensures NoRepeats(a + b)
  {
    forall i, j | 0 <= i < j < |a + b| ensures (a + b)[i] != (a + b)[j] {
      if i < |a| { assert a[i] in a; }
      if j >= |a| { assert b[j - |a|] in b; }
    }
  }
}

/** Facts about products and quotients. */
module Arithmetic {

  function Max(a: int, b: int): int {
    if a >= b then a else b
  }

  function Min(a: int, b: int): int {
    if a <= b then a else b
  }

  lemma TimesOrdered(a: int, b: int, d: int)
    requires d >= 0
    ensures a < b ==> a * d + d <= b * d
    ensures a <= b ==> a * d <= b * d
  {
    if a < b {
      var k := b - a - 1;
      assert b == a + 1 + k;
      assert (a + 1 + k) * d == a * d + d + k * d;
      NotNegative(k, d);
    }
  }

  lemma NotNegative(k: int, d: int)
    requires k >= 0 && d >= 0
    ensures k * d >= 0
  {
  }

  lemma TimesGrows(k: int, d: int)
    requires k > 0 && d > 0
    ensures k * d >= d && k * d >= k
  {
    assert k * d == (k - 1) * d + d && (k - 1) * d >= 0;
    assert k * d == k * (d - 1) + k && k * (d - 1) >= 0;
  }

  /** Quotient and remainder are determined by the division equation. */
  lemma QuotientUnique(x: int, d: int, q: int, r: int)
    requires d > 0 && 0 <= r < d && x == q * d + r
    ensures x / d == q && x % d == r
  {
    var p, s := x / d, x % d;
    assert x == p * d + s && 0 <= s < d;
    TimesOrdered(p, q, d);
    TimesOrdered(q, p, d);
  }

  lemma ScaleIff(a: real, b: real, f: real)
    requires f > 0.0
    ensures a <= b <==> a * f <= b * f
  {
    if a <= b { assert (b - a) * f >= 0.0; } else { assert (a - b) * f > 0.0; }
  }
}
