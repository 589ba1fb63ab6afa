/**
  Positional numerals in any base, most significant digit first, and the
  conversion between two bases that keeps leading zeros.  Base58 text,
  decimal text and big-endian byte strings are all instances.
 */
module Numerals {

  function Value(base: nat, ds: seq<nat>): nat {
    if ds == [] then 0 else Value(base, ds[..|ds| - 1]) * base + ds[|ds| - 1]
  }

  function Digits(base: nat, n: nat): (ds: seq<nat>)
    requires 2 <= base
    ensures forall i :: 0 <= i < |ds| ==> ds[i] < base
    ensures ds == [] <==> n == 0
    ensures ds != [] ==> ds[0] != 0
  {
    if n == 0 then [] else DivDecreases(base, n); Digits(base, n / base) + [n % base]
  }

  function Pow(base: nat, k: nat): nat {
    if k == 0 then 1 else base * Pow(base, k - 1)
  }

  function Zeros(k: nat): (ds: seq<nat>)
    ensures |ds| == k && forall i :: 0 <= i < k ==> ds[i] == 0
  {
    seq(k, _ => 0)
  }

  function LeadingZeros(ds: seq<nat>): (z: nat)
    ensures z <= |ds|
    ensures forall i :: 0 <= i < z ==> ds[i] == 0
    ensures z < |ds| ==> ds[z] != 0
  {
    if ds == [] || ds[0] != 0 then 0 else 1 + LeadingZeros(ds[1..])
  }

  ghost predicate InBase(base: nat, ds: seq<nat>) {
    forall i :: 0 <= i < |ds| ==> ds[i] < base
  }

  /** Reads digits in base `b`, writes the same number in base `c`, keeping leading zeros. */
  function Convert(b: nat, c: nat, ds: seq<nat>): (r: seq<nat>)
    requires 2 <= c
    ensures InBase(c, r)
  {
    Zeros(LeadingZeros(ds)) + Digits(c, Value(b, ds))
  }

  lemma MulMonotone(a: int, b: int, k: nat)
    requires a <= b
    ensures a * k <= b * k
  {
    assert (b - a) * k >= 0;
  }

  lemma DivDecreases(base: nat, n: nat)
    requires 2 <= base && 0 < n
    ensures n / base < n
  {
  }

  lemma DivModSum(base: nat, n: nat)
    requires 0 < base
    ensures n / base * base + n % base == n
  {
  }

  lemma DivModOfStep(base: nat, v: nat, d: nat)
    requires 0 < base && d < base
    ensures (v * base + d) / base == v && (v * base + d) % base == d
  {
    var n := v * base + d;
    DivModSum(base, n);
    UniqueQuotient(base, v, d, n / base, n % base);
  }

  lemma UniqueQuotient(base: nat, q1: nat, r1: nat, q2: nat, r2: nat)
    requires r1 < base && r2 < base
    requires q1 * base + r1 == q2 * base + r2
    ensures q1 == q2 && r1 == r2
  {
    if q1 < q2 {
      MulMonotone(q1 + 1, q2, base);
    } else if q2 < q1 {
      MulMonotone(q2 + 1, q1, base);
    }
  }

  lemma ValueAppend(base: nat, front: seq<nat>, d: nat)
    ensures Value(base, front + [d]) == Value(base, front) * base + d
  {
    assert (front + [d])[..|front|] == front;
  }

  lemma OneDigit(base: nat, d: nat)
    ensures Value(base, [d]) == d
  {
    ValueAppend(base, [], d);
    assert [] + [d] == [d];
  }

  lemma ValueStep(base: nat, front: seq<nat>, d: nat, ds: seq<nat>)
    requires ds == front + [d]
    ensures Value(base, ds) == Value(base, front) * base + d
  {
    ValueAppend(base, front, d);
  }

  lemma {:induction false} ValueOfDigits(base: nat, n: nat)
    requires 2 <= base
    ensures Value(base, Digits(base, n)) == n
  {
    if n != 0 {
      DivDecreases(base, n);
      ValueOfDigits(base, n / base);
      ValueAppend(base, Digits(base, n / base), n % base);
      DivModSum(base, n);
    }
  }

  /** The digits of a number are the only canonical numeral for it. */
  lemma {:induction false} DigitsOfValue(base: nat, ds: seq<nat>)
    requires 2 <= base && InBase(base, ds)
    requires ds != [] ==> ds[0] != 0
    ensures Digits(base, Value(base, ds)) == ds
  {
    if ds != [] {
      var front, last := ds[..|ds| - 1], ds[|ds| - 1];
      DigitsOfValue(base, front);
      DivModOfStep(base, Value(base, front), last);
      if front != [] {
        assert Value(base, front) != 0;
        assert Value(base, front) * base != 0;
      }
    }
  }

  lemma {:induction false} ValueSkipsZeros(base: nat, z: nat, ds: seq<nat>)
    ensures Value(base, Zeros(z) + ds) == Value(base, ds)
  {
    if ds != [] {
      ValueSkipsZeros(base, z, ds[..|ds| - 1]);
      assert (Zeros(z) + ds)[..z + |ds| - 1] == Zeros(z) + ds[..|ds| - 1];
    } else if z != 0 {
      ValueSkipsZeros(base, z - 1, []);
      assert (Zeros(z) + ds)[..z - 1] == Zeros(z - 1) + [];
    }
  }

  /** Conversion changes the digits, not the number. */
  lemma ConvertMeans(b: nat, c: nat, ds: seq<nat>)
    requires 2 <= c
    ensures Value(c, Convert(b, c, ds)) == Value(b, ds)
  {
    ValueSkipsZeros(c, LeadingZeros(ds), Digits(c, Value(b, ds)));
    ValueOfDigits(c, Value(b, ds));
  }

  lemma ConvertSelf(b: nat, ds: seq<nat>)
    requires 2 <= b && InBase(b, ds)
    ensures Convert(b, b, ds) == ds
  {
    var z := LeadingZeros(ds);
    assert ds == Zeros(z) + ds[z..];
    ValueSkipsZeros(b, z, ds[z..]);
    DigitsOfValue(b, ds[z..]);
  }

  /** Converting there and back is the identity: leading zeros and value both survive. */
  lemma {:induction false} ConvertRoundTrip(b: nat, c: nat, ds: seq<nat>)
    requires 2 <= b && 2 <= c && InBase(b, ds)
    ensures LeadingZeros(Convert(b, c, ds)) == LeadingZeros(ds)
    ensures Convert(c, b, Convert(b, c, ds)) == ds
  {
    var z := LeadingZeros(ds);
    var core := ds[z..];
    assert ds == Zeros(z) + core;
    ValueSkipsZeros(b, z, core);
    var v := Value(b, core);
    var e := Digits(c, v);
    LeadingZerosOf(z, e);
    ValueSkipsZeros(c, z, e);
    ValueOfDigits(c, v);
    DigitsOfValue(b, core);
  }

  lemma {:induction false} LeadingZerosOf(z: nat, ds: seq<nat>)
    requires ds != [] ==> ds[0] != 0
    ensures LeadingZeros(Zeros(z) + ds) == z
  {
    if z != 0 {
      LeadingZerosOf(z - 1, ds);
      assert (Zeros(z) + ds)[1..] == Zeros(z - 1) + ds;
    }
  }

  // ----- size bounds -----

  lemma OneMoreDigit(base: nat, v: nat, d: nat, bound: nat)
    requires v < bound && d < base
    ensures v * base + d < base * bound
  {
    MulMonotone(v + 1, bound, base);
  }

  lemma {:induction false} ValueBelow(base: nat, ds: seq<nat>)
    requires InBase(base, ds)
    ensures Value(base, ds) < Pow(base, |ds|)
  {
    if ds != [] {
      var front := ds[..|ds| - 1];
      ValueBelow(base, front);
      OneMoreDigit(base, Value(base, front), ds[|ds| - 1], Pow(base, |front|));
    }
  }

  /** A number with `k + 1` digits is at least `base` to the power `k`. */
  lemma {:induction false} DigitsReach(base: nat, n: nat)
    requires 2 <= base && 0 < n
    ensures Pow(base, |Digits(base, n)| - 1) <= n
  {
    DivDecreases(base, n);
    if n / base != 0 {
      DigitsReach(base, n / base);
      MulMonotone(Pow(base, |Digits(base, n / base)| - 1), n / base, base);
      DivModSum(base, n);
    }
  }

  lemma {:induction false} PowMonotone(base: nat, j: nat, k: nat)
    requires 1 <= base && j <= k
    ensures 1 <= Pow(base, j) <= Pow(base, k)
  {
    if j < k {
      PowMonotone(base, j, k - 1);
      assert Pow(base, k - 1) <= base * Pow(base, k - 1);
    } else if 0 < k {
      PowMonotone(base, k - 1, k - 1);
      assert 1 <= base * Pow(base, k - 1);
    }
  }

  lemma {:induction false} PowSplit(base: nat, j: nat, k: nat)
    ensures Pow(base, j + k) == Pow(base, j) * Pow(base, k)
  {
    if j != 0 {
      PowSplit(base, j - 1, k);
      assert base * (Pow(base, j - 1) * Pow(base, k)) == base * Pow(base, j - 1) * Pow(base, k);
    }
  }

  lemma {:induction false} PowOfLarger(a: nat, b: nat, k: nat)
    requires a <= b
    ensures Pow(a, k) <= Pow(b, k)
  {
    if k != 0 {
      PowOfLarger(a, b, k - 1);
      MulMonotone(a, b, Pow(a, k - 1));
      MulMonotone(Pow(a, k - 1), Pow(b, k - 1), b);
    }
  }
}
