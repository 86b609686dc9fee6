/** Numbers in a base, most significant digit first. */
module Radix {
  import opened Bits

  function Pow(base: nat, e: nat): nat {
    if e == 0 then 1 else base * Pow(base, e - 1)
  }

  lemma {:induction false} PowPositive(base: nat, e: nat)
    requires base > 0
    ensures Pow(base, e) > 0
  {
    if e > 0 { PowPositive(base, e - 1); }
  }

  lemma {:induction false} PowAdd(base: nat, a: nat, b: nat)
    ensures Pow(base, a + b) == Pow(base, a) * Pow(base, b)
  {
    if a > 0 {
      PowAdd(base, a - 1, b);
      assert base * (Pow(base, a - 1) * Pow(base, b)) == (base * Pow(base, a - 1)) * Pow(base, b);
    }
  }

  /** (x^a)^b = x^(a * b) */
  lemma {:induction false} PowMul(base: nat, a: nat, b: nat)
    ensures Pow(Pow(base, a), b) == Pow(base, a * b)
  {
    if b > 0 {
      PowMul(base, a, b - 1);
      PowAdd(base, a, a * (b - 1));
      assert a * b == a + a * (b - 1);
    }
  }

  lemma {:induction false} PowOfLarger(x: nat, y: nat, e: nat)
    requires x <= y
    ensures Pow(x, e) <= Pow(y, e)
  {
    if e > 0 {
      PowOfLarger(x, y, e - 1);
      MulGrows(x, y, Pow(x, e - 1), Pow(y, e - 1));
    }
  }

  lemma MulGrows(a: nat, b: nat, c: nat, d: nat)
    requires a <= b && c <= d
    ensures a * c <= b * d
  {
    assert a * c <= b * c;
    assert b * c <= b * d;
  }

  lemma {:induction false} PowGrows(base: nat, a: nat, b: nat)
    requires base > 0 && a <= b
    ensures Pow(base, a) <= Pow(base, b)
  {
    if a < b {
      PowGrows(base, a, b - 1);
      PowPositive(base, b - 1);
      MulGrows(1, base, Pow(base, b - 1), Pow(base, b - 1));
    }
  }

  lemma {:induction false} PowStrict(x: nat, y: nat, e: nat)
    requires x < y && e > 0
    ensures Pow(x, e) < Pow(y, e)
  {
    if e == 1 {
      assert Pow(x, 0) == 1 && Pow(y, 0) == 1;
    } else {
      PowStrict(x, y, e - 1);
      MulGrows(x, y - 1, Pow(x, e - 1), Pow(y, e - 1));
      PowPositive(y, e - 1);
      assert (y - 1) * Pow(y, e - 1) == y * Pow(y, e - 1) - Pow(y, e - 1);
    }
  }

  /** Roots keep the order. */
  lemma Root(x: nat, y: nat, e: nat)
    requires e > 0 && Pow(x, e) <= Pow(y, e)
    ensures x <= y
  {
    if y < x { PowStrict(y, x, e); }
  }

  lemma Commute(a: nat, b: nat)
    ensures a * b == b * a
  {}

  /** If p^a <= q^b, then m digits in base p fit in s digits in base q, s being at least b * m / a. */
  lemma Compare(p: nat, a: nat, q: nat, b: nat, m: nat, s: nat)
    requires q > 0 && a > 0 && Pow(p, a) <= Pow(q, b) && b * m <= a * s
    ensures Pow(p, m) <= Pow(q, s)
  {
    hide Pow;
    PowMul(p, m, a);
    PowMul(p, a, m);
    Commute(m, a);
    PowOfLarger(Pow(p, a), Pow(q, b), m);
    PowMul(q, b, m);
    PowGrows(q, b * m, a * s);
    PowMul(q, s, a);
    Commute(s, a);
    Root(Pow(p, m), Pow(q, s), a);
  }

  // ---------- Digits ----------

  predicate AreDigits(base: nat, digits: seq<nat>) {
    forall i :: 0 <= i < |digits| ==> digits[i] < base
  }

  function Value(base: nat, digits: seq<nat>): nat {
    if digits == [] then 0 else Value(base, digits[..|digits| - 1]) * base + digits[|digits| - 1]
  }

  lemma ValueAppend(base: nat, digits: seq<nat>, d: nat)
    ensures Value(base, digits + [d]) == Value(base, digits) * base + d
  {
    assert (digits + [d])[..|digits|] == digits;
  }

  lemma {:induction false} ValueConcat(base: nat, a: seq<nat>, b: seq<nat>)
    ensures Value(base, a + b) == Value(base, a) * Pow(base, |b|) + Value(base, b)
  {
    if b == [] {
      assert a + b == a;
    } else {
      var init, d := b[..|b| - 1], b[|b| - 1];
      ValueConcat(base, a, init);
      assert a + b == a + init + [d];
      ValueAppend(base, a + init, d);
      Shift(Value(base, a), Pow(base, |init|), Value(base, init), base, d);
    }
  }

  lemma Shift(x: nat, p: nat, y: nat, base: nat, d: nat)
    ensures (x * p + y) * base + d == x * (base * p) + (y * base + d)
  {}

  lemma OneMoreDigit(v: nat, p: nat, base: nat, d: nat)
    requires v < p && d < base
    ensures v * base + d < base * p
  {
    MulGrows(v + 1, p, base, base);
  }

  lemma {:induction false} ValueBound(base: nat, digits: seq<nat>)
    requires AreDigits(base, digits)
    ensures Value(base, digits) < Pow(base, |digits|)
  {
    if digits != [] {
      var init := digits[..|digits| - 1];
      ValueBound(base, init);
      OneMoreDigit(Value(base, init), Pow(base, |init|), base, digits[|digits| - 1]);
    }
  }

  function Zeros(n: nat): (z: seq<nat>)
    ensures |z| == n && forall i :: 0 <= i < n ==> z[i] == 0
  {
    seq(n, i => 0)
  }

  lemma {:induction false} ValueZeros(base: nat, n: nat, digits: seq<nat>)
    ensures Value(base, Zeros(n)) == 0 && Value(base, Zeros(n) + digits) == Value(base, digits)
  {
    ZerosAreZero(base, n);
    ValueConcat(base, Zeros(n), digits);
  }

  lemma {:induction false} ZerosAreZero(base: nat, n: nat)
    ensures Value(base, Zeros(n)) == 0
  {
    if n > 0 {
      ZerosAreZero(base, n - 1);
      assert Zeros(n)[..n - 1] == Zeros(n - 1);
    }
  }

  /** The digits of a number, without leading zeros. */
  function ToDigits(base: nat, v: nat): (digits: seq<nat>)
    requires base > 1
    decreases v
  {
    if v == 0 then []
    else
      Smaller(base, v);
      ToDigits(base, v / base) + [v % base]
  }

  lemma Smaller(base: nat, v: nat)
    requires base > 1 && v > 0
    ensures v / base < v && v == v / base * base + v % base
  {
    var q, r := v / base, v % base;
    assert v == q * base + r;
    MulGrows(q, q, 2, base);
  }

  predicate NoLeadingZero(digits: seq<nat>) {
    digits != [] ==> digits[0] != 0
  }

  lemma {:induction false} ToDigitsSound(base: nat, v: nat)
    requires base > 1
    ensures var digits := ToDigits(base, v);
      AreDigits(base, digits) && NoLeadingZero(digits) && Value(base, digits) == v
  {
    if v > 0 {
      Smaller(base, v);
      ToDigitsSound(base, v / base);
      ValueAppend(base, ToDigits(base, v / base), v % base);
    }
  }

  /** They are the only ones. */
  lemma {:induction false} DigitsUnique(base: nat, digits: seq<nat>)
    requires base > 1 && AreDigits(base, digits) && NoLeadingZero(digits)
    ensures ToDigits(base, Value(base, digits)) == digits
  {
    if digits != [] {
      var n := |digits| - 1;
      var init, d := digits[..n], digits[n];
      DigitsUnique(base, init);
      Quotient(base, Value(base, init), d);
      assert Value(base, init) > 0 ==> Value(base, init) * base > 0;
    }
  }

  lemma Quotient(base: nat, q: nat, d: nat)
    requires d < base
    ensures (q * base + d) / base == q && (q * base + d) % base == d
  {
    DivModUnique(q * base + d, base, q, d);
  }

  lemma QuotientBound(v: nat, base: nat, p: nat)
    requires base > 0 && v < base * p
    ensures v / base < p
  {
    var q := v / base;
    assert v == q * base + v % base;
    assert q >= p ==> q * base >= p * base;
  }

  /** A small number has few digits. */
  lemma {:induction false} ToDigitsLength(base: nat, v: nat, n: nat)
    requires base > 1 && v < Pow(base, n)
    ensures |ToDigits(base, v)| <= n
  {
    if v > 0 && n > 0 {
      Smaller(base, v);
      QuotientBound(v, base, Pow(base, n - 1));
      ToDigitsLength(base, v / base, n - 1);
    }
  }

  /** Digits with leading zeros are the digits of their value behind zeros. */
  lemma LeadingZeros(base: nat, digits: seq<nat>, z: nat)
    requires base > 1 && AreDigits(base, digits) && z <= |digits|
    requires forall i :: 0 <= i < z ==> digits[i] == 0
    requires z < |digits| ==> digits[z] != 0
    ensures digits[z..] == ToDigits(base, Value(base, digits)) && digits == Zeros(z) + digits[z..]
    ensures Value(base, digits) == Value(base, digits[z..])
  {
    assert digits == Zeros(z) + digits[z..];
    ValueZeros(base, z, digits[z..]);
    DigitsUnique(base, digits[z..]);
  }
}
