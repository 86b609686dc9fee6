/** Runs of bits of a number, and numbers cut into digits of a fixed number of bits. */
module BitWindows {
  import opened Bits
  import opened Radix

  /** `width` bits of `v`, above the lowest `lo`. */
  function Window(v: nat, lo: nat, width: nat): nat {
    v / Pow2(lo) % Pow2(width)
  }

  /** The bits of `e` digits of `k` bits each. */
  function Span(k: nat, e: nat): nat {
    k * e
  }

  lemma {:induction false} PowIsPow2(k: nat, e: nat)
    ensures Pow(Pow2(k), e) == Pow2(Span(k, e))
  {
    if e > 0 {
      PowIsPow2(k, e - 1);
      Pow2Add(k, k * (e - 1));
      assert k * e == k + k * (e - 1);
    }
  }

  lemma DivTwice(v: nat, a: nat, b: nat)
    requires a > 0 && b > 0
    ensures v / a / b == v / (a * b)
  {
    var q, r := v / a, v % a;
    var q', r' := q / b, q % b;
    Euclid(v, a);
    Euclid(q, b);
    MulGrows(r' + 1, b, a, a);
    assert q' * b * a + r' * a == (q' * b + r') * a;
    assert q' * (a * b) == q' * b * a;
    assert (r' + 1) * a == r' * a + a;
    DivModUnique(v, a * b, q', r' * a + r);
  }

  lemma Euclid(v: nat, a: nat)
    requires a > 0
    ensures v == v / a * a + v % a && 0 <= v % a < a
  {}

  lemma MulNat(a: nat, b: nat)
    ensures a * b >= 0
  {}

  /** Cutting away high bits first makes no difference. */
  lemma ModDiv(u: nat, p: nat, q: nat, s: nat)
    requires p > 0 && q > 0 && s > 0
    ensures p * q * s > 0 && u % (p * q * s) / p % q == u / p % q
  {
    var m := p * q * s;
    MulGrows(1, p, 1, q);
    MulGrows(1, p * q, 1, s);
    var a, b := u / m, u % m;
    var c := b / p;
    Euclid(u, m);
    Euclid(b, p);
    MulNat(a, q * s);
    assert a * m == (a * (q * s)) * p;
    assert (a * (q * s) + c) * p == (a * (q * s)) * p + c * p;
    DivModUnique(u, p, a * (q * s) + c, b % p);
    assert a * (q * s) == (a * s) * q;
    Euclid(c, q);
    assert (a * s + c / q) * q == (a * s) * q + c / q * q;
    DivModUnique(a * (q * s) + c, q, a * s + c / q, c % q);
  }

  /** A window of a window is a window. */
  lemma WindowOfWindow(v: nat, lo: nat, width: nat, lo': nat, width': nat)
    requires lo' + width' <= width
    ensures Window(Window(v, lo, width), lo', width') == Window(v, lo + lo', width')
  {
    hide Pow2;
    var rest := width - lo' - width';
    Pow2Add(lo', width');
    Pow2Add(lo' + width', rest);
    ModDiv(v / Pow2(lo), Pow2(lo'), Pow2(width'), Pow2(rest));
    Pow2Add(lo, lo');
    DivTwice(v, Pow2(lo), Pow2(lo'));
  }

  /** Dropping low bits moves the window. */
  lemma WindowOfQuotient(v: nat, a: nat, lo: nat, width: nat)
    ensures hide Pow2; Window(v / Pow2(a), lo, width) == Window(v, a + lo, width)
  {
    hide Pow2;
    Pow2Add(a, lo);
    DivTwice(v, Pow2(a), Pow2(lo));
  }

  /** So does adding zeros. */
  lemma WindowOfMultiple(v: nat, a: nat, lo: nat, width: nat)
    ensures hide Pow2; Window(v * Pow2(a), a + lo, width) == Window(v, lo, width)
  {
    hide Pow2;
    WindowOfQuotient(v * Pow2(a), a, lo, width);
    DivModUnique(v * Pow2(a), Pow2(a), v, 0);
  }

  // ---------- Digits ----------

  /** Some digits in the middle of a number are a window of it. */
  lemma DigitsWindow(k: nat, digits: seq<nat>, i: nat, j: nat)
    requires AreDigits(Pow2(k), digits) && i <= j <= |digits|
    ensures Value(Pow2(k), digits[i..j]) ==
            Window(Value(Pow2(k), digits), Span(k, |digits| - j), Span(k, j - i))
  {
    hide Pow2, Value, Pow, Span, Window;
    var base := Pow2(k);
    var a, b, c := digits[..i], digits[i..j], digits[j..];
    assert digits == a + b + c;
    ValueConcat(base, a, b);
    ValueConcat(base, a + b, c);
    ValueBound(base, b);
    ValueBound(base, c);
    PowIsPow2(k, |b|);
    PowIsPow2(k, |c|);
    TakeWindow(Value(base, a), Value(base, b), Value(base, c), Value(base, a + b), Value(base, a + b + c),
               Pow(base, |b|), Pow(base, |c|), Span(k, |b|), Span(k, |c|));
  }

  lemma TakeWindow(a: nat, b: nat, c: nat, ab: nat, abc: nat, p: nat, q: nat, i: nat, j: nat)
    requires p == Pow2(i) && q == Pow2(j) && b < p && c < q && ab == a * p + b && abc == ab * q + c
    ensures Window(abc, j, i) == b
  {
    hide Pow2;
    TakeMiddle(a, b, c, p, q);
  }

  lemma TakeMiddle(a: nat, b: nat, c: nat, p: nat, q: nat)
    requires b < p && c < q
    ensures ((a * p + b) * q + c) / q % p == b
  {
    MulNat(a, p);
    DivModUnique((a * p + b) * q + c, q, a * p + b, c);
    DivModUnique(a * p + b, p, a, b);
  }

  /** The number of bits below digit `i` of `n`. */
  function Below(k: nat, n: nat, i: nat): nat
    requires i < n
  {
    Span(k, n - 1 - i)
  }

  lemma BelowStep(k: nat, n: nat, i: nat)
    requires i < n
    ensures Below(k, n, n - 1) == 0 && (i < n - 1 ==> Below(k, n, i) == k + Below(k, n - 1, i))
    ensures Span(k, n) == k + Span(k, n - 1)
  {
    if i < n - 1 {
      assert k * (n - 1 - i) == k + k * (n - 2 - i);
    }
  }

  /** A number that fits is what its windows are the digits of. */
  lemma {:induction false} FromWindows(k: nat, digits: seq<nat>, v: nat)
    requires v < Pow2(Span(k, |digits|))
    requires forall i :: 0 <= i < |digits| ==> digits[i] == Window(v, Below(k, |digits|, i), k)
    ensures Value(Pow2(k), digits) == v && AreDigits(Pow2(k), digits)
  {
    hide Window, Below, Pow2, Span;
    var n := |digits|;
    if n == 0 {
      NoBits(k);
    } else {
      var init := digits[..n - 1];
      var high := v / Pow2(k);
      forall i | 0 <= i < n - 1
        ensures init[i] == Window(high, Below(k, n - 1, i), k)
      {
        WindowOfQuotient(v, k, Below(k, n - 1, i), k);
        BelowStep(k, n, i);
      }
      BelowStep(k, n, n - 1);
      Pow2Add(k, Span(k, n - 1));
      QuotientBound(v, Pow2(k), Pow2(Span(k, n - 1)));
      FromWindows(k, init, high);
      LowestWindow(v, k);
      Euclid(v, Pow2(k));
      assert digits == init + [digits[n - 1]];
    }
  }

  lemma NoBits(k: nat)
    ensures Pow2(Span(k, 0)) == 1
  {}

  lemma LowestWindow(v: nat, k: nat)
    ensures Window(v, 0, k) == v % Pow2(k) && Window(v, 0, k) < Pow2(k)
  {
    assert Pow2(0) == 1;
  }

  lemma {:induction false} SameDigits(base: nat, a: seq<nat>, b: seq<nat>)
    requires AreDigits(base, a) && AreDigits(base, b) && |a| == |b| && Value(base, a) == Value(base, b)
    ensures a == b
  {
    if a != [] {
      var n := |a| - 1;
      Quotient(base, Value(base, a[..n]), a[n]);
      Quotient(base, Value(base, b[..n]), b[n]);
      SameDigits(base, a[..n], b[..n]);
      assert a == a[..n] + [a[n]] && b == b[..n] + [b[n]];
    }
  }
}
