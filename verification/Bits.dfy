/** Bitwise operators of C on natural numbers, and the powers of two they are reasoned about with. */
module Bits {

  function Pow2(e: nat): (p: nat)
    ensures p >= 1
  {
    if e == 0 then 1 else 2 * Pow2(e - 1)
  }

  /** The C operator `&` on unsigned operands of any width. */
  function BitAnd(x: nat, y: nat): nat {
    if x == 0 || y == 0 then 0 else 2 * BitAnd(x / 2, y / 2) + if x % 2 == 1 && y % 2 == 1 then 1 else 0
  }

  /** The C operator `|` on unsigned operands of any width. */
  function BitOr(x: nat, y: nat): nat {
    if x == 0 then y
    else if y == 0 then x
    else 2 * BitOr(x / 2, y / 2) + if x % 2 == 1 || y % 2 == 1 then 1 else 0
  }

  lemma {:induction false} Pow2Add(a: nat, b: nat)
    ensures Pow2(a + b) == Pow2(a) * Pow2(b)
  {
    if a > 0 {
      Pow2Add(a - 1, b);
      assert Pow2(a + b) == 2 * (Pow2(a - 1) * Pow2(b)) == (2 * Pow2(a - 1)) * Pow2(b);
    }
  }

  lemma MulBounds(d: int, m: int)
    requires m > 0
    ensures d > 0 ==> d * m >= m
    ensures d < 0 ==> d * m <= -m
  {}

  lemma DivModUnique(x: int, m: int, q: int, r: int)
    requires m > 0 && 0 <= r < m && x == q * m + r
    ensures x / m == q && x % m == r
  {
    var d := x / m - q;
    assert d * m == r - x % m;
    MulBounds(d, m);
  }

  /** `x << k`, without truncation. */
  function Shl(x: nat, k: nat): nat {
    if k == 0 then x else 2 * Shl(x, k - 1)
  }

  lemma {:induction false} ShlIsTimesPow2(x: nat, k: nat)
    ensures Shl(x, k) == Pow2(k) * x
  {
    if k > 0 {
      ShlIsTimesPow2(x, k - 1);
      assert 2 * (Pow2(k - 1) * x) == (2 * Pow2(k - 1)) * x;
    }
  }

  lemma AndLastBit(lo: nat, lo': nat, a: nat, b: nat)
    ensures BitAnd(lo + 2 * a, lo' + 2 * b) ==
            2 * BitAnd(lo / 2 + a, lo' / 2 + b) + if lo % 2 == 1 && lo' % 2 == 1 then 1 else 0
  {
    assert (lo + 2 * a) / 2 == lo / 2 + a && (lo' + 2 * b) / 2 == lo' / 2 + b;
  }

  /** `&` works on the low k bits and on the bits above independently. */
  lemma {:induction false} AndConcat(lo: nat, hi: nat, lo': nat, hi': nat, k: nat)
    requires lo < Pow2(k) && lo' < Pow2(k)
    ensures BitAnd(lo + Shl(hi, k), lo' + Shl(hi', k)) == BitAnd(lo, lo') + Shl(BitAnd(hi, hi'), k)
  {
    if k > 0 {
      AndConcat(lo / 2, hi, lo' / 2, hi', k - 1);
      AndLastBit(lo, lo', Shl(hi, k - 1), Shl(hi', k - 1));
      AndLastBit(lo, lo', 0, 0);
    }
  }

  lemma {:induction false} AndOnes(lo: nat, hi: nat, k: nat)
    requires lo < Pow2(k)
    ensures BitAnd(lo + Shl(hi, k), Pow2(k) - 1) == lo
  {
    if k > 0 {
      AndOnes(lo / 2, hi, k - 1);
      AndLastBit(lo, 1, Shl(hi, k - 1), Pow2(k - 1) - 1);
    }
  }

  /** `|` of operands that share no bit position is addition. */
  lemma {:induction false} OrDisjoint(lo: nat, hi: nat, k: nat)
    requires lo < Pow2(k)
    ensures BitOr(lo, Shl(hi, k)) == lo + Shl(hi, k)
  {
    if k > 0 {
      OrDisjoint(lo / 2, hi, k - 1);
    }
  }
}
