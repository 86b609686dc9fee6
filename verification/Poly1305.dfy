/** The one-time authenticator of section 2.5 of RFC 7539, and the 26-bit-limb code that computes it (BRCrypto.c). */
module Poly1305 {
  import opened Bits
  import opened Bytes
  import Radix

  // ---------- RFC 7539, section 2.5 ----------

  const P: nat := 0x3_ffffffff_ffffffff_ffffffff_fffffffb
  const CLAMP: nat := 0x0ffffffc_0ffffffc_0ffffffc_0fffffff
  const TWO128: nat := 0x1_00000000_00000000_00000000_00000000

  function ModP(x: nat): nat {
    x % P
  }

  /** A block with the byte 0x01 appended. */
  function BlockValue(block: seq<Byte>): nat {
    LittleEndian(block + [1])
  }

  function Step(acc: nat, r: nat, block: seq<Byte>): nat {
    ModP((acc + BlockValue(block)) * r)
  }

  function Accumulate(acc: nat, r: nat, data: seq<Byte>): nat
    decreases |data|
  {
    if data == [] then acc
    else if |data| <= 16 then Step(acc, r, data)
    else Accumulate(Step(acc, r, data[..16]), r, data[16..])
  }

  function ClampedR(key: seq<Byte>): nat
    requires |key| == 32
  {
    BitAnd(LittleEndian(key[..16]), CLAMP)
  }

  function Tag(acc: nat, key: seq<Byte>): nat
    requires |key| == 32
  {
    (acc + LittleEndian(key[16..])) % TWO128
  }

  // ---------- Words and limbs ----------

  const B: nat := 0x4000000

  function U32(x: nat): nat { x % 0x1_0000_0000 }

  function U64(x: nat): nat { x % 0x1_0000_0000_0000_0000 }

  predicate Is32(x: int) { 0 <= x < 0x1_0000_0000 }

  function Word(bytes: seq<Byte>, j: nat): (w: nat)
    requires 4 * j + 4 <= |bytes|
    ensures Is32(w)
  {
    bytes[4 * j] as nat + 0x100 * (bytes[4 * j + 1] as nat)
    + 0x10000 * (bytes[4 * j + 2] as nat) + 0x1000000 * (bytes[4 * j + 3] as nat)
  }

  function Value5(a: nat, b: nat, c: nat, d: nat, e: nat): nat {
    a + 0x4000000 * b + 0x10000000000000 * c + 0x40000000000000000000 * d + 0x100000000000000000000000000 * e
  }

  function Value(h: seq<nat>): nat
    requires |h| == 5
  {
    Value5(h[0], h[1], h[2], h[3], h[4])
  }

  /** What the limbs satisfy between blocks: only h[1] may exceed 26 bits, by a carry from h[0]. */
  predicate Reduced(h: seq<nat>) {
    |h| == 5 && h[0] < B && h[1] < B + 64 && h[2] < B && h[3] < B && h[4] < B
  }

  lemma Pow2Literals()
    ensures Pow2(6) == 64 && Pow2(12) == 0x1000 && Pow2(18) == 0x40000 && Pow2(26) == 0x4000000
  {
    assert Pow2(2) == 4 && Pow2(4) == 16;
    Pow2Add(2, 4);
    Pow2Add(6, 6);
    Pow2Add(12, 6);
    Pow2Add(2, 6);
    Pow2Add(18, 8);
  }

  lemma And26(x: nat)
    ensures BitAnd(x, 0x03ffffff) == x % 0x4000000
  {
    Pow2Literals();
    AndOnes(x % B, x / B, 26);
    ShlIsTimesPow2(x / B, 26);
    hide *;
  }

  lemma {:induction false} AndBound(x: nat, y: nat)
    ensures BitAnd(x, y) <= y
  {
    if x > 0 && y > 0 {
      AndBound(x / 2, y / 2);
    }
  }

  lemma AndLow26(x: nat, m: nat)
    requires m < 0x4000000
    ensures BitAnd(x, m) == BitAnd(x % 0x4000000, m) <= m
  {
    Pow2Literals();
    ShlIsTimesPow2(x / B, 26);
    ShlIsTimesPow2(0, 26);
    AndConcat(x % B, x / B, m, 0, 26);
    AndBound(x, m);
  }

  lemma AndConcat26(x: nat, y: nat, m: nat, n: nat)
    requires x < 0x4000000 && m < 0x4000000
    ensures BitAnd(x + 0x4000000 * y, m + 0x4000000 * n) == BitAnd(x, m) + 0x4000000 * BitAnd(y, n)
  {
    Pow2Literals();
    ShlIsTimesPow2(y, 26);
    ShlIsTimesPow2(n, 26);
    ShlIsTimesPow2(BitAnd(y, n), 26);
    AndConcat(x, y, m, n, 26);
  }

  lemma Or6(x: nat, y: nat)
    requires x < 64
    ensures BitOr(x, 64 * y) == x + 64 * y
  {
    Pow2Literals();
    ShlIsTimesPow2(y, 6);
    OrDisjoint(x, y, 6);
  }

  lemma Or12(x: nat, y: nat)
    requires x < 0x1000
    ensures BitOr(x, 0x1000 * y) == x + 0x1000 * y
  {
    Pow2Literals();
    ShlIsTimesPow2(y, 12);
    OrDisjoint(x, y, 12);
  }

  lemma Or18(x: nat, y: nat)
    requires x < 0x40000
    ensures BitOr(x, 0x40000 * y) == x + 0x40000 * y
  {
    Pow2Literals();
    ShlIsTimesPow2(y, 18);
    OrDisjoint(x, y, 18);
  }

  /** `(t0 >> 26) | (t1 << 6)` and its two siblings, on 32-bit words. */
  function Join6(t0: nat, t1: nat): nat { BitOr(t0 / 0x4000000, U32(t1 * 64)) }
  function Join12(t1: nat, t2: nat): nat { BitOr(t1 / 0x100000, U32(t2 * 0x1000)) }
  function Join18(t2: nat, t3: nat): nat { BitOr(t2 / 0x4000, U32(t3 * 0x40000)) }

  /** The low bits of a word shifted left by `c` places on top of `a`. */
  lemma JoinLow(a: nat, t: nat, c: nat, d: nat, e: nat)
    requires c > 0 && e > 0 && d > 0 && c * d == 0x4000000 && d * e == 0x1_0000_0000 / c
    requires a < c
    ensures (a + c * (t % (d * e))) % 0x4000000 == a + c * (t % d)
  {
    ModOfMod(t, d, e);
    var q, r := (t % (d * e)) / d, t % d;
    assert t % (d * e) == q * d + r;
    assert c * (q * d + r) == q * (c * d) + c * r;
    assert c * r <= c * (d - 1) == c * d - c;
    DivModUnique(a + c * (t % (d * e)), 0x4000000, q, a + c * r);
  }

  lemma ModOfMod(t: nat, d: nat, e: nat)
    requires d > 0 && e > 0
    ensures d * e > 0 && (t % (d * e)) % d == t % d
  {
    var q, r := t / (d * e), t % (d * e);
    assert t == q * (d * e) + r;
    assert q * (d * e) == (q * e) * d;
    DivModUnique(t, d, q * e + r / d, r % d);
  }

  lemma ShiftLeft(t: nat, c: nat, m: nat)
    requires c > 0 && m > 0 && c * m == 0x1_0000_0000
    ensures U32(t * c) == c * (t % m)
  {
    var q, r := t / m, t % m;
    assert t * c == (q * m + r) * c == q * (c * m) + c * r;
    assert c * r <= c * (m - 1) == c * m - c;
    DivModUnique(t * c, 0x1_0000_0000, q, c * r);
  }

  lemma Join6Value(t0: nat, t1: nat)
    requires Is32(t0)
    ensures Join6(t0, t1) % 0x4000000 == t0 / 0x4000000 + 64 * (t1 % 0x100000)
  {
    hide BitOr, U32;
    ShiftLeft(t1, 64, 0x4000000);
    Or6(t0 / 0x4000000, t1 % 0x4000000);
    JoinLow(t0 / 0x4000000, t1, 64, 0x100000, 64);
  }

  lemma Join12Value(t1: nat, t2: nat)
    requires Is32(t1)
    ensures Join12(t1, t2) % 0x4000000 == t1 / 0x100000 + 0x1000 * (t2 % 0x4000)
  {
    hide BitOr, U32;
    ShiftLeft(t2, 0x1000, 0x100000);
    Or12(t1 / 0x100000, t2 % 0x100000);
    JoinLow(t1 / 0x100000, t2, 0x1000, 0x4000, 64);
  }

  lemma Join18Value(t2: nat, t3: nat)
    requires Is32(t2)
    ensures Join18(t2, t3) % 0x4000000 == t2 / 0x4000 + 0x40000 * (t3 % 0x100)
  {
    hide BitOr, U32;
    ShiftLeft(t3, 0x40000, 0x4000);
    Or18(t2 / 0x4000, t3 % 0x4000);
    JoinLow(t2 / 0x4000, t3, 0x40000, 0x100, 64);
  }

  /** Four words and the five limbs cut from them denote the same number. */
  lemma LimbsOfWords(t0: nat, t1: nat, t2: nat, t3: nat, top: nat)
    requires Is32(t0) && Is32(t1) && Is32(t2) && Is32(t3)
    ensures Value5(t0 % B, Join6(t0, t1) % B, Join12(t1, t2) % B, Join18(t2, t3) % B, t3 / 0x100 + 0x1000000 * top)
         == t0 + 0x1_0000_0000 * t1 + 0x1_0000_0000_0000_0000 * t2
            + 0x1_0000_0000_0000_0000_0000_0000 * t3 + TWO128 * top
  {
    Join6Value(t0, t1);
    Join12Value(t1, t2);
    Join18Value(t2, t3);
  }

  // ---------- Multiplication ----------

  function D0(h: seq<nat>, r: seq<nat>): nat
    requires |h| == |r| == 5
  {
    h[0] * r[0] + h[1] * r[4] * 5 + h[2] * r[3] * 5 + h[3] * r[2] * 5 + h[4] * r[1] * 5
  }

  function D1(h: seq<nat>, r: seq<nat>): nat
    requires |h| == |r| == 5
  {
    h[0] * r[1] + h[1] * r[0] + h[2] * r[4] * 5 + h[3] * r[3] * 5 + h[4] * r[2] * 5
  }

  function D2(h: seq<nat>, r: seq<nat>): nat
    requires |h| == |r| == 5
  {
    h[0] * r[2] + h[1] * r[1] + h[2] * r[0] + h[3] * r[4] * 5 + h[4] * r[3] * 5
  }

  function D3(h: seq<nat>, r: seq<nat>): nat
    requires |h| == |r| == 5
  {
    h[0] * r[3] + h[1] * r[2] + h[2] * r[1] + h[3] * r[0] + h[4] * r[4] * 5
  }

  function D4(h: seq<nat>, r: seq<nat>): nat
    requires |h| == |r| == 5
  {
    h[0] * r[4] + h[1] * r[3] + h[2] * r[2] + h[3] * r[1] + h[4] * r[0]
  }

  /** The part of the product at or above 2^130, divided by 2^130. */
  function Overflow(h: seq<nat>, r: seq<nat>): nat
    requires |h| == |r| == 5
  {
    (h[1] * r[4] + h[2] * r[3] + h[3] * r[2] + h[4] * r[1])
    + 0x4000000 * (h[2] * r[4] + h[3] * r[3] + h[4] * r[2])
    + 0x10000000000000 * (h[3] * r[4] + h[4] * r[3])
    + 0x40000000000000000000 * (h[4] * r[4])
  }

  lemma TimesValue(x: nat, r: seq<nat>)
    requires |r| == 5
    ensures x * Value(r) == Value5(x * r[0], x * r[1], x * r[2], x * r[3], x * r[4])
  {}

  lemma ValueTimes(h: seq<nat>, x: nat)
    requires |h| == 5
    ensures Value(h) * x == Value5(h[0] * x, h[1] * x, h[2] * x, h[3] * x, h[4] * x)
  {}

  /** The five column sums are the product, with 2^130 folded to 5. */
  lemma ProductOfLimbs(h: seq<nat>, r: seq<nat>)
    requires |h| == |r| == 5
    ensures Value(h) * Value(r) ==
            Value5(D0(h, r), D1(h, r), D2(h, r), D3(h, r), D4(h, r)) + P * Overflow(h, r)
  {
    ValueTimes(h, Value(r));
    TimesValue(h[0], r);
    TimesValue(h[1], r);
    TimesValue(h[2], r);
    TimesValue(h[3], r);
    TimesValue(h[4], r);
  }

  /** The limbs of `h` before a multiplication: a reduced value plus a block. */
  predicate Loaded(h: seq<nat>) {
    |h| == 5 && forall i :: 0 <= i < 5 ==> h[i] <= 0x8000040
  }

  predicate Small(r: seq<nat>) {
    |r| == 5 && forall i :: 0 <= i < 5 ==> r[i] < B
  }

  lemma ProductBound(x: nat, y: nat)
    requires x <= 0x8000040 && y < 0x4000000
    ensures x * y <= 0x20001000000000
  {
    assert x * y <= 0x8000040 * y;
  }

  /** No column sum overflows 64 bits, and each carry out of one fits in 32 bits. */
  lemma ColumnBounds(h: seq<nat>, r: seq<nat>)
    requires Loaded(h) && Small(r)
    ensures D0(h, r) <= 21 * 0x20001000000000 && D1(h, r) <= 21 * 0x20001000000000
    ensures D2(h, r) <= 21 * 0x20001000000000 && D3(h, r) <= 21 * 0x20001000000000
    ensures D4(h, r) <= 5 * 0x20001000000000
  {
    forall i, j | 0 <= i < 5 && 0 <= j < 5
      ensures h[i] * r[j] <= 0x20001000000000
    {
      ProductBound(h[i], r[j]);
    }
  }

  /** The carry chain preserves the value up to a multiple of P. */
  lemma CarryValue(d0: nat, d1: nat, d2: nat, d3: nat, d4: nat)
    ensures
      var e1 := d1 + d0 / B;
      var e2 := d2 + e1 / B;
      var e3 := d3 + e2 / B;
      var e4 := d4 + e3 / B;
      var f0 := d0 % B + e4 / B * 5;
      Value5(d0, d1, d2, d3, d4) ==
        Value5(f0 % B, e1 % B + f0 / B, e2 % B, e3 % B, e4 % B) + P * (e4 / B)
  {
    var e1 := d1 + d0 / B;
    var e2 := d2 + e1 / B;
    var e3 := d3 + e2 / B;
    var e4 := d4 + e3 / B;
    var f0 := d0 % B + e4 / B * 5;
    var q0, q1, q2, q3, q4, g0 := d0 / B, e1 / B, e2 / B, e3 / B, e4 / B, f0 / B;
    assert d0 % B == d0 - B * q0 && e1 % B == e1 - B * q1 && e2 % B == e2 - B * q2;
    assert e3 % B == e3 - B * q3 && e4 % B == e4 - B * q4 && f0 % B == f0 - B * g0;
  }

  lemma ModPlusMultiple(x: nat, m: nat, k: nat)
    requires m > 0
    ensures (x + m * k) % m == x % m
  {
    DivModUnique(x + m * k, m, x / m + k, x % m);
  }

  const COLUMN: nat := 21 * 0x20001000000000

  /** `d += (uint32_t)(from >> 26), limb = d & 0x03ffffff`: nothing wraps. */
  method CarryInto(d: nat, from: nat) returns (sum: nat, limb: nat)
    requires d <= COLUMN && from <= COLUMN + 0x1_0000_0000
    ensures sum == d + from / B <= d + 0x1_0000_0000
    ensures limb == sum % B
  {
    sum := U64(d + U32(from / B));
    limb := BitAnd(sum, 0x03ffffff);
    And26(sum);
  }

  lemma WrapAround(low: nat, top: nat)
    requires low < B && top <= 5 * 0x20001000000000 + 0x1_0000_0000
    ensures U32(low + U32(U32(top / B) * 5)) == low + top / B * 5
    ensures (low + top / B * 5) / B < 64
  {}

  lemma NoWrap32(x: nat)
    requires Is32(x)
    ensures U32(x) == x
  {}

  /** The carry out of the top column wraps around to the bottom limb, and from there to the next. */
  method CarryAround(d0: nat, d4: nat, h1: nat) returns (h0: nat, h1': nat)
    requires d4 <= 5 * 0x20001000000000 + 0x1_0000_0000 && h1 < B
    ensures var f0 := d0 % B + d4 / B * 5; h0 == f0 % B && h1' == h1 + f0 / B < B + 64
  {
    And26(d0);
    hide BitAnd, U32;
    WrapAround(d0 % B, d4);
    h0 := U32(BitAnd(d0, 0x03ffffff) + U32(U32(d4 / B) * 5));
    NoWrap32(h1 + h0 / B);
    h1' := U32(h1 + h0 / B);
    And26(h0);
    h0 := BitAnd(h0, 0x03ffffff);
  }

  /** The partial reduction `h %= P` of the column sums. */
  method Carry(d0: nat, d1: nat, d2: nat, d3: nat, d4: nat)
    returns (h0: nat, h1: nat, h2: nat, h3: nat, h4: nat)
    requires d0 <= COLUMN && d1 <= COLUMN && d2 <= COLUMN && d3 <= COLUMN && d4 <= 5 * 0x20001000000000
    ensures Reduced([h0, h1, h2, h3, h4])
    ensures exists k: nat :: Value5(d0, d1, d2, d3, d4) == Value5(h0, h1, h2, h3, h4) + P * k
  {
    var e1, e2, e3, e4;
    e1, h1 := CarryInto(d1, d0);
    e2, h2 := CarryInto(d2, e1);
    e3, h3 := CarryInto(d3, e2);
    e4, h4 := CarryInto(d4, e3);
    h0, h1 := CarryAround(d0, e4, h1);
    hide Value5;
    CarryValue(d0, d1, d2, d3, d4);
    assert Value5(d0, d1, d2, d3, d4) == Value5(h0, h1, h2, h3, h4) + P * (e4 / B);
  }

  /** The column sums as the code computes them, in 64-bit words, are exact. */
  lemma ColumnsExact(h: seq<nat>, r: seq<nat>)
    requires Loaded(h) && Small(r)
    ensures U64(D0(h, r)) == D0(h, r) && U64(D1(h, r)) == D1(h, r) && U64(D2(h, r)) == D2(h, r)
    ensures U64(D3(h, r)) == D3(h, r) && U64(D4(h, r)) == D4(h, r)
  {
    ColumnBounds(h, r);
    hide D0, D1, D2, D3, D4;
  }

  method Store(h: array<nat>, h0: nat, h1: nat, h2: nat, h3: nat, h4: nat)
    requires h.Length == 5
    modifies h
    ensures h[..] == [h0, h1, h2, h3, h4] && Value(h[..]) == Value5(h0, h1, h2, h3, h4)
  {
    h[0], h[1], h[2], h[3], h[4] := h0, h1, h2, h3, h4;
  }

  /** The five 64-bit column sums: none of them overflows. */
  method Columns(h: array<nat>, r: seq<nat>) returns (d0: nat, d1: nat, d2: nat, d3: nat, d4: nat)
    requires h.Length == |r| == 5 && Loaded(h[..]) && Small(r)
    ensures d0 == D0(h[..], r) && d1 == D1(h[..], r) && d2 == D2(h[..], r) && d3 == D3(h[..], r) && d4 == D4(h[..], r)
  {
    hide U64, Loaded, Small;
    ghost var s := h[..];
    ColumnsExact(s, r);
    assert h[0] == s[0] && h[1] == s[1] && h[2] == s[2] && h[3] == s[3] && h[4] == s[4];
    d0 := U64(h[0] * r[0] + h[1] * r[4] * 5 + h[2] * r[3] * 5 + h[3] * r[2] * 5 + h[4] * r[1] * 5);
    d1 := U64(h[0] * r[1] + h[1] * r[0] + h[2] * r[4] * 5 + h[3] * r[3] * 5 + h[4] * r[2] * 5);
    d2 := U64(h[0] * r[2] + h[1] * r[1] + h[2] * r[0] + h[3] * r[4] * 5 + h[4] * r[3] * 5);
    d3 := U64(h[0] * r[3] + h[1] * r[2] + h[2] * r[1] + h[3] * r[0] + h[4] * r[4] * 5);
    d4 := U64(h[0] * r[4] + h[1] * r[3] + h[2] * r[2] + h[3] * r[1] + h[4] * r[0]);
  }

  /** `h *= r`, partially reduced modulo P. */
  method MultiplyModP(h: array<nat>, r: seq<nat>)
    requires h.Length == |r| == 5 && Loaded(h[..]) && Small(r)
    modifies h
    ensures Reduced(h[..])
    ensures ModP(Value(h[..])) == ModP(old(Value(h[..])) * Value(r))
  {
    ghost var s := h[..];
    hide *;
    ColumnBounds(s, r);
    var d0, d1, d2, d3, d4 := Columns(h, r);
    var h0, h1, h2, h3, h4 := Carry(d0, d1, d2, d3, d4);
    ghost var k: nat :| Value5(d0, d1, d2, d3, d4) == Value5(h0, h1, h2, h3, h4) + P * k;
    ProductOfLimbs(s, r);
    SameResidue(Value(s) * Value(r), Value5(d0, d1, d2, d3, d4), Value5(h0, h1, h2, h3, h4), k, Overflow(s, r));
    Store(h, h0, h1, h2, h3, h4);
  }

  lemma SameResidue(a: nat, b: nat, c: nat, k: nat, l: nat)
    requires a == b + P * l && b == c + P * k
    ensures ModP(a) == ModP(c)
  {
    assert a == c + P * (k + l);
    ModPlusMultiple(c, P, k + l);
  }

  // ---------- Loading a block ----------

  function WordsValue(t0: nat, t1: nat, t2: nat, t3: nat): nat {
    t0 + 0x1_0000_0000 * t1 + 0x1_0000_0000_0000_0000 * t2 + 0x1_0000_0000_0000_0000_0000_0000 * t3
  }

  lemma FirstWord(bytes: seq<Byte>)
    requires |bytes| >= 4
    ensures LittleEndian(bytes) == Word(bytes, 0) + 0x1_0000_0000 * LittleEndian(bytes[4..])
  {
    var b1, b2, b3 := bytes[1..], bytes[2..], bytes[3..];
    assert b1[1..] == b2 && b2[1..] == b3 && b3[1..] == bytes[4..];
    assert LittleEndian(b3) == b3[0] + 256 * LittleEndian(bytes[4..]);
    assert LittleEndian(b2) == b2[0] + 256 * LittleEndian(b3);
    assert LittleEndian(b1) == b1[0] + 256 * LittleEndian(b2);
  }

  lemma FourWords(bytes: seq<Byte>)
    requires |bytes| >= 16
    ensures LittleEndian(bytes) == WordsValue(Word(bytes, 0), Word(bytes, 1), Word(bytes, 2), Word(bytes, 3))
                                   + TWO128 * LittleEndian(bytes[16..])
  {
    hide LittleEndian;
    var b1, b2, b3 := bytes[4..], bytes[8..], bytes[12..];
    assert b1[4..] == b2 && b2[4..] == b3 && b3[4..] == bytes[16..];
    FirstWord(bytes);
    FirstWord(b1);
    FirstWord(b2);
    FirstWord(b3);
    assert Word(b1, 0) == Word(bytes, 1) && Word(b2, 0) == Word(bytes, 2) && Word(b3, 0) == Word(bytes, 3);
  }

  lemma {:induction false} TrailingZeros(bytes: seq<Byte>, n: nat)
    ensures LittleEndian(bytes + Radix.Zeros(n)) == LittleEndian(bytes)
  {
    var padded := bytes + Radix.Zeros(n);
    if bytes != [] {
      assert padded[1..] == bytes[1..] + Radix.Zeros(n);
      TrailingZeros(bytes[1..], n);
    } else if n > 0 {
      assert padded == Radix.Zeros(n) && padded[1..] == [] + Radix.Zeros(n - 1);
      TrailingZeros([], n - 1);
    }
  }

  /** The block at the front of the data, padded to 16 bytes as the code pads it. */
  function PaddedBlock(data: seq<Byte>): (block: seq<Byte>)
    ensures |block| == 16
  {
    if |data| >= 16 then data[..16] else data + [1] + Radix.Zeros(15 - |data|)
  }

  lemma PaddedBlockValue(data: seq<Byte>)
    ensures |data| >= 16 ==> LittleEndian(PaddedBlock(data)) + TWO128 == BlockValue(data[..16])
    ensures |data| < 16 ==> LittleEndian(PaddedBlock(data)) == BlockValue(data)
  {
    if |data| >= 16 {
      var b := data[..16];
      FourWords(b);
      FourWords(b + [1]);
      assert b[16..] == [] && (b + [1])[16..] == [1];
      assert LittleEndian([1]) == 1 + 256 * LittleEndian([]);
    } else {
      TrailingZeros(data + [1], 15 - |data|);
    }
  }

  lemma Or24(x: nat, y: nat)
    requires x < 0x1000000
    ensures BitOr(x, 0x1000000 * y) == x + 0x1000000 * y
  {
    assert Pow2(4) == 16;
    Pow2Add(4, 4);
    Pow2Add(8, 8);
    Pow2Add(16, 8);
    ShlIsTimesPow2(y, 24);
    OrDisjoint(x, y, 24);
  }

  /** The limbs of a block, with the bit appended to a full block. */
  method BlockLimbs(block: seq<Byte>, top: nat) returns (x0: nat, x1: nat, x2: nat, x3: nat, x4: nat)
    requires |block| == 16 && top <= 1
    ensures x0 < B && x1 < B && x2 < B && x3 < B && x4 < B
    ensures Value5(x0, x1, x2, x3, x4) == LittleEndian(block) + TWO128 * top
  {
    var t0, t1, t2, t3 := Word(block, 0), Word(block, 1), Word(block, 2), Word(block, 3);
    FourWords(block);
    assert LittleEndian(block[16..]) == 0;
    LimbsOfWords(t0, t1, t2, t3, top);
    hide BitAnd, BitOr, Join6, Join12, Join18, Word, LittleEndian, Value5;
    x0 := BitAnd(t0, 0x03ffffff);
    x1 := BitAnd(Join6(t0, t1), 0x03ffffff);
    x2 := BitAnd(Join12(t1, t2), 0x03ffffff);
    x3 := BitAnd(Join18(t2, t3), 0x03ffffff);
    x4 := BitOr(t3 / 0x100, 0x1000000 * top);
    And26(t0);
    And26(Join6(t0, t1));
    And26(Join12(t1, t2));
    And26(Join18(t2, t3));
    Or24(t3 / 0x100, top);
  }

  /** `h += x` */
  method AddBlock(h: array<nat>, block: seq<Byte>, top: nat)
    requires h.Length == 5 && Reduced(h[..]) && |block| == 16 && top <= 1
    modifies h
    ensures Loaded(h[..])
    ensures Value(h[..]) == old(Value(h[..])) + LittleEndian(block) + TWO128 * top
  {
    var x0, x1, x2, x3, x4 := BlockLimbs(block, top);
    ghost var s := h[..];
    var h0, h1, h2, h3, h4 := U32(h[0] + x0), U32(h[1] + x1), U32(h[2] + x2), U32(h[3] + x3), U32(h[4] + x4);
    assert h0 == s[0] + x0 && h1 == s[1] + x1 && h2 == s[2] + x2 && h3 == s[3] + x3 && h4 == s[4] + x4;
    hide LittleEndian, U32;
    Store(h, h0, h1, h2, h3, h4);
  }

  /** Masking the limbs one by one is masking the number. */
  lemma ClampConcat(x0: nat, x1: nat, x2: nat, x3: nat, x4: nat)
    requires x0 < B && x1 < B && x2 < B && x3 < B
    ensures Value5(BitAnd(x0, 0x03ffffff), BitAnd(x1, 0x03ffff03), BitAnd(x2, 0x03ffc0ff), BitAnd(x3, 0x03f03fff),
                   BitAnd(x4, 0x000fffff)) == BitAnd(Value5(x0, x1, x2, x3, x4), CLAMP)
  {
    hide BitAnd;
    var y3 := x3 + B * x4;
    var y2 := x2 + B * y3;
    var y1 := x1 + B * y2;
    assert Value5(x0, x1, x2, x3, x4) == x0 + B * y1;
    AndConcat26(x3, x4, 0x3f03fff, 0x000fffff);
    AndConcat26(x2, y3, 0x3ffc0ff, 0x3f03fff + B * 0x000fffff);
    AndConcat26(x1, y2, 0x3ffff03, 0x3ffc0ff + B * (0x3f03fff + B * 0x000fffff));
    AndConcat26(x0, y1, 0x3ffffff, 0x3ffff03 + B * (0x3ffc0ff + B * (0x3f03fff + B * 0x000fffff)));
  }

  /** The masks of the code are the limbs of the clamping mask of the RFC. */
  lemma ClampLimbs(t0: nat, t1: nat, t2: nat, t3: nat)
    requires Is32(t0) && Is32(t1) && Is32(t2) && Is32(t3)
    ensures Value5(BitAnd(t0, 0x03ffffff), BitAnd(Join6(t0, t1), 0x03ffff03), BitAnd(Join12(t1, t2), 0x03ffc0ff),
                   BitAnd(Join18(t2, t3), 0x03f03fff), BitAnd(t3 / 0x100, 0x000fffff))
         == BitAnd(WordsValue(t0, t1, t2, t3), CLAMP)
  {
    LimbsOfWords(t0, t1, t2, t3, 0);
    assert WordsValue(t0, t1, t2, t3)
        == Value5(t0 % B, Join6(t0, t1) % B, Join12(t1, t2) % B, Join18(t2, t3) % B, t3 / 0x100);
    hide *;
    AndLow26(t0, 0x03ffffff);
    AndLow26(Join6(t0, t1), 0x03ffff03);
    AndLow26(Join12(t1, t2), 0x03ffc0ff);
    AndLow26(Join18(t2, t3), 0x03f03fff);
    ClampConcat(t0 % B, Join6(t0, t1) % B, Join12(t1, t2) % B, Join18(t2, t3) % B, t3 / 0x100);
  }

  lemma KeyWords(key: seq<Byte>)
    requires |key| == 32
    ensures WordsValue(Word(key, 0), Word(key, 1), Word(key, 2), Word(key, 3)) == LittleEndian(key[..16])
    ensures WordsValue(Word(key, 4), Word(key, 5), Word(key, 6), Word(key, 7)) == LittleEndian(key[16..])
  {
    var r, s := key[..16], key[16..];
    FourWords(r);
    FourWords(s);
    assert r[16..] == [] && s[16..] == [];
    assert Word(s, 0) == Word(key, 4) && Word(s, 1) == Word(key, 5);
    assert Word(s, 2) == Word(key, 6) && Word(s, 3) == Word(key, 7);
  }

  /** The clamped multiplier, cut into limbs. */
  method LoadR(key: seq<Byte>) returns (r: seq<nat>)
    requires |key| == 32
    ensures Small(r) && Value(r) == ClampedR(key)
  {
    var t0, t1, t2, t3 := Word(key, 0), Word(key, 1), Word(key, 2), Word(key, 3);
    r := [BitAnd(t0, 0x03ffffff), BitAnd(Join6(t0, t1), 0x03ffff03), BitAnd(Join12(t1, t2), 0x03ffc0ff),
          BitAnd(Join18(t2, t3), 0x03f03fff), BitAnd(t3 / 0x100, 0x000fffff)];
    ClampLimbs(t0, t1, t2, t3);
    KeyWords(key);
    AndBound(t0, 0x03ffffff);
    AndBound(Join6(t0, t1), 0x03ffff03);
    AndBound(Join12(t1, t2), 0x03ffc0ff);
    AndBound(Join18(t2, t3), 0x03f03fff);
    AndBound(t3 / 0x100, 0x000fffff);
    hide BitAnd, Join6, Join12, Join18, Word, WordsValue, LittleEndian, Value5;
  }

  // ---------- Finishing ----------

  function Lo(x: nat): nat { x % B }

  function Hi(x: nat): nat { x / B }

  /** `x += c >> 26, c &= 0x03ffffff` */
  method CarrySmall(x: nat, c: nat) returns (x': nat, c': nat)
    requires x < 2 * B && c < 2 * B
    ensures x' == x + Hi(c) <= x + 1 && c' == Lo(c) < B
  {
    And26(c);
    hide BitAnd;
    x', c' := U32(x + c / B), BitAnd(c, 0x03ffffff);
  }

  method FullCarry(s0: nat, s1: nat, s2: nat, s3: nat, s4: nat) returns (h0: nat, h1: nat, h2: nat, h3: nat, h4: nat)
    requires s0 < B && s1 < B + 64 && s2 < B && s3 < B && s4 < B
    ensures h0 < B && h1 < B && h2 < B && h3 < B && h4 < B
    ensures ModP(Value5(h0, h1, h2, h3, h4)) == ModP(Value5(s0, s1, s2, s3, s4))
  {
    hide Lo, Hi, ModP, Value5;
    FullCarryValue(s0, s1, s2, s3, s4);
    h2, h1 := CarrySmall(s2, s1);
    h3, h2 := CarrySmall(s3, h2);
    h4, h3 := CarrySmall(s4, h3);
    var top;
    top, h4 := CarrySmall(0, h4);
    h0 := s0 + top * 5;
    h1, h0 := CarrySmall(h1, h0);
  }

  lemma SmallSeq(h0: nat, h1: nat, h2: nat, h3: nat, h4: nat)
    requires h0 < B && h1 < B && h2 < B && h3 < B && h4 < B
    ensures Small([h0, h1, h2, h3, h4])
  {}

  /** `h` fully carried: every limb is below 2^26. */
  method FullyCarry(h: array<nat>)
    requires h.Length == 5 && Reduced(h[..])
    modifies h
    ensures Small(h[..]) && ModP(Value(h[..])) == ModP(old(Value(h[..])))
  {
    var h0, h1, h2, h3, h4 := FullCarry(h[0], h[1], h[2], h[3], h[4]);
    assert Value(h[..]) == Value5(h[0], h[1], h[2], h[3], h[4]);
    hide *;
    SmallSeq(h0, h1, h2, h3, h4);
    Store(h, h0, h1, h2, h3, h4);
  }

  lemma LoHi(c: nat)
    requires c < 2 * B
    ensures Hi(c) == if c < B then 0 else 1
    ensures Lo(c) == if c < B then c else c - B
  {}

  lemma FullCarryValue(s0: nat, s1: nat, s2: nat, s3: nat, s4: nat)
    requires s0 < B && s1 < B + 64 && s2 < B && s3 < B && s4 < B
    ensures
      var a2 := s2 + Hi(s1);
      var a3 := s3 + Hi(a2);
      var a4 := s4 + Hi(a3);
      var a0 := s0 + Hi(a4) * 5;
      var b1 := Lo(s1) + Hi(a0);
      && b1 < B
      && ModP(Value5(Lo(a0), b1, Lo(a2), Lo(a3), Lo(a4))) == ModP(Value5(s0, s1, s2, s3, s4))
  {
    hide Lo, Hi, ModP;
    LoHi(s1);
    var a2 := s2 + Hi(s1);
    LoHi(a2);
    var a3 := s3 + Hi(a2);
    LoHi(a3);
    var a4 := s4 + Hi(a3);
    LoHi(a4);
    var a0 := s0 + Hi(a4) * 5;
    LoHi(a0);
    assert Lo(s1) + Hi(a0) < B;
    var v := Value5(Lo(a0), Lo(s1) + Hi(a0), Lo(a2), Lo(a3), Lo(a4));
    assert Value5(s0, s1, s2, s3, s4) == v + P * Hi(a4);
    SameResidue(Value5(s0, s1, s2, s3, s4), Value5(s0, s1, s2, s3, s4), v, Hi(a4), 0);
  }

  /** `(h & ~b) | (t & b)` for a mask of all zeros or all ones */
  function Select(h: nat, t: nat, b: nat): nat
    requires b <= 0xffffffff
  {
    BitOr(BitAnd(h, 0xffffffff - b), BitAnd(t, b))
  }

  lemma And32(x: nat)
    requires Is32(x)
    ensures BitAnd(x, 0xffffffff) == x
  {
    assert Pow2(2) == 4;
    Pow2Add(2, 2);
    Pow2Add(4, 4);
    Pow2Add(8, 8);
    Pow2Add(16, 16);
    assert Pow2(32) == 0x1_0000_0000;
    ShlIsTimesPow2(0, 32);
    AndOnes(x, 0, 32);
  }

  lemma SelectEither(h: nat, t: nat)
    requires Is32(h) && Is32(t)
    ensures Select(h, t, 0) == h && Select(h, t, 0xffffffff) == t
  {
    And32(h);
    And32(t);
  }

  /** Subtracts P from a fully carried value by adding 5 and dropping 2^130; the top limb is negative on a borrow. */
  method SubtractP(h0: nat, h1: nat, h2: nat, h3: nat, h4: nat)
    returns (t0: nat, t1: nat, t2: nat, t3: nat, t4: nat)
    requires h0 < B && h1 < B && h2 < B && h3 < B && h4 < B
    ensures t0 < B && t1 < B && t2 < B && t3 < B && Is32(t4)
    ensures Value5(h0, h1, h2, h3, h4) < P <==> t4 >= 0x8000_0000
    ensures Value5(h0, h1, h2, h3, h4) >= P ==> t4 == 0
    ensures Value5(h0, h1, h2, h3, h4) >= P ==> Value5(t0, t1, t2, t3, t4) + P == Value5(h0, h1, h2, h3, h4)
  {
    var c0, c1, c2, c3: nat;
    c0, t0 := CarrySmall(0, h0 + 5);
    c1, t1 := CarrySmall(0, h1 + c0);
    c2, t2 := CarrySmall(0, h2 + c1);
    c3, t3 := CarrySmall(0, h3 + c2);
    t4 := U32(0x1_0000_0000 + h4 + c3 - 0x4000000);
    LoHi(h0 + 5);
    LoHi(h1 + c0);
    LoHi(h2 + c1);
    LoHi(h3 + c2);
    hide Lo, Hi;
    BorrowFree(h4 + c3);
    hide U32;
  }

  lemma BorrowFree(x: nat)
    requires x <= B
    ensures U32(0x1_0000_0000 + x - 0x4000000) == if x < B then 0x1_0000_0000 + x - B else 0
  {}

  lemma SmallMod(v: nat, w: nat)
    requires v < P ==> w == v
    requires v >= P ==> w + P == v && v < 2 * P
    ensures w == ModP(v)
  {}

  lemma Below2P(h0: nat, h1: nat, h2: nat, h3: nat, h4: nat)
    requires h0 < B && h1 < B && h2 < B && h3 < B && h4 < B
    ensures Value5(h0, h1, h2, h3, h4) < 2 * P
  {}

  method ReduceLimbs(s0: nat, s1: nat, s2: nat, s3: nat, s4: nat)
    returns (h0: nat, h1: nat, h2: nat, h3: nat, h4: nat)
    requires s0 < B && s1 < B && s2 < B && s3 < B && s4 < B
    ensures h0 < B && h1 < B && h2 < B && h3 < B && h4 < B
    ensures Value5(h0, h1, h2, h3, h4) == ModP(Value5(s0, s1, s2, s3, s4))
  {
    var t0, t1, t2, t3, t4 := SubtractP(s0, s1, s2, s3, s4);
    var b := U32(0xffffffff + t4 / 0x8000_0000);
    assert b == if t4 >= 0x8000_0000 then 0 else 0xffffffff;
    hide Select, U32, Value5, ModP;
    SelectEither(s0, t0);
    SelectEither(s1, t1);
    SelectEither(s2, t2);
    SelectEither(s3, t3);
    SelectEither(s4, t4);
    h0, h1, h2, h3, h4 := Select(s0, t0, b), Select(s1, t1, b), Select(s2, t2, b), Select(s3, t3, b), Select(s4, t4, b);
    Below2P(s0, s1, s2, s3, s4);
    SmallMod(Value5(s0, s1, s2, s3, s4), Value5(h0, h1, h2, h3, h4));
  }

  /** `h = h % P` for a fully carried `h`, without a branch. */
  method ReduceModP(h: array<nat>)
    requires h.Length == 5 && Small(h[..])
    modifies h
    ensures Small(h[..]) && Value(h[..]) == ModP(old(Value(h[..])))
  {
    var h0, h1, h2, h3, h4 := ReduceLimbs(h[0], h[1], h[2], h[3], h[4]);
    assert Value(h[..]) == Value5(h[0], h[1], h[2], h[3], h[4]);
    hide Value, Value5, ModP;
    SmallSeq(h0, h1, h2, h3, h4);
    Store(h, h0, h1, h2, h3, h4);
  }

  // ---------- Packing and the final addition ----------

  lemma Or20(x: nat, y: nat)
    requires x < 0x100000
    ensures BitOr(x, 0x100000 * y) == x + 0x100000 * y
  {
    Pow2Literals();
    assert Pow2(2) == 4;
    Pow2Add(18, 2);
    ShlIsTimesPow2(y, 20);
    OrDisjoint(x, y, 20);
  }

  lemma Or14(x: nat, y: nat)
    requires x < 0x4000
    ensures BitOr(x, 0x4000 * y) == x + 0x4000 * y
  {
    Pow2Literals();
    assert Pow2(2) == 4;
    Pow2Add(12, 2);
    ShlIsTimesPow2(y, 14);
    OrDisjoint(x, y, 14);
  }

  lemma Or8(x: nat, y: nat)
    requires x < 0x100
    ensures BitOr(x, 0x100 * y) == x + 0x100 * y
  {
    Pow2Literals();
    assert Pow2(2) == 4;
    Pow2Add(6, 2);
    ShlIsTimesPow2(y, 8);
    OrDisjoint(x, y, 8);
  }

  lemma Or26(x: nat, y: nat)
    requires x < 0x4000000
    ensures BitOr(x, 0x4000000 * y) == x + 0x4000000 * y
  {
    Pow2Literals();
    ShlIsTimesPow2(y, 26);
    OrDisjoint(x, y, 26);
  }

  /** `h = h % 2^128`, repacked from limbs into words. */
  method Pack(h0: nat, h1: nat, h2: nat, h3: nat, h4: nat) returns (w0: nat, w1: nat, w2: nat, w3: nat)
    requires h0 < B && h1 < B && h2 < B && h3 < B && h4 < B
    ensures Is32(w0) && Is32(w1) && Is32(w2) && Is32(w3)
    ensures WordsValue(w0, w1, w2, w3) + TWO128 * (h4 / 0x1000000) == Value5(h0, h1, h2, h3, h4)
  {
    hide BitOr, BitAnd, U32, WordsValue, Value5;
    ShiftLeft(h1, 0x4000000, 64);
    Or26(h0, h1 % 64);
    ShiftLeft(h2, 0x100000, 0x1000);
    Or20(h1 / 64, h2 % 0x1000);
    ShiftLeft(h3, 0x4000, 0x40000);
    Or14(h2 / 0x1000, h3 % 0x40000);
    ShiftLeft(h4, 0x100, 0x1000000);
    Or8(h3 / 0x40000, h4 % 0x1000000);
    w0 := BitAnd(BitOr(h0, U32(h1 * 0x4000000)), 0xffffffff);
    w1 := BitAnd(BitOr(h1 / 64, U32(h2 * 0x100000)), 0xffffffff);
    w2 := BitAnd(BitOr(h2 / 0x1000, U32(h3 * 0x4000)), 0xffffffff);
    w3 := BitAnd(BitOr(h3 / 0x40000, U32(h4 * 0x100)), 0xffffffff);
    And32(h0 + 0x4000000 * (h1 % 64));
    And32(h1 / 64 + 0x100000 * (h2 % 0x1000));
    And32(h2 / 0x1000 + 0x4000 * (h3 % 0x40000));
    And32(h3 / 0x40000 + 0x100 * (h4 % 0x1000000));
    PackValue(h0, h1, h2, h3, h4);
  }

  lemma PackValue(h0: nat, h1: nat, h2: nat, h3: nat, h4: nat)
    ensures WordsValue(h0 + 0x4000000 * (h1 % 64), h1 / 64 + 0x100000 * (h2 % 0x1000),
                       h2 / 0x1000 + 0x4000 * (h3 % 0x40000), h3 / 0x40000 + 0x100 * (h4 % 0x1000000))
            + TWO128 * (h4 / 0x1000000) == Value5(h0, h1, h2, h3, h4)
  {}

  /** `mac = (h + pad) % 2^128` */
  method AddPad(w0: nat, w1: nat, w2: nat, w3: nat, s0: nat, s1: nat, s2: nat, s3: nat)
    returns (m0: nat, m1: nat, m2: nat, m3: nat)
    requires Is32(w0) && Is32(w1) && Is32(w2) && Is32(w3) && Is32(s0) && Is32(s1) && Is32(s2) && Is32(s3)
    ensures Is32(m0) && Is32(m1) && Is32(m2) && Is32(m3)
    ensures exists c: nat :: WordsValue(w0, w1, w2, w3) + WordsValue(s0, s1, s2, s3) == WordsValue(m0, m1, m2, m3) + TWO128 * c
  {
    hide U64, U32, WordsValue;
    NoWrap64(w0 + s0);
    var d0 := U64(w0 + s0);
    NoWrap64(w1 + s1 + d0 / 0x1_0000_0000);
    var d1 := U64(w1 + s1 + d0 / 0x1_0000_0000);
    NoWrap64(w2 + s2 + d1 / 0x1_0000_0000);
    var d2 := U64(w2 + s2 + d1 / 0x1_0000_0000);
    NoWrap64(w3 + s3 + d2 / 0x1_0000_0000);
    var d3 := U64(w3 + s3 + d2 / 0x1_0000_0000);
    m0, m1, m2, m3 := U32(d0), U32(d1), U32(d2), U32(d3);
    U32Fits(d0);
    U32Fits(d1);
    U32Fits(d2);
    U32Fits(d3);
    WordsSum(w0, w1, w2, w3, s0, s1, s2, s3);
    PadValue(w0 + s0, w1 + s1, w2 + s2, w3 + s3);
    assert WordsValue(w0, w1, w2, w3) + WordsValue(s0, s1, s2, s3)
        == WordsValue(m0, m1, m2, m3) + TWO128 * (d3 / 0x1_0000_0000);
  }

  lemma NoWrap64(x: nat)
    requires x < 0x4_0000_0000
    ensures U64(x) == x
  {}

  lemma U32Fits(x: nat)
    ensures Is32(U32(x))
  {}

  lemma WordsSum(w0: nat, w1: nat, w2: nat, w3: nat, s0: nat, s1: nat, s2: nat, s3: nat)
    ensures WordsValue(w0, w1, w2, w3) + WordsValue(s0, s1, s2, s3) == WordsValue(w0 + s0, w1 + s1, w2 + s2, w3 + s3)
  {}

  lemma PadValue(a0: nat, a1: nat, a2: nat, a3: nat)
    ensures
      var d1 := a1 + a0 / 0x1_0000_0000;
      var d2 := a2 + d1 / 0x1_0000_0000;
      var d3 := a3 + d2 / 0x1_0000_0000;
      WordsValue(a0, a1, a2, a3) == WordsValue(U32(a0), U32(d1), U32(d2), U32(d3)) + TWO128 * (d3 / 0x1_0000_0000)
  {}

  // ---------- The authenticator ----------

  /** The words of `h` as 16 little-endian bytes. */
  function WordBytes(w: nat): (bytes: seq<Byte>)
    requires Is32(w)
    ensures |bytes| == 4 && Word(bytes, 0) == w
  {
    var w1 := w / 0x100;
    var w2 := w1 / 0x100;
    [w % 0x100, w1 % 0x100, w2 % 0x100, w2 / 0x100]
  }

  lemma BytesOfWords(w0: nat, w1: nat, w2: nat, w3: nat)
    requires Is32(w0) && Is32(w1) && Is32(w2) && Is32(w3)
    ensures LittleEndian(WordBytes(w0) + WordBytes(w1) + WordBytes(w2) + WordBytes(w3)) == WordsValue(w0, w1, w2, w3)
  {
    var b0, b1, b2, b3 := WordBytes(w0), WordBytes(w1), WordBytes(w2), WordBytes(w3);
    hide WordBytes, LittleEndian;
    var b := b0 + b1 + b2 + b3;
    FourWords(b);
    assert Word(b, 0) == Word(b0, 0) && Word(b, 1) == Word(b1, 0);
    assert Word(b, 2) == Word(b2, 0) && Word(b, 3) == Word(b3, 0);
    assert b[16..] == [];
    assert LittleEndian([]) == 0;
  }

  lemma AccumulateStep(acc: nat, r: nat, data: seq<Byte>)
    requires data != []
    ensures Accumulate(acc, r, data) ==
      Accumulate(Step(acc, r, if |data| <= 16 then data else data[..16]), r, if |data| <= 16 then [] else data[16..])
  {}

  /** The residue after a block depends only on the residue before it. */
  lemma StepResidue(v: nat, x: nat, r: nat)
    ensures ModP((v + x) * r) == ModP((ModP(v) + x) * r)
  {
    var q := v / P;
    assert (v + x) * r == (ModP(v) + x) * r + P * (q * r);
    SameResidue((v + x) * r, (v + x) * r, (ModP(v) + x) * r, q * r, 0);
  }

  lemma TagOf(v: nat, w: nat, top: nat, key: seq<Byte>, m: nat, c: nat)
    requires |key| == 32
    requires w + TWO128 * top == v && w + LittleEndian(key[16..]) == m + TWO128 * c && m < TWO128
    ensures m == Tag(v, key)
  {
    var s := LittleEndian(key[16..]);
    hide LittleEndian;
    assert v + s == m + TWO128 * (c + top);
    ModPlusMultiple(m, TWO128, c + top);
  }

  lemma WordsBound(w0: nat, w1: nat, w2: nat, w3: nat)
    requires Is32(w0) && Is32(w1) && Is32(w2) && Is32(w3)
    ensures WordsValue(w0, w1, w2, w3) < TWO128
  {}

  /** The words of the tag of an accumulator. */
  method FinishWords(h: array<nat>, key: seq<Byte>) returns (m0: nat, m1: nat, m2: nat, m3: nat)
    requires h.Length == 5 && Small(h[..]) && |key| == 32
    ensures Is32(m0) && Is32(m1) && Is32(m2) && Is32(m3)
    ensures WordsValue(m0, m1, m2, m3) == Tag(Value(h[..]), key)
  {
    var h0, h1, h2, h3, h4 := h[0], h[1], h[2], h[3], h[4];
    assert Value(h[..]) == Value5(h0, h1, h2, h3, h4);
    var w0, w1, w2, w3 := Pack(h0, h1, h2, h3, h4);
    KeyWords(key);
    hide Value, Value5, LittleEndian, Word, Tag, WordsValue;
    m0, m1, m2, m3 := AddPad(w0, w1, w2, w3, Word(key, 4), Word(key, 5), Word(key, 6), Word(key, 7));
    ghost var c: nat :| WordsValue(w0, w1, w2, w3) + LittleEndian(key[16..]) == WordsValue(m0, m1, m2, m3) + TWO128 * c;
    WordsBound(m0, m1, m2, m3);
    TagOf(Value5(h0, h1, h2, h3, h4), WordsValue(w0, w1, w2, w3), h4 / 0x1000000, key, WordsValue(m0, m1, m2, m3), c);
  }

  /** The tag in the first four words of `h`. */
  ghost predicate Finished(h: seq<nat>, tag: nat) {
    && |h| == 5 && Is32(h[0]) && Is32(h[1]) && Is32(h[2]) && Is32(h[3])
    && WordsValue(h[0], h[1], h[2], h[3]) == tag
  }

  /** The final steps on the accumulator: full carry, reduction, packing, and the addition of the pad. */
  method Finish(h: array<nat>, key: seq<Byte>)
    requires h.Length == 5 && Reduced(h[..]) && |key| == 32
    modifies h
    ensures Finished(h[..], Tag(ModP(old(Value(h[..]))), key))
  {
    FullyCarry(h);
    ReduceModP(h);
    hide Value, ModP, Tag, WordsValue;
    var m0, m1, m2, m3 := FinishWords(h, key);
    h[0], h[1], h[2], h[3] := m0, m1, m2, m3;
  }

  function From(data: seq<Byte>, i: nat): seq<Byte> {
    if i <= |data| then data[i..] else []
  }

  /**
   `_BRPoly1305Compress`: without `final` the limbs hold the accumulator of the RFC modulo P; with it the first
   four words hold the tag.
  */
  method Compress(h: array<nat>, key: seq<Byte>, data: seq<Byte>, final: bool)
    requires h.Length == 5 && Reduced(h[..]) && |key| == 32
    modifies h
    ensures var acc := Accumulate(ModP(old(Value(h[..]))), ClampedR(key), data);
      if final then Finished(h[..], Tag(acc, key)) else Reduced(h[..]) && ModP(Value(h[..])) == acc
  {
    var r := LoadR(key);
    hide Value, ModP, Tag, BlockValue, LittleEndian, Reduced, Loaded, Small, ClampedR, WordsValue, Accumulate;
    ghost var rv := ClampedR(key);
    var i := 0;
    assert From(data, 0) == data;
    while i < |data|
      invariant Reduced(h[..])
      invariant Accumulate(ModP(Value(h[..])), rv, From(data, i)) == Accumulate(ModP(old(Value(h[..]))), rv, data)
    {
      ghost var v, rest := Value(h[..]), data[i..];
      AddBlock(h, PaddedBlock(data[i..]), if i + 16 <= |data| then 1 else 0);
      MultiplyModP(h, r);
      BlockStep(v, rv, rest);
      i := i + 16;
      assert From(data, i) == From(rest, 16);
    }
    AccumulateNothing(ModP(Value(h[..])), rv);
    if final {
      Finish(h, key);
    }
  }

  lemma AccumulateNothing(acc: nat, r: nat)
    ensures Accumulate(acc, r, []) == acc
  {}

  lemma BlockStep(v: nat, r: nat, rest: seq<Byte>)
    requires rest != []
    ensures var x := LittleEndian(PaddedBlock(rest)) + TWO128 * (if 16 <= |rest| then 1 else 0);
      Accumulate(ModP((v + x) * r), r, From(rest, 16)) == Accumulate(ModP(v), r, rest)
  {
    var first := if |rest| <= 16 then rest else rest[..16];
    PaddedBlockValue(rest);
    assert |rest| == 16 ==> rest[..16] == rest && rest[16..] == [];
    StepResidue(v, BlockValue(first), r);
    AccumulateStep(ModP(v), r, rest);
    hide ModP, Accumulate, LittleEndian, BlockValue;
  }

  /** Section 2.5 of RFC 7539. */
  ghost function Authenticator(key: seq<Byte>, data: seq<Byte>): nat
    requires |key| == 32
  {
    Tag(Accumulate(0, ClampedR(key), data), key)
  }

  method MacBytes(h: array<nat>, ghost tag: nat) returns (mac: seq<Byte>)
    requires h.Length == 5 && Finished(h[..], tag)
    ensures |mac| == 16 && LittleEndian(mac) == tag
  {
    assert h[..][0] == h[0] && h[..][1] == h[1] && h[..][2] == h[2] && h[..][3] == h[3];
    mac := WordBytes(h[0]) + WordBytes(h[1]) + WordBytes(h[2]) + WordBytes(h[3]);
    BytesOfWords(h[0], h[1], h[2], h[3]);
  }

  method NewLimbs() returns (h: array<nat>)
    ensures fresh(h) && h.Length == 5 && Reduced(h[..]) && ModP(Value(h[..])) == 0
  {
    h := new nat[5](_ => 0);
    assert h[..] == [0, 0, 0, 0, 0];
    ZeroValue();
  }

  lemma ZeroValue()
    ensures ModP(Value([0, 0, 0, 0, 0])) == 0
  {}

  method Mac(key: seq<Byte>, data: seq<Byte>) returns (mac: seq<Byte>)
    requires |key| == 32
    ensures |mac| == 16 && LittleEndian(mac) == Authenticator(key, data)
  {
    var h := NewLimbs();
    hide Value, ModP, ClampedR, Reduced, Accumulate, Finished, Tag, LittleEndian;
    Compress(h, key, data, true);
    mac := MacBytes(h, Authenticator(key, data));
  }

  // ---------- Splitting the data ----------

  /** Compressing a prefix of whole blocks and then the rest is compressing everything. */
  lemma {:induction false} AccumulateConcat(acc: nat, r: nat, a: seq<Byte>, b: seq<Byte>)
    requires |a| % 16 == 0
    ensures Accumulate(acc, r, a + b) == Accumulate(Accumulate(acc, r, a), r, b)
    decreases |a|
  {
    hide Step;
    if a == [] {
      assert a + b == b;
    } else {
      AccumulateStep(acc, r, a);
      assert a[16..] == [] || |a| > 16;
      var first := a[..16];
      assert |a| == 16 ==> a == first;
      var acc' := Step(acc, r, first);
      assert Accumulate(acc, r, a) == Accumulate(acc', r, a[16..]);
      AccumulateStep(acc, r, a + b);
      assert (a + b)[..16] == first;
      if b == [] {
        assert a + b == a;
      } else {
        assert (a + b)[16..] == a[16..] + b;
      }
      hide Accumulate;
      AccumulateConcat(acc', r, a[16..], b);
      if b == [] {
        AccumulateNothing(Accumulate(acc, r, a), r);
      }
    }
  }

  /** Zero bytes up to the next multiple of 16. */
  function Pad16(data: seq<Byte>): (padded: seq<Byte>)
    ensures |padded| % 16 == 0 && data <= padded
  {
    if |data| % 16 == 0 then data else data + Radix.Zeros(16 - |data| % 16)
  }

  lemma PadSplit(data: seq<Byte>)
    ensures var n := |data| / 16 * 16;
      Pad16(data) == data[..n] + (if |data| % 16 != 0 then data[n..] + Radix.Zeros(16 - |data| % 16) else [])
  {}

  /** Whole blocks first, then the remainder in a zero-filled buffer of its own. */
  method CompressPadded(h: array<nat>, key: seq<Byte>, data: seq<Byte>)
    requires h.Length == 5 && Reduced(h[..]) && |key| == 32
    modifies h
    ensures Reduced(h[..])
    ensures ModP(Value(h[..])) == Accumulate(ModP(old(Value(h[..]))), ClampedR(key), Pad16(data))
  {
    hide Value, ModP, ClampedR, Reduced, Accumulate, Pad16, Finished, Tag;
    var n := |data| / 16 * 16;
    ghost var v, r := ModP(Value(h[..])), ClampedR(key);
    PadSplit(data);
    Compress(h, key, data[..n], false);
    assert ModP(Value(h[..])) == Accumulate(v, r, data[..n]);
    if |data| % 16 != 0 {
      var pad := data[n..] + Radix.Zeros(16 - |data| % 16);
      Compress(h, key, pad, false);
      AccumulateConcat(v, r, data[..n], pad);
    } else {
      assert data[..n] + [] == data[..n];
    }
  }

  /** The data section 2.8 of RFC 7539 authenticates: both parts padded, then their lengths in 64 bits each. */
  function AeadData(ad: seq<Byte>, ciphertext: seq<Byte>): seq<Byte> {
    Pad16(ad) + Pad16(ciphertext) + (ToLittleEndian(|ad|, 8) + ToLittleEndian(|ciphertext|, 8))
  }

  /** Where the parts and their lengths stand. */
  lemma AeadLayout(ad: seq<Byte>, ciphertext: seq<Byte>)
    requires |ad| < Radix.Pow(256, 8) && |ciphertext| < Radix.Pow(256, 8)
    ensures var data, a, c := AeadData(ad, ciphertext), (|ad| + 15) / 16 * 16, (|ciphertext| + 15) / 16 * 16;
      && |data| == a + c + 16
      && data[..|ad|] == ad && (forall i :: |ad| <= i < a ==> data[i] == 0)
      && data[a..a + |ciphertext|] == ciphertext && (forall i :: a + |ciphertext| <= i < a + c ==> data[i] == 0)
      && LittleEndian(data[a + c..a + c + 8]) == |ad| && LittleEndian(data[a + c + 8..]) == |ciphertext|
  {
    hide ToLittleEndian, LittleEndian, Radix.Pow;
    PaddedLength(ad);
    PaddedLength(ciphertext);
    hide Pad16;
    var data, a, c := AeadData(ad, ciphertext), (|ad| + 15) / 16 * 16, (|ciphertext| + 15) / 16 * 16;
    LittleEndianBack(|ad|, 8);
    LittleEndianBack(|ciphertext|, 8);
    assert data[a + c..a + c + 8] == ToLittleEndian(|ad|, 8);
    assert data[a + c + 8..] == ToLittleEndian(|ciphertext|, 8);
  }

  lemma PaddedLength(data: seq<Byte>)
    ensures var padded := Pad16(data);
      |padded| == (|data| + 15) / 16 * 16 && data <= padded && forall i :: |data| <= i < |padded| ==> padded[i] == 0
  {}

  /**
   The six calls with which BRChacha20Poly1305AEADEncrypt and BRChacha20Poly1305AEADDecrypt authenticate a message
   compute the tag of section 2.8 of RFC 7539.
  */
  method AeadMac(key: seq<Byte>, ad: seq<Byte>, ciphertext: seq<Byte>) returns (mac: seq<Byte>)
    requires |key| == 32
    ensures |mac| == 16
    ensures LittleEndian(mac) == Authenticator(key, AeadData(ad, ciphertext))
  {
    hide Value, ModP, ClampedR, Reduced, Accumulate, Pad16, Finished, Tag, LittleEndian, ToLittleEndian;
    var lengths := ToLittleEndian(|ad|, 8) + ToLittleEndian(|ciphertext|, 8);
    var h := NewLimbs();
    ghost var r, a, c := ClampedR(key), Pad16(ad), Pad16(ciphertext);
    ghost var acc := Accumulate(Accumulate(Accumulate(0, r, a), r, c), r, lengths);
    AccumulateConcat(0, r, a, c);
    AccumulateConcat(0, r, a + c, lengths);
    assert Authenticator(key, a + c + lengths) == Tag(acc, key);
    CompressPadded(h, key, ad);
    CompressPadded(h, key, ciphertext);
    Compress(h, key, lengths, true);
    mac := MacBytes(h, Tag(acc, key));
  }
}
