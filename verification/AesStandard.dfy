/** The parts of AES against the words of FIPS 197: the field, the substitution, the matrices, the layout of the state. */
module AesStandard {
  import opened Aes
  import opened AesInPlace
  import opened SBoxes

  // ---------- The field ----------

  /** The product in the field, by doubling. */
  function Times(x: bv8, y: bv8): bv8 {
    Add(LowTimes(x, y), LowTimes(x >> 4, Xt(Xt(Xt(Xt(y))))))
  }

  /** The product with the low four bits of `x`. */
  function LowTimes(x: bv8, y: bv8): bv8 {
    Add4(Part(x & 1, y), Part(x & 2, Xt(y)), Part(x & 4, Xt(Xt(y))), Part(x & 8, Xt(Xt(Xt(y)))))
  }

  function Part(bit: bv8, y: bv8): bv8 {
    if bit == 0 then 0 else y
  }

  /** Doubling reduces by the polynomial of section 4.2 of FIPS 197, which is 0x11b. */
  lemma XtReduces(x: bv8)
    ensures (Xt(x) as bv16 == if x < 0x80 then (x as bv16) << 1 else ((x as bv16) << 1) ^ 0x11b)
  {}

  /** The factors of the two matrices. */
  lemma MulIs(x: bv8)
    ensures Xt(x) == Times(2, x) && Mul3(x) == Times(3, x) && Mul9(x) == Times(9, x)
  {}

  lemma InvMulIs(x: bv8)
    ensures MulB(x) == Times(0xb, x) && MulD(x) == Times(0xd, x) && MulE(x) == Times(0xe, x)
  {}

  lemma LowTimesAdd(x: bv8, y: bv8, z: bv8)
    ensures LowTimes(x, Add(y, z)) == Add(LowTimes(x, y), LowTimes(x, z))
  {
    hide Xt, Add, Part;
    XtAdd(y, z);
    XtAdd(Xt(y), Xt(z));
    XtAdd(Xt(Xt(y)), Xt(Xt(z)));
    PartAdd(x & 1, y, z);
    PartAdd(x & 2, Xt(y), Xt(z));
    PartAdd(x & 4, Xt(Xt(y)), Xt(Xt(z)));
    PartAdd(x & 8, Xt(Xt(Xt(y))), Xt(Xt(Xt(z))));
    Regroup4(Part(x & 1, y), Part(x & 2, Xt(y)), Part(x & 4, Xt(Xt(y))), Part(x & 8, Xt(Xt(Xt(y)))),
             Part(x & 1, z), Part(x & 2, Xt(z)), Part(x & 4, Xt(Xt(z))), Part(x & 8, Xt(Xt(Xt(z)))));
  }

  lemma PartAdd(bit: bv8, y: bv8, z: bv8)
    ensures Part(bit, Add(y, z)) == Add(Part(bit, y), Part(bit, z))
  {}

  /** The product is linear. */
  lemma TimesAdd(x: bv8, y: bv8, z: bv8)
    ensures Times(x, Add(y, z)) == Add(Times(x, y), Times(x, z))
  {
    hide Xt, Add, LowTimes;
    XtAdd(y, z);
    XtAdd(Xt(y), Xt(z));
    XtAdd(Xt(Xt(y)), Xt(Xt(z)));
    XtAdd(Xt(Xt(Xt(y))), Xt(Xt(Xt(z))));
    var y4, z4 := Xt(Xt(Xt(Xt(y)))), Xt(Xt(Xt(Xt(z))));
    LowTimesAdd(x, y, z);
    LowTimesAdd(x >> 4, y4, z4);
    Regroup(LowTimes(x, y), LowTimes(x, z), LowTimes(x >> 4, y4), LowTimes(x >> 4, z4));
  }

  /** A product is zero only if a factor is. */
  lemma NoZeroDivisors(x: bv8, y: bv8)
    requires Times(x, y) == 0 && x != 0
    ensures y == 0
  {
    hide Times;
    if x & 1 == 0 { EvenFactor(x, y); } else { OddFactor(x, y); }
  }

  lemma EvenFactor(x: bv8, y: bv8)
    requires Times(x, y) == 0 && x != 0 && x & 1 == 0
    ensures y == 0
  {}

  lemma OddFactor(x: bv8, y: bv8)
    requires Times(x, y) == 0 && x & 1 == 1
    ensures y == 0
  {}

  lemma AddSelf(x: bv8, y: bv8)
    ensures Add(x, y) == 0 <==> x == y
  {}

  // ---------- The substitution ----------

  function RotateLeft(x: bv8, n: nat): bv8
    requires n < 8
  {
    (x << n) | (x >> (8 - n))
  }

  /** The affine map of section 5.1.1 of FIPS 197. */
  function Affine(x: bv8): bv8 {
    x ^ RotateLeft(x, 1) ^ RotateLeft(x, 2) ^ RotateLeft(x, 3) ^ RotateLeft(x, 4) ^ 0x63
  }

  function InvAffine(x: bv8): bv8 {
    RotateLeft(x, 1) ^ RotateLeft(x, 3) ^ RotateLeft(x, 6) ^ 0x05
  }

  lemma AffineInverse(x: bv8)
    ensures Affine(InvAffine(x)) == x && InvAffine(Affine(x)) == x
  {}

  /** `y` is the inverse of `x` in the field, or both are zero. */
  predicate IsInverse(x: bv8, y: bv8) {
    if x == 0 then y == 0 else Times(x, y) == 1
  }

  lemma Inverses01(x: bv8)
    requires x >> 5 == 0
    ensures IsInverse(x, InvAffine(Sbox(x)))
  {}

  lemma Inverses23(x: bv8)
    requires x >> 5 == 1
    ensures IsInverse(x, InvAffine(Sbox(x)))
  {}

  lemma Inverses45(x: bv8)
    requires x >> 5 == 2
    ensures IsInverse(x, InvAffine(Sbox(x)))
  {}

  lemma Inverses67(x: bv8)
    requires x >> 5 == 3
    ensures IsInverse(x, InvAffine(Sbox(x)))
  {}

  lemma Inverses89(x: bv8)
    requires x >> 5 == 4
    ensures IsInverse(x, InvAffine(Sbox(x)))
  {}

  lemma InversesAB(x: bv8)
    requires x >> 5 == 5
    ensures IsInverse(x, InvAffine(Sbox(x)))
  {}

  lemma InversesCD(x: bv8)
    requires x >> 5 == 6
    ensures IsInverse(x, InvAffine(Sbox(x)))
  {}

  lemma InversesEF(x: bv8)
    requires x >> 5 == 7
    ensures IsInverse(x, InvAffine(Sbox(x)))
  {}

  lemma Inverses(x: bv8)
    ensures IsInverse(x, InvAffine(Sbox(x)))
  {
    hide Sbox, InvAffine, IsInverse;
    if x >> 5 == 0 { Inverses01(x); } else if x >> 5 == 1 { Inverses23(x); } else if x >> 5 == 2 { Inverses45(x); }
    else if x >> 5 == 3 { Inverses67(x); } else if x >> 5 == 4 { Inverses89(x); } else if x >> 5 == 5 { InversesAB(x); }
    else if x >> 5 == 6 { InversesCD(x); } else { InversesEF(x); }
  }

  lemma InverseUnique(x: bv8, y: bv8, z: bv8)
    requires IsInverse(x, y) && IsInverse(x, z)
    ensures y == z
  {
    hide Times, Add;
    if x != 0 {
      TimesAdd(x, y, z);
      AddSelf(1, 1);
      NoZeroDivisors(x, Add(y, z));
      AddSelf(y, z);
    }
  }

  /** The table is that of section 5.1.1 of FIPS 197: the affine image of the inverse. */
  lemma SboxIs(x: bv8, y: bv8)
    ensures Sbox(x) == Affine(y) <==> IsInverse(x, y)
  {
    hide Sbox, InvAffine, Affine, IsInverse;
    Inverses(x);
    AffineInverse(Sbox(x));
    AffineInverse(y);
    if IsInverse(x, y) { InverseUnique(x, y, InvAffine(Sbox(x))); }
  }

  // ---------- The layout ----------

  function InColumn(w: Word, r: nat): bv8
    requires r < 4
  {
    if r == 0 then w.a else if r == 1 then w.b else if r == 2 then w.c else w.d
  }

  /** The byte in row `r` and column `c` of the state. */
  function At(x: Block, r: nat, c: nat): bv8
    requires r < 4 && c < 4
  {
    InColumn(if c == 0 then x.w0 else if c == 1 then x.w1 else if c == 2 then x.w2 else x.w3, r)
  }

  /** Section 3.4 of FIPS 197: the bytes fill the state column by column. */
  lemma StateIs(s: seq<bv8>, r: nat, c: nat)
    requires |s| == 16 && r < 4 && c < 4
    ensures At(BlockAt(s, 0), r, c) == s[r + 4 * c]
  {}

  /** Sections 5.1.1, 5.1.2 and 5.1.4 of FIPS 197. */
  lemma RoundPartsAre(x: Block, k: Block, r: nat, c: nat)
    requires r < 4 && c < 4
    ensures At(SubBytes(x), r, c) == Sbox(At(x, r, c))
    ensures At(ShiftRows(x), r, c) == At(x, r, (c + r) % 4)
    ensures At(AddRoundKey(x, k), r, c) == Add(At(x, r, c), At(k, r, c))
  {
    hide Sbox, Add;
  }

  /** Section 5.1.3 of FIPS 197. */
  lemma MixedIs(x: Block, r: nat, c: nat)
    requires r < 4 && c < 4
    ensures At(MixColumns(x), r, c) == Add4(Times(2, At(x, r, c)), Times(3, At(x, (r + 1) % 4, c)),
                                            At(x, (r + 2) % 4, c), At(x, (r + 3) % 4, c))
  {
    hide Times, Add, Xt, Mul3;
    MulIs(At(x, r, c));
    MulIs(At(x, (r + 1) % 4, c));
  }

  /** Section 5.3.3 of FIPS 197. */
  lemma UnmixedIs(x: Block, r: nat, c: nat)
    requires r < 4 && c < 4
    ensures At(InvMixColumns(x), r, c) == Add4(Times(0xe, At(x, r, c)), Times(0xb, At(x, (r + 1) % 4, c)),
                                               Times(0xd, At(x, (r + 2) % 4, c)), Times(9, At(x, (r + 3) % 4, c)))
  {
    hide Times, Add, Add4, Xt, Mul9, MulB, MulD, MulE;
    InvMulIs(At(x, r, c));
    InvMulIs(At(x, (r + 1) % 4, c));
    InvMulIs(At(x, (r + 2) % 4, c));
    MulIs(At(x, (r + 3) % 4, c));
  }
}
