/** AES-256 on one block (BRBIP38Key.c), and the cipher of FIPS 197. */
module Aes {
  import opened SBoxes

  datatype Word = Word(a: bv8, b: bv8, c: bv8, d: bv8)
  datatype Block = Block(w0: Word, w1: Word, w2: Word, w3: Word)

  /** Eight words of the key schedule, as many as the program keeps at a time. */
  datatype Window = Window(lo: Block, hi: Block)

  // ---------- The cipher ----------

  /** Multiplication by x in the field of section 4.2.1 of FIPS 197: the high bit comes back as 0x1b. */
  function Xt(x: bv8): bv8 {
    var h := x >> 7;
    (x << 1) ^ h ^ (h << 1) ^ (h << 3) ^ (h << 4)
  }

  /** The macro `xt` on an int operand; bits above the eighth are cut off when the result is stored. */
  function XtInt(x: bv32): bv32 {
    (x << 1) ^ (((x >> 7) & 1) * 0x1b)
  }

  lemma XtStored(x: bv8)
    ensures (XtInt(x as bv32) & 0xff) as bv8 == Xt(x)
    ensures (XtInt(XtInt(x as bv32)) & 0xff) as bv8 == Xt(Xt(x))
  {}

  /** Multiplication by the inverse of x: undoes a round constant. */
  function Halve(x: bv8): bv8 {
    (x >> 1) ^ ((x & 1) * 0x8d)
  }

  lemma HalveXt(x: bv8)
    ensures Halve(Xt(x)) == x
  {}

  /** Addition in the field; the operator `^`. */
  function Add(x: bv8, y: bv8): bv8 {
    x ^ y
  }

  function Add3(x: bv8, y: bv8, z: bv8): bv8 {
    Add(Add(x, y), z)
  }

  function Add4(x: bv8, y: bv8, z: bv8, u: bv8): bv8 {
    Add(Add(x, y), Add(z, u))
  }

  lemma XtAdd(x: bv8, y: bv8)
    ensures Xt(Add(x, y)) == Add(Xt(x), Xt(y))
  {}

  function XorWords(u: Word, v: Word): Word {
    Word(Add(u.a, v.a), Add(u.b, v.b), Add(u.c, v.c), Add(u.d, v.d))
  }

  function SubWord(w: Word): Word {
    Word(Sbox(w.a), Sbox(w.b), Sbox(w.c), Sbox(w.d))
  }

  function InvSubWord(w: Word): Word {
    Word(InvSbox(w.a), InvSbox(w.b), InvSbox(w.c), InvSbox(w.d))
  }

  function RotWord(w: Word): Word {
    Word(w.b, w.c, w.d, w.a)
  }

  function AddRoundKey(x: Block, k: Block): Block {
    Block(XorWords(x.w0, k.w0), XorWords(x.w1, k.w1), XorWords(x.w2, k.w2), XorWords(x.w3, k.w3))
  }

  function SubBytes(x: Block): Block {
    Block(SubWord(x.w0), SubWord(x.w1), SubWord(x.w2), SubWord(x.w3))
  }

  function InvSubBytes(x: Block): Block {
    Block(InvSubWord(x.w0), InvSubWord(x.w1), InvSubWord(x.w2), InvSubWord(x.w3))
  }

  /** Row r is rotated by r columns. */
  function ShiftRows(x: Block): Block {
    Block(Word(x.w0.a, x.w1.b, x.w2.c, x.w3.d), Word(x.w1.a, x.w2.b, x.w3.c, x.w0.d),
          Word(x.w2.a, x.w3.b, x.w0.c, x.w1.d), Word(x.w3.a, x.w0.b, x.w1.c, x.w2.d))
  }

  function InvShiftRows(x: Block): Block {
    Block(Word(x.w0.a, x.w3.b, x.w2.c, x.w1.d), Word(x.w1.a, x.w0.b, x.w3.c, x.w2.d),
          Word(x.w2.a, x.w1.b, x.w0.c, x.w3.d), Word(x.w3.a, x.w2.b, x.w1.c, x.w0.d))
  }

  function Mul3(x: bv8): bv8 { Add(Xt(x), x) }
  function Mul9(x: bv8): bv8 { Add(Xt(Xt(Xt(x))), x) }
  function MulB(x: bv8): bv8 { Add3(Xt(Xt(Xt(x))), Xt(x), x) }
  function MulD(x: bv8): bv8 { Add3(Xt(Xt(Xt(x))), Xt(Xt(x)), x) }
  function MulE(x: bv8): bv8 { Add3(Xt(Xt(Xt(x))), Xt(Xt(x)), Xt(x)) }

  function MixRow(a: bv8, b: bv8, c: bv8, d: bv8): bv8 { Add4(Xt(a), Mul3(b), c, d) }
  function InvMixRow(a: bv8, b: bv8, c: bv8, d: bv8): bv8 { Add4(MulE(a), MulB(b), MulD(c), Mul9(d)) }

  /** Section 5.1.3 of FIPS 197. */
  function MixColumn(w: Word): Word {
    Word(MixRow(w.a, w.b, w.c, w.d), MixRow(w.b, w.c, w.d, w.a), MixRow(w.c, w.d, w.a, w.b), MixRow(w.d, w.a, w.b, w.c))
  }

  /** Section 5.3.3 of FIPS 197. */
  function InvMixColumn(w: Word): Word {
    Word(InvMixRow(w.a, w.b, w.c, w.d), InvMixRow(w.b, w.c, w.d, w.a),
         InvMixRow(w.c, w.d, w.a, w.b), InvMixRow(w.d, w.a, w.b, w.c))
  }

  function MixColumns(x: Block): Block {
    Block(MixColumn(x.w0), MixColumn(x.w1), MixColumn(x.w2), MixColumn(x.w3))
  }

  function InvMixColumns(x: Block): Block {
    Block(InvMixColumn(x.w0), InvMixColumn(x.w1), InvMixColumn(x.w2), InvMixColumn(x.w3))
  }

  // Sums may be regrouped.

  lemma AddAssociative(x: bv8, y: bv8, z: bv8)
    ensures Add(Add(x, y), z) == Add(x, Add(y, z))
  {}

  lemma AddCommutative(x: bv8, y: bv8)
    ensures Add(x, y) == Add(y, x)
  {}

  lemma Regroup(x: bv8, y: bv8, z: bv8, u: bv8)
    ensures Add(Add(x, y), Add(z, u)) == Add(Add(x, z), Add(y, u))
  {
    hide Add;
    AddAssociative(x, y, Add(z, u));
    AddAssociative(y, z, u);
    AddCommutative(y, z);
    AddAssociative(z, y, u);
    AddAssociative(x, z, Add(y, u));
  }

  lemma Regroup3(x: bv8, y: bv8, z: bv8, x': bv8, y': bv8, z': bv8)
    ensures Add3(Add(x, x'), Add(y, y'), Add(z, z')) == Add(Add3(x, y, z), Add3(x', y', z'))
  {
    hide Add;
    Regroup(x, x', y, y');
    Regroup(Add(x, y), Add(x', y'), z, z');
  }

  lemma Regroup4(x: bv8, y: bv8, z: bv8, u: bv8, x': bv8, y': bv8, z': bv8, u': bv8)
    ensures Add(Add4(x, y, z, u), Add4(x', y', z', u')) == Add4(Add(x, x'), Add(y, y'), Add(z, z'), Add(u, u'))
  {
    hide Add;
    Regroup(Add(x, y), Add(z, u), Add(x', y'), Add(z', u'));
    Regroup(x, y, x', y');
    Regroup(z, u, z', u');
  }

  lemma Rotate(x: bv8, y: bv8, z: bv8, u: bv8)
    ensures Add4(x, y, z, u) == Add4(u, x, y, z)
  {
    hide Add;
    AddCommutative(Add(x, y), Add(z, u));
    AddCommutative(z, u);
    Regroup(u, z, x, y);
    AddCommutative(z, y);
  }

  lemma Transpose(a0: bv8, a1: bv8, a2: bv8, a3: bv8, b0: bv8, b1: bv8, b2: bv8, b3: bv8,
                  c0: bv8, c1: bv8, c2: bv8, c3: bv8, d0: bv8, d1: bv8, d2: bv8, d3: bv8)
    ensures Add4(Add4(a0, a1, a2, a3), Add4(b0, b1, b2, b3), Add4(c0, c1, c2, c3), Add4(d0, d1, d2, d3)) ==
            Add4(Add4(a0, b3, c2, d1), Add4(a1, b0, c3, d2), Add4(a2, b1, c0, d3), Add4(a3, b2, c1, d0))
  {
    hide Add;
    Rotate(b0, b1, b2, b3);
    Rotate(c0, c1, c2, c3);
    Rotate(c3, c0, c1, c2);
    Rotate(d1, d2, d3, d0);
    Regroup4(a0, a1, a2, a3, b3, b0, b1, b2);
    Regroup4(c2, c3, c0, c1, d1, d2, d3, d0);
    Regroup4(Add(a0, b3), Add(a1, b0), Add(a2, b1), Add(a3, b2), Add(c2, d1), Add(c3, d2), Add(c0, d3), Add(c1, d0));
  }

  /** The multiplications are linear. */
  lemma MulAdd(x: bv8, y: bv8)
    ensures Mul9(Add(x, y)) == Add(Mul9(x), Mul9(y)) && MulB(Add(x, y)) == Add(MulB(x), MulB(y))
    ensures MulD(Add(x, y)) == Add(MulD(x), MulD(y)) && MulE(Add(x, y)) == Add(MulE(x), MulE(y))
  {
    hide Xt, Add, Add3;
    XtAdd(x, y);
    XtAdd(Xt(x), Xt(y));
    XtAdd(Xt(Xt(x)), Xt(Xt(y)));
    var x1, x2, x3, y1, y2, y3 := Xt(x), Xt(Xt(x)), Xt(Xt(Xt(x))), Xt(y), Xt(Xt(y)), Xt(Xt(Xt(y)));
    Regroup(x3, y3, x, y);
    Regroup3(x3, x1, x, y3, y1, y);
    Regroup3(x3, x2, x, y3, y2, y);
    Regroup3(x3, x2, x1, y3, y2, y1);
  }

  lemma MulAdd4(a: bv8, b: bv8, c: bv8, d: bv8)
    ensures Mul9(Add4(a, b, c, d)) == Add4(Mul9(a), Mul9(b), Mul9(c), Mul9(d))
    ensures MulB(Add4(a, b, c, d)) == Add4(MulB(a), MulB(b), MulB(c), MulB(d))
    ensures MulD(Add4(a, b, c, d)) == Add4(MulD(a), MulD(b), MulD(c), MulD(d))
    ensures MulE(Add4(a, b, c, d)) == Add4(MulE(a), MulE(b), MulE(c), MulE(d))
  {
    hide Mul9, MulB, MulD, MulE, Add;
    MulAdd(a, b);
    MulAdd(c, d);
    MulAdd(Add(a, b), Add(c, d));
  }

  // The product of the two matrices is the identity.

  lemma OnDiagonal(x: bv8)
    ensures Add4(MulE(Xt(x)), MulB(x), MulD(x), Mul9(Mul3(x))) == x
  {}

  lemma OffDiagonal1(x: bv8)
    ensures Add4(MulE(Mul3(x)), MulB(Xt(x)), MulD(x), Mul9(x)) == 0
  {}

  lemma OffDiagonal2(x: bv8)
    ensures Add4(MulE(x), MulB(Mul3(x)), MulD(Xt(x)), Mul9(x)) == 0
  {}

  lemma OffDiagonal3(x: bv8)
    ensures Add4(MulE(x), MulB(x), MulD(Mul3(x)), Mul9(Xt(x))) == 0
  {}

  lemma AddZeros(x: bv8)
    ensures Add4(x, 0, 0, 0) == x
  {}

  lemma MixRowInverse(a: bv8, b: bv8, c: bv8, d: bv8)
    ensures InvMixRow(MixRow(a, b, c, d), MixRow(b, c, d, a), MixRow(c, d, a, b), MixRow(d, a, b, c)) == a
  {
    hide Xt, Mul3, Mul9, MulB, MulD, MulE, Add, Add4;
    MulAdd4(Xt(a), Mul3(b), c, d);
    MulAdd4(Xt(b), Mul3(c), d, a);
    MulAdd4(Xt(c), Mul3(d), a, b);
    MulAdd4(Xt(d), Mul3(a), b, c);
    Transpose(MulE(Xt(a)), MulE(Mul3(b)), MulE(c), MulE(d), MulB(Xt(b)), MulB(Mul3(c)), MulB(d), MulB(a),
              MulD(Xt(c)), MulD(Mul3(d)), MulD(a), MulD(b), Mul9(Xt(d)), Mul9(Mul3(a)), Mul9(b), Mul9(c));
    OnDiagonal(a);
    OffDiagonal1(b);
    OffDiagonal2(c);
    OffDiagonal3(d);
    AddZeros(a);
  }

  lemma MixInverse(w: Word)
    ensures InvMixColumn(MixColumn(w)) == w
  {
    hide MixRow, InvMixRow;
    MixRowInverse(w.a, w.b, w.c, w.d);
    MixRowInverse(w.b, w.c, w.d, w.a);
    MixRowInverse(w.c, w.d, w.a, w.b);
    MixRowInverse(w.d, w.a, w.b, w.c);
  }

  /** What the program computes for one byte of a column: the columns are mixed with three multiplications less. */
  lemma MixShortcut(a: bv8, b: bv8, c: bv8, d: bv8)
    ensures Add(a, Add(Add4(a, b, c, d), Xt(Add(a, b)))) == MixRow(a, b, c, d)
  {
    hide Xt, Add;
    XtAdd(a, b);
    MixSum(a, b, c, d, Xt(a), Xt(b));
  }

  lemma MixSum(a: bv8, b: bv8, c: bv8, d: bv8, a1: bv8, b1: bv8)
    ensures Add(a, Add(Add4(a, b, c, d), Add(a1, b1))) == Add4(a1, Add(b1, b), c, d)
  {
    hide Add, Add4;
    XorMix(a, b, c, d, a1, b1);
    MixLeft(a, b, c, d, a1, b1);
    MixRight(b, c, d, a1, b1);
  }

  lemma MixLeft(a: bv8, b: bv8, c: bv8, d: bv8, a1: bv8, b1: bv8)
    ensures Add(a, Add(Add4(a, b, c, d), Add(a1, b1))) == a ^ (a ^ b ^ c ^ d ^ (a1 ^ b1))
  {}

  lemma MixRight(b: bv8, c: bv8, d: bv8, a1: bv8, b1: bv8)
    ensures Add4(a1, Add(b1, b), c, d) == a1 ^ (b1 ^ b) ^ c ^ d
  {}

  lemma XorMix(a: bv8, b: bv8, c: bv8, d: bv8, a1: bv8, b1: bv8)
    ensures a ^ (a ^ b ^ c ^ d ^ (a1 ^ b1)) == a1 ^ (b1 ^ b) ^ c ^ d
  {}

  lemma Unmixed(a: bv8, b: bv8, c: bv8, d: bv8, a1: bv8, b1: bv8, a2: bv8, c2: bv8, a3: bv8, b3: bv8, c3: bv8, d3: bv8)
    ensures a ^ ((a ^ b ^ c ^ d ^ Add3(Add4(a3, b3, c3, d3), a2, c2)) ^ Add(a1, b1)) ==
            Add4(Add3(a3, a2, a1), Add3(b3, b1, b), Add3(c3, c2, c), Add(d3, d))
  {
    hide Add;
    UnmixedSum(a3, b3, c3, d3, Add(a2, a1), Add(b1, b), Add(c2, c), d);
    XorUnmixed(a, b, c, d, a1, b1, a2, c2, Add4(a3, b3, c3, d3));
    AddAssociative(a3, a2, a1);
    AddAssociative(b3, b1, b);
    AddAssociative(c3, c2, c);
    Xors(a, b, c, d, a1, b1, a2, c2, Add4(a3, b3, c3, d3));
  }

  lemma UnmixedSum(a3: bv8, b3: bv8, c3: bv8, d3: bv8, x: bv8, y: bv8, z: bv8, u: bv8)
    ensures Add4(Add(a3, x), Add(b3, y), Add(c3, z), Add(d3, u)) == Add(Add4(a3, b3, c3, d3), Add4(x, y, z, u))
  {
    hide Add;
    Regroup4(a3, b3, c3, d3, x, y, z, u);
  }

  lemma Xors(a: bv8, b: bv8, c: bv8, d: bv8, a1: bv8, b1: bv8, a2: bv8, c2: bv8, s: bv8)
    ensures Add(s, Add4(Add(a2, a1), Add(b1, b), Add(c2, c), d)) == s ^ (((a2 ^ a1) ^ (b1 ^ b)) ^ ((c2 ^ c) ^ d))
    ensures Add3(s, a2, c2) == s ^ a2 ^ c2 && Add(a1, b1) == a1 ^ b1
  {}

  lemma XorUnmixed(a: bv8, b: bv8, c: bv8, d: bv8, a1: bv8, b1: bv8, a2: bv8, c2: bv8, s: bv8)
    ensures a ^ ((a ^ b ^ c ^ d ^ (s ^ a2 ^ c2)) ^ (a1 ^ b1)) ==
            s ^ (((a2 ^ a1) ^ (b1 ^ b)) ^ ((c2 ^ c) ^ d))
  {}

  lemma XtTwice(x: bv8, y: bv8, z: bv8)
    ensures Xt(Xt(Add3(x, y, z))) == Add3(Xt(Xt(x)), Xt(Xt(y)), Xt(Xt(z)))
  {
    hide Xt, Add;
    XtAdd(Add(x, y), z);
    XtAdd(x, y);
    XtAdd(Add(Xt(x), Xt(y)), Xt(z));
    XtAdd(Xt(x), Xt(y));
  }

  lemma XtAdd4(a: bv8, b: bv8, c: bv8, d: bv8)
    ensures Xt(Add4(a, b, c, d)) == Add4(Xt(a), Xt(b), Xt(c), Xt(d))
  {
    hide Xt, Add;
    XtAdd(a, b);
    XtAdd(c, d);
    XtAdd(Add(a, b), Add(c, d));
  }

  lemma UnmixSum(a: bv8, b: bv8, c: bv8, d: bv8, x: bv8, y: bv8)
    ensures Add(a, Add(Add(Add4(a, b, c, d), x), y)) == a ^ ((a ^ b ^ c ^ d ^ x) ^ y)
  {}

  /** And what it computes for one byte when it unmixes them. */
  lemma UnmixShortcut(a: bv8, b: bv8, c: bv8, d: bv8)
    ensures var e := Add4(a, b, c, d);
      Add(a, Add(Add(e, Xt(Xt(Add3(Xt(e), a, c)))), Xt(Add(a, b)))) == InvMixRow(a, b, c, d)
  {
    hide Xt, Add, Add3, Add4;
    var e := Add4(a, b, c, d);
    UnmixSum(a, b, c, d, Xt(Xt(Add3(Xt(e), a, c))), Xt(Add(a, b)));
    XtTwice(Xt(e), a, c);
    XtAdd4(a, b, c, d);
    XtAdd4(Xt(a), Xt(b), Xt(c), Xt(d));
    XtAdd4(Xt(Xt(a)), Xt(Xt(b)), Xt(Xt(c)), Xt(Xt(d)));
    XtAdd(a, b);
    Unmixed(a, b, c, d, Xt(a), Xt(b), Xt(Xt(a)), Xt(Xt(c)),
            Xt(Xt(Xt(a))), Xt(Xt(Xt(b))), Xt(Xt(Xt(c))), Xt(Xt(Xt(d))));
  }

  // ---------- Rounds ----------

  lemma XorTwice(u: Word, v: Word)
    ensures XorWords(XorWords(u, v), v) == u
  {}

  lemma RoundKeyTwice(x: Block, k: Block)
    ensures AddRoundKey(AddRoundKey(x, k), k) == x
  {
    hide XorWords;
    XorTwice(x.w0, k.w0);
    XorTwice(x.w1, k.w1);
    XorTwice(x.w2, k.w2);
    XorTwice(x.w3, k.w3);
  }

  lemma SubInverse(w: Word)
    ensures InvSubWord(SubWord(w)) == w
  {
    hide Sbox, InvSbox;
    SboxInverse(w.a);
    SboxInverse(w.b);
    SboxInverse(w.c);
    SboxInverse(w.d);
  }

  lemma SubBytesInverse(x: Block)
    ensures InvSubBytes(SubBytes(x)) == x
  {
    hide SubWord, InvSubWord;
    SubInverse(x.w0);
    SubInverse(x.w1);
    SubInverse(x.w2);
    SubInverse(x.w3);
  }

  lemma MixColumnsInverse(x: Block)
    ensures InvMixColumns(MixColumns(x)) == x
  {
    hide MixColumn, InvMixColumn;
    MixInverse(x.w0);
    MixInverse(x.w1);
    MixInverse(x.w2);
    MixInverse(x.w3);
  }

  /** One round of encryption; the last one does not mix the columns. */
  function Round(x: Block, k: Block, last: bool): Block {
    var s := ShiftRows(SubBytes(AddRoundKey(x, k)));
    if last then s else MixColumns(s)
  }

  /** One round of decryption; the first one does not unmix them. */
  function InvRound(x: Block, k: Block, first: bool): Block {
    var s := AddRoundKey(x, k);
    InvSubBytes(InvShiftRows(if first then s else InvMixColumns(s)))
  }

  lemma RoundInverse(x: Block, k: Block, k': Block, last: bool)
    ensures InvRound(AddRoundKey(Round(x, k, last), k'), k', last) == AddRoundKey(x, k)
  {
    hide AddRoundKey, SubBytes, InvSubBytes, MixColumns, InvMixColumns;
    var y := AddRoundKey(x, k);
    RoundKeyTwice(Round(x, k, last), k');
    MixColumnsInverse(ShiftRows(SubBytes(y)));
    SubBytesInverse(y);
  }

  // ---------- The key schedule ----------

  /** The next eight words of the key schedule. */
  function Expand(k: Window, r: bv8): Window {
    var n0 := XorWords(XorWords(k.lo.w0, SubWord(RotWord(k.hi.w3))), Word(r, 0, 0, 0));
    var n1 := XorWords(k.lo.w1, n0);
    var n2 := XorWords(k.lo.w2, n1);
    var n3 := XorWords(k.lo.w3, n2);
    var n4 := XorWords(k.hi.w0, SubWord(n3));
    var n5 := XorWords(k.hi.w1, n4);
    var n6 := XorWords(k.hi.w2, n5);
    Window(Block(n0, n1, n2, n3), Block(n4, n5, n6, XorWords(k.hi.w3, n6)))
  }

  /** The eight words before. */
  function Unexpand(n: Window, r: bv8): Window {
    var k7 := XorWords(n.hi.w3, n.hi.w2);
    var hi := Block(XorWords(n.hi.w0, SubWord(n.lo.w3)), XorWords(n.hi.w1, n.hi.w0), XorWords(n.hi.w2, n.hi.w1), k7);
    Window(Block(XorWords(XorWords(n.lo.w0, SubWord(RotWord(k7))), Word(r, 0, 0, 0)),
                 XorWords(n.lo.w1, n.lo.w0), XorWords(n.lo.w2, n.lo.w1), XorWords(n.lo.w3, n.lo.w2)), hi)
  }

  lemma XorThrice(u: Word, v: Word, w: Word)
    ensures XorWords(XorWords(XorWords(XorWords(u, v), w), v), w) == u
  {}

  lemma UnexpandExpand(k: Window, r: bv8)
    ensures Unexpand(Expand(k, r), r) == k
  {
    hide XorWords, SubWord;
    var n := Expand(k, r);
    XorThrice(k.lo.w0, SubWord(RotWord(k.hi.w3)), Word(r, 0, 0, 0));
    XorTwice(k.lo.w1, n.lo.w0);
    XorTwice(k.lo.w2, n.lo.w1);
    XorTwice(k.lo.w3, n.lo.w2);
    XorTwice(k.hi.w0, SubWord(n.lo.w3));
    XorTwice(k.hi.w1, n.hi.w0);
    XorTwice(k.hi.w2, n.hi.w1);
    XorTwice(k.hi.w3, n.hi.w2);
  }

  /** The round constants. */
  function Rcon(n: nat): bv8 {
    if n == 0 then 1 else Xt(Rcon(n - 1))
  }

  /** The window after `n` expansions. */
  function Schedule(key: Window, n: nat): Window {
    if n == 0 then key else Expand(Schedule(key, n - 1), Rcon(n - 1))
  }

  function RoundKey(key: Window, i: nat): Block {
    if i % 2 == 0 then Schedule(key, i / 2).lo else Schedule(key, i / 2).hi
  }

  /** Going back one window, with the round constant halved. */
  lemma ScheduleBack(key: Window, n: nat)
    requires n > 0
    ensures Halve(Rcon(n)) == Rcon(n - 1) && Unexpand(Schedule(key, n), Rcon(n - 1)) == Schedule(key, n - 1)
  {
    hide Xt, Halve, Expand, Unexpand;
    HalveXt(Rcon(n - 1));
    UnexpandExpand(Schedule(key, n - 1), Rcon(n - 1));
  }

  // ---------- The block cipher ----------

  const ROUNDS: nat := 14

  /** The state after `i` rounds of encryption. */
  function Encrypting(key: Window, x: Block, i: nat): Block {
    if i == 0 then x else Round(Encrypting(key, x, i - 1), RoundKey(key, i - 1), i == ROUNDS)
  }

  function Encrypted(key: Window, x: Block): Block {
    AddRoundKey(Encrypting(key, x, ROUNDS), RoundKey(key, ROUNDS))
  }

  /** The state after `i` rounds of decryption. */
  function Decrypting(key: Window, x: Block, i: nat): Block
    requires i <= ROUNDS
  {
    if i == 0 then x else InvRound(Decrypting(key, x, i - 1), RoundKey(key, ROUNDS - (i - 1)), i == 1)
  }

  function Decrypted(key: Window, x: Block): Block {
    AddRoundKey(Decrypting(key, x, ROUNDS), RoundKey(key, 0))
  }

  /** After i rounds, decryption is where encryption was i rounds before its end. */
  lemma {:induction false} Retrace(key: Window, x: Block, i: nat)
    requires i <= ROUNDS
    ensures Decrypting(key, Encrypted(key, x), i) ==
            AddRoundKey(Encrypting(key, x, ROUNDS - i), RoundKey(key, ROUNDS - i))
  {
    hide AddRoundKey, Round, InvRound, RoundKey;
    if i > 0 {
      var j := ROUNDS - i;
      Retrace(key, x, i - 1);
      RoundInverse(Encrypting(key, x, j), RoundKey(key, j), RoundKey(key, j + 1), j + 1 == ROUNDS);
    }
  }

  /** Decryption undoes encryption, for every key and block. */
  lemma DecryptEncrypt(key: Window, x: Block)
    ensures Decrypted(key, Encrypted(key, x)) == x
  {
    hide AddRoundKey, Round, RoundKey;
    Retrace(key, x, ROUNDS);
    RoundKeyTwice(x, RoundKey(key, 0));
  }

  // ---------- FIPS 197 ----------

  function KeyWord(key: Window, j: nat): Word
    requires j < 8
  {
    var b := if j < 4 then key.lo else key.hi;
    if j % 4 == 0 then b.w0 else if j % 4 == 1 then b.w1 else if j % 4 == 2 then b.w2 else b.w3
  }

  /** Section 5.2 of FIPS 197 for keys of eight words. */
  function W(key: Window, i: nat): Word {
    if i < 8 then KeyWord(key, i)
    else if i % 8 == 0 then
      XorWords(W(key, i - 8), XorWords(SubWord(RotWord(W(key, i - 1))), Word(Rcon(i / 8 - 1), 0, 0, 0)))
    else if i % 8 == 4 then XorWords(W(key, i - 8), SubWord(W(key, i - 1)))
    else XorWords(W(key, i - 8), W(key, i - 1))
  }

  lemma XorAssociative(u: Word, v: Word, w: Word)
    ensures XorWords(XorWords(u, v), w) == XorWords(u, XorWords(v, w))
  {}

  lemma WordOfSchedule(key: Window, n: nat, j: nat)
    requires n > 0 && j < 8
    ensures var i := 8 * n + j;
      W(key, i) ==
        if j == 0 then XorWords(W(key, i - 8), XorWords(SubWord(RotWord(W(key, i - 1))), Word(Rcon(n - 1), 0, 0, 0)))
        else if j == 4 then XorWords(W(key, i - 8), SubWord(W(key, i - 1)))
        else XorWords(W(key, i - 8), W(key, i - 1))
  {
    hide XorWords, SubWord, RotWord, Rcon;
  }

  /** The window holds words 8 n to 8 n + 7 of the key schedule. */
  predicate IsWindow(key: Window, k: Window, n: nat) {
    var i := 8 * n;
    && k.lo == Block(W(key, i), W(key, i + 1), W(key, i + 2), W(key, i + 3))
    && k.hi == Block(W(key, i + 4), W(key, i + 5), W(key, i + 6), W(key, i + 7))
  }

  lemma {:induction false} ScheduleIs(key: Window, n: nat)
    ensures IsWindow(key, Schedule(key, n), n)
  {
    hide IsWindow, Expand, W, KeyWord, Rcon;
    if n > 0 {
      ScheduleIs(key, n - 1);
      WindowStep(key, n, Schedule(key, n - 1));
    } else {
      FirstWindow(key);
    }
  }

  lemma FirstWindow(key: Window)
    ensures IsWindow(key, key, 0)
  {
    assert W(key, 0) == key.lo.w0 && W(key, 1) == key.lo.w1 && W(key, 2) == key.lo.w2 && W(key, 3) == key.lo.w3;
    assert W(key, 4) == key.hi.w0 && W(key, 5) == key.hi.w1 && W(key, 6) == key.hi.w2 && W(key, 7) == key.hi.w3;
  }

  lemma WindowStep(key: Window, n: nat, k: Window)
    requires n > 0 && IsWindow(key, k, n - 1)
    ensures IsWindow(key, Expand(k, Rcon(n - 1)), n)
  {
    hide XorWords, SubWord, RotWord, Rcon, W;
    XorAssociative(k.lo.w0, SubWord(RotWord(k.hi.w3)), Word(Rcon(n - 1), 0, 0, 0));
    WordOfSchedule(key, n, 0);
    WordOfSchedule(key, n, 1);
    WordOfSchedule(key, n, 2);
    WordOfSchedule(key, n, 3);
    WordOfSchedule(key, n, 4);
    WordOfSchedule(key, n, 5);
    WordOfSchedule(key, n, 6);
    WordOfSchedule(key, n, 7);
  }

  /** The words of round i, as one block. */
  function RoundWords(key: Window, i: nat): Block {
    Block(W(key, 4 * i), W(key, 4 * i + 1), W(key, 4 * i + 2), W(key, 4 * i + 3))
  }

  lemma RoundKeyIs(key: Window, i: nat)
    ensures RoundKey(key, i) == RoundWords(key, i)
  {
    hide W, Schedule;
    ScheduleIs(key, i / 2);
  }

  /** The state of the cipher of section 5.1 of FIPS 197 after round i. */
  function CipherState(key: Window, x: Block, i: nat): Block {
    if i == 0 then AddRoundKey(x, RoundWords(key, 0))
    else
      var s := ShiftRows(SubBytes(CipherState(key, x, i - 1)));
      AddRoundKey(if i == ROUNDS then s else MixColumns(s), RoundWords(key, i))
  }

  function Cipher(key: Window, x: Block): Block {
    CipherState(key, x, ROUNDS)
  }

  lemma {:induction false} EncryptingIsCipher(key: Window, x: Block, i: nat)
    ensures AddRoundKey(Encrypting(key, x, i), RoundKey(key, i)) == CipherState(key, x, i)
  {
    hide AddRoundKey, SubBytes, ShiftRows, MixColumns, RoundKey, RoundWords;
    RoundKeyIs(key, i);
    if i > 0 {
      EncryptingIsCipher(key, x, i - 1);
    }
  }

  /** The program's encryption is the cipher of FIPS 197. */
  lemma EncryptedIsCipher(key: Window, x: Block)
    ensures Encrypted(key, x) == Cipher(key, x)
  {
    EncryptingIsCipher(key, x, ROUNDS);
  }
}
