/** AES-256 as the program runs it: on the bytes of one block and of one window of the key schedule, in place. */
module AesInPlace {
  import opened Aes
  import opened SBoxes

  function WordAt(s: seq<bv8>, i: nat): Word
    requires i + 4 <= |s|
  {
    Word(s[i], s[i + 1], s[i + 2], s[i + 3])
  }

  function BlockAt(s: seq<bv8>, i: nat): Block
    requires i + 16 <= |s|
  {
    Block(WordAt(s, i), WordAt(s, i + 4), WordAt(s, i + 8), WordAt(s, i + 12))
  }

  function WindowOf(s: seq<bv8>): Window
    requires |s| == 32
  {
    Window(BlockAt(s, 0), BlockAt(s, 16))
  }

  lemma XoredBlock(s: seq<bv8>, t: seq<bv8>, k: seq<bv8>, o: nat)
    requires |s| == |t| == 16 && o + 16 <= |k| && forall i :: 0 <= i < 16 ==> t[i] == Add(s[i], k[o + i])
    ensures BlockAt(t, 0) == AddRoundKey(BlockAt(s, 0), BlockAt(k, o))
  {
    hide Add;
  }

  /** Adds the round key in half `h` of the window. */
  method AddKey(x: array<bv8>, k: array<bv8>, h: nat)
    requires x.Length == 16 && k.Length == 32 && h < 2 && x != k
    modifies x
    ensures BlockAt(x[..], 0) == AddRoundKey(BlockAt(old(x[..]), 0), BlockAt(k[..], 16 * h))
  {
    hide Add;
    ghost var was := x[..];
    for j := 0 to 16
      invariant forall i :: 0 <= i < 16 ==> x[i] == if i < j then Add(was[i], k[16 * h + i]) else was[i]
    {
      x[j] := Add(x[j], k[16 * h + j]);
    }
    XoredBlock(was, x[..], k[..], 16 * h);
  }

  lemma SubbedBlock(s: seq<bv8>, t: seq<bv8>)
    requires |s| == |t| == 16
    ensures (forall i :: 0 <= i < 16 ==> t[i] == Sbox(s[i])) ==> BlockAt(t, 0) == SubBytes(BlockAt(s, 0))
    ensures (forall i :: 0 <= i < 16 ==> t[i] == InvSbox(s[i])) ==> BlockAt(t, 0) == InvSubBytes(BlockAt(s, 0))
  {
    hide Sbox, InvSbox;
  }

  method SubstituteBytes(x: array<bv8>)
    requires x.Length == 16
    modifies x
    ensures BlockAt(x[..], 0) == SubBytes(BlockAt(old(x[..]), 0))
  {
    hide Sbox;
    ghost var was := x[..];
    for j := 0 to 16
      invariant forall i :: 0 <= i < 16 ==> x[i] == if i < j then Sbox(was[i]) else was[i]
    {
      x[j] := Sbox(x[j]);
    }
    SubbedBlock(was, x[..]);
  }

  method UnsubstituteBytes(x: array<bv8>)
    requires x.Length == 16
    modifies x
    ensures BlockAt(x[..], 0) == InvSubBytes(BlockAt(old(x[..]), 0))
  {
    hide InvSbox;
    ghost var was := x[..];
    for j := 0 to 16
      invariant forall i :: 0 <= i < 16 ==> x[i] == if i < j then InvSbox(was[i]) else was[i]
    {
      x[j] := InvSbox(x[j]);
    }
    SubbedBlock(was, x[..]);
  }

  method RotateRows(x: array<bv8>)
    requires x.Length == 16
    modifies x
    ensures BlockAt(x[..], 0) == ShiftRows(BlockAt(old(x[..]), 0))
  {
    var a := x[1];
    x[1] := x[5]; x[5] := x[9]; x[9] := x[13]; x[13] := a;
    a := x[10];
    x[10] := x[2]; x[2] := a;
    a := x[3];
    x[3] := x[15]; x[15] := x[11]; x[11] := x[7]; x[7] := a;
    a := x[14];
    x[14] := x[6]; x[6] := a;
  }

  method UnrotateRows(x: array<bv8>)
    requires x.Length == 16
    modifies x
    ensures BlockAt(x[..], 0) == InvShiftRows(BlockAt(old(x[..]), 0))
  {
    var a := x[1];
    x[1] := x[13]; x[13] := x[9]; x[9] := x[5]; x[5] := a;
    a := x[2];
    x[2] := x[10]; x[10] := a;
    a := x[3];
    x[3] := x[7]; x[7] := x[11]; x[11] := x[15]; x[15] := a;
    a := x[6];
    x[6] := x[14]; x[14] := a;
  }

  lemma SameSum(a: bv8, b: bv8, c: bv8, d: bv8)
    ensures Add4(a, b, c, d) == Add4(b, c, d, a) == Add4(c, d, a, b) == Add4(d, a, b, c)
  {
    hide Add4;
    Rotate(a, b, c, d);
    Rotate(b, c, d, a);
    Rotate(c, d, a, b);
  }

  lemma Opposite(a: bv8, c: bv8, h: bv8)
    ensures Add3(h, a, c) == Add3(h, c, a)
  {
    hide Add;
    AddAssociative(h, a, c);
    AddCommutative(a, c);
    AddAssociative(h, c, a);
  }

  /** The new bytes of a column. */
  method MixBytes(a: bv8, b: bv8, c: bv8, d: bv8) returns (w: Word)
    ensures w == MixColumn(Word(a, b, c, d))
  {
    hide Xt, MixRow, Add, Add4;
    var e := Add4(a, b, c, d);
    SameSum(a, b, c, d);
    MixShortcut(a, b, c, d);
    MixShortcut(b, c, d, a);
    MixShortcut(c, d, a, b);
    MixShortcut(d, a, b, c);
    w := Word(Add(a, Add(e, Xt(Add(a, b)))), Add(b, Add(e, Xt(Add(b, c)))),
              Add(c, Add(e, Xt(Add(c, d)))), Add(d, Add(e, Xt(Add(d, a)))));
  }

  /** The old bytes of a column. */
  method UnmixBytes(a: bv8, b: bv8, c: bv8, d: bv8) returns (w: Word)
    ensures w == InvMixColumn(Word(a, b, c, d))
  {
    hide Xt, InvMixRow, Add, Add3, Add4;
    var e := Add4(a, b, c, d);
    var h := Xt(e);
    var f, g := Add(e, Xt(Xt(Add3(h, a, c)))), Add(e, Xt(Xt(Add3(h, b, d))));
    SameSum(a, b, c, d);
    Opposite(a, c, h);
    Opposite(b, d, h);
    UnmixShortcut(a, b, c, d);
    UnmixShortcut(b, c, d, a);
    UnmixShortcut(c, d, a, b);
    UnmixShortcut(d, a, b, c);
    w := Word(Add(a, Add(f, Xt(Add(a, b)))), Add(b, Add(g, Xt(Add(b, c)))),
              Add(c, Add(f, Xt(Add(c, d)))), Add(d, Add(g, Xt(Add(d, a)))));
  }

  /** Replaces the four bytes at `j`. */
  method Put(x: array<bv8>, j: nat, w: Word)
    requires j + 4 <= x.Length
    modifies x
    ensures WordAt(x[..], j) == w && forall i :: 0 <= i < x.Length && !(j <= i < j + 4) ==> x[i] == old(x[i])
  {
    x[j], x[j + 1], x[j + 2], x[j + 3] := w.a, w.b, w.c, w.d;
  }

  lemma SameWord(s: seq<bv8>, t: seq<bv8>, i: nat)
    requires |s| == |t| && i + 4 <= |s| && forall k :: i <= k < i + 4 ==> s[k] == t[k]
    ensures WordAt(s, i) == WordAt(t, i)
  {}

  method MixAll(x: array<bv8>)
    requires x.Length == 16
    modifies x
    ensures BlockAt(x[..], 0) == MixColumns(BlockAt(old(x[..]), 0))
  {
    hide MixColumn, WordAt;
    ghost var was := x[..];
    var j := 0;
    while j < 16
      invariant 0 <= j <= 16 && j % 4 == 0
      invariant forall c: nat :: c < 4 && 4 * c < j ==> WordAt(x[..], 4 * c) == MixColumn(WordAt(was, 4 * c))
      invariant forall c: nat :: c < 4 && j <= 4 * c ==> WordAt(x[..], 4 * c) == WordAt(was, 4 * c)
    {
      ghost var before := x[..];
      var w := MixColumnAt(x, j);
      Put(x, j, w);
      forall c: nat | c < 4 && 4 * c != j
        ensures WordAt(x[..], 4 * c) == WordAt(before, 4 * c)
      {
        SameWord(before, x[..], 4 * c);
      }
      j := j + 4;
    }
    EachColumn(was, x[..]);
  }

  method MixColumnAt(x: array<bv8>, j: nat) returns (w: Word)
    requires j + 4 <= x.Length
    ensures w == MixColumn(WordAt(x[..], j))
  {
    hide MixColumn;
    w := MixBytes(x[j], x[j + 1], x[j + 2], x[j + 3]);
  }

  lemma EachColumn(s: seq<bv8>, t: seq<bv8>)
    requires |s| == |t| == 16 && forall c: nat :: c < 4 ==> WordAt(t, 4 * c) == MixColumn(WordAt(s, 4 * c))
    ensures BlockAt(t, 0) == MixColumns(BlockAt(s, 0))
  {
    hide MixColumn, WordAt;
    assert WordAt(t, 4 * 0) == MixColumn(WordAt(s, 0)) && WordAt(t, 4 * 1) == MixColumn(WordAt(s, 4));
    assert WordAt(t, 4 * 2) == MixColumn(WordAt(s, 8)) && WordAt(t, 4 * 3) == MixColumn(WordAt(s, 12));
  }

  method UnmixAll(x: array<bv8>)
    requires x.Length == 16
    modifies x
    ensures BlockAt(x[..], 0) == InvMixColumns(BlockAt(old(x[..]), 0))
  {
    hide InvMixColumn, WordAt;
    ghost var was := x[..];
    var j := 0;
    while j < 16
      invariant 0 <= j <= 16 && j % 4 == 0
      invariant forall c: nat :: c < 4 && 4 * c < j ==> WordAt(x[..], 4 * c) == InvMixColumn(WordAt(was, 4 * c))
      invariant forall c: nat :: c < 4 && j <= 4 * c ==> WordAt(x[..], 4 * c) == WordAt(was, 4 * c)
    {
      ghost var before := x[..];
      var w := UnmixColumnAt(x, j);
      Put(x, j, w);
      forall c: nat | c < 4 && 4 * c != j
        ensures WordAt(x[..], 4 * c) == WordAt(before, 4 * c)
      {
        SameWord(before, x[..], 4 * c);
      }
      j := j + 4;
    }
    EachColumnBack(was, x[..]);
  }

  method UnmixColumnAt(x: array<bv8>, j: nat) returns (w: Word)
    requires j + 4 <= x.Length
    ensures w == InvMixColumn(WordAt(x[..], j))
  {
    hide InvMixColumn;
    w := UnmixBytes(x[j], x[j + 1], x[j + 2], x[j + 3]);
  }

  lemma EachColumnBack(s: seq<bv8>, t: seq<bv8>)
    requires |s| == |t| == 16 && forall c: nat :: c < 4 ==> WordAt(t, 4 * c) == InvMixColumn(WordAt(s, 4 * c))
    ensures BlockAt(t, 0) == InvMixColumns(BlockAt(s, 0))
  {
    hide InvMixColumn, WordAt;
    assert WordAt(t, 4 * 0) == InvMixColumn(WordAt(s, 0)) && WordAt(t, 4 * 1) == InvMixColumn(WordAt(s, 4));
    assert WordAt(t, 4 * 2) == InvMixColumn(WordAt(s, 8)) && WordAt(t, 4 * 3) == InvMixColumn(WordAt(s, 12));
  }

  // ---------- The key schedule ----------

  /** Adds a word to the four bytes at `j`. */
  method AddWord(k: array<bv8>, j: nat, w: Word)
    requires k.Length == 32 && j + 4 <= 32
    modifies k
    ensures WordAt(k[..], j) == XorWords(WordAt(old(k[..]), j), w)
    ensures forall i: nat :: i <= 28 && (i + 4 <= j || j + 4 <= i) ==> WordAt(k[..], i) == WordAt(old(k[..]), i)
  {
    hide Add;
    ghost var was := k[..];
    Put(k, j, Word(Add(k[j], w.a), Add(k[j + 1], w.b), Add(k[j + 2], w.c), Add(k[j + 3], w.d)));
    forall i: nat | i <= 28 && (i + 4 <= j || j + 4 <= i)
      ensures WordAt(k[..], i) == WordAt(was, i)
    {
      SameWord(was, k[..], i);
    }
  }

  method ReadWord(k: array<bv8>, j: nat) returns (w: Word)
    requires j + 4 <= k.Length
    ensures w == WordAt(k[..], j)
  {
    w := Word(k[j], k[j + 1], k[j + 2], k[j + 3]);
  }

  /** Adds to each of the three words from `lo` on the new word before it. */
  method ChainUp(k: array<bv8>, lo: nat)
    requires k.Length == 32 && 4 <= lo <= 20
    modifies k
    ensures WordAt(k[..], lo) == XorWords(WordAt(old(k[..]), lo), WordAt(k[..], lo - 4))
    ensures WordAt(k[..], lo + 4) == XorWords(WordAt(old(k[..]), lo + 4), WordAt(k[..], lo))
    ensures WordAt(k[..], lo + 8) == XorWords(WordAt(old(k[..]), lo + 8), WordAt(k[..], lo + 4))
    ensures forall i: nat :: i <= 28 && (i + 4 <= lo || lo + 12 <= i) ==> WordAt(k[..], i) == WordAt(old(k[..]), i)
  {
    hide XorWords, WordAt;
    ghost var was := k[..];
    var j := lo;
    while j < lo + 12
      invariant lo <= j <= lo + 12 && (j - lo) % 4 == 0
      invariant j > lo ==> WordAt(k[..], lo) == XorWords(WordAt(was, lo), WordAt(k[..], lo - 4))
      invariant j > lo + 4 ==> WordAt(k[..], lo + 4) == XorWords(WordAt(was, lo + 4), WordAt(k[..], lo))
      invariant j > lo + 8 ==> WordAt(k[..], lo + 8) == XorWords(WordAt(was, lo + 8), WordAt(k[..], lo + 4))
      invariant forall i: nat :: i <= 28 && (i + 4 <= lo || j <= i) ==> WordAt(k[..], i) == WordAt(was, i)
    {
      var w := ReadWord(k, j - 4);
      AddWord(k, j, w);
      j := j + 4;
    }
  }

  /** Adds to each of the three words up to the one at `hi`, the last first, the old word before it. */
  method ChainDown(k: array<bv8>, hi: nat)
    requires k.Length == 32 && 12 <= hi <= 28
    modifies k
    ensures WordAt(k[..], hi) == XorWords(WordAt(old(k[..]), hi), WordAt(old(k[..]), hi - 4))
    ensures WordAt(k[..], hi - 4) == XorWords(WordAt(old(k[..]), hi - 4), WordAt(old(k[..]), hi - 8))
    ensures WordAt(k[..], hi - 8) == XorWords(WordAt(old(k[..]), hi - 8), WordAt(old(k[..]), hi - 12))
    ensures forall i: nat :: i <= 28 && (i <= hi - 12 || hi + 4 <= i) ==> WordAt(k[..], i) == WordAt(old(k[..]), i)
  {
    hide XorWords, WordAt;
    ghost var was := k[..];
    var j := hi;
    while j > hi - 12
      invariant hi - 12 <= j <= hi && (hi - j) % 4 == 0
      invariant j < hi ==> WordAt(k[..], hi) == XorWords(WordAt(was, hi), WordAt(was, hi - 4))
      invariant j < hi - 4 ==> WordAt(k[..], hi - 4) == XorWords(WordAt(was, hi - 4), WordAt(was, hi - 8))
      invariant j < hi - 8 ==> WordAt(k[..], hi - 8) == XorWords(WordAt(was, hi - 8), WordAt(was, hi - 12))
      invariant forall i: nat :: i <= 28 && (i <= j || hi + 4 <= i) ==> WordAt(k[..], i) == WordAt(was, i)
    {
      var w := ReadWord(k, j - 4);
      AddWord(k, j, w);
      j := j - 4;
    }
  }

  /** The eight words at the start of every four bytes. */
  lemma WindowIs(s: seq<bv8>)
    requires |s| == 32
    ensures WindowOf(s) == Window(Block(WordAt(s, 0), WordAt(s, 4), WordAt(s, 8), WordAt(s, 12)),
                                  Block(WordAt(s, 16), WordAt(s, 20), WordAt(s, 24), WordAt(s, 28)))
  {}

  lemma RoundConstantIn(u: Word, v: Word, r: bv8)
    ensures XorWords(u, Word(Add(v.a, r), v.b, v.c, v.d)) == XorWords(XorWords(u, v), Word(r, 0, 0, 0))
  {}

  /** Expands the window in place. */
  method ExpandKey(k: array<bv8>, r: bv8) returns (r': bv8)
    requires k.Length == 32
    modifies k
    ensures WindowOf(k[..]) == Expand(WindowOf(old(k[..])), r) && r' == Xt(r)
  {
    hide XorWords, Xt, Add, Sbox;
    ghost var was := k[..];
    WindowIs(was);
    RoundConstantIn(WordAt(was, 0), SubWord(RotWord(WordAt(was, 28))), r);
    AddWord(k, 0, Word(Add(Sbox(k[29]), r), Sbox(k[30]), Sbox(k[31]), Sbox(k[28])));
    r' := Xt(r);
    ChainUp(k, 4);
    AddWord(k, 16, Word(Sbox(k[12]), Sbox(k[13]), Sbox(k[14]), Sbox(k[15])));
    ChainUp(k, 20);
    WindowIs(k[..]);
  }

  /** Goes back to the window before, in place. */
  method UnexpandKey(k: array<bv8>, r: bv8) returns (r': bv8)
    requires k.Length == 32
    modifies k
    ensures WindowOf(k[..]) == Unexpand(WindowOf(old(k[..])), Halve(r)) && r' == Halve(r)
  {
    hide XorWords, Halve, Add, Sbox;
    ghost var was := k[..];
    WindowIs(was);
    ChainDown(k, 28);
    AddWord(k, 16, Word(Sbox(k[12]), Sbox(k[13]), Sbox(k[14]), Sbox(k[15])));
    ChainDown(k, 12);
    r' := Halve(r);
    RoundConstantIn(WordAt(was, 0), SubWord(RotWord(WordAt(k[..], 28))), r');
    AddWord(k, 0, Word(Add(Sbox(k[29]), r'), Sbox(k[30]), Sbox(k[31]), Sbox(k[28])));
    WindowIs(k[..]);
  }

  // ---------- One block ----------

  method Copied(bytes: seq<bv8>) returns (a: array<bv8>)
    ensures fresh(a) && a[..] == bytes
  {
    a := new bv8[|bytes|](i requires 0 <= i < |bytes| => bytes[i]);
  }

  method CopyTo(from: array<bv8>, to: array<bv8>)
    requires from.Length == to.Length && from != to
    modifies to
    ensures to[..] == from[..]
  {
    forall i | 0 <= i < to.Length { to[i] := from[i]; }
  }

  lemma HalfWindow(s: seq<bv8>, key: Window, i: nat)
    requires |s| == 32 && WindowOf(s) == Schedule(key, i / 2)
    ensures BlockAt(s, 16 * (i % 2)) == RoundKey(key, i)
  {
    hide BlockAt, Schedule;
  }

  /** `_BRAES256ECBEncrypt` */
  method Encrypt(key32: seq<bv8>, buf16: array<bv8>)
    requires |key32| == 32 && buf16.Length == 16
    modifies buf16
    ensures BlockAt(buf16[..], 0) == Encrypted(WindowOf(key32), BlockAt(old(buf16[..]), 0))
  {
    hide BlockAt, WindowOf, AddRoundKey, SubBytes, ShiftRows, MixColumns, Expand, Xt;
    ghost var key, block := WindowOf(key32), BlockAt(buf16[..], 0);
    var k := Copied(key32);
    var x := Copied(buf16[..]);
    var r: bv8 := 1;
    for i := 0 to ROUNDS
      invariant BlockAt(x[..], 0) == Encrypting(key, block, i)
      invariant WindowOf(k[..]) == Schedule(key, i / 2) && r == Rcon(i / 2)
    {
      HalfWindow(k[..], key, i);
      AddKey(x, k, i % 2);
      SubstituteBytes(x);
      RotateRows(x);
      if i < 13 { MixAll(x); }
      if i % 2 != 0 { r := ExpandKey(k, r); }
    }
    HalfWindow(k[..], key, ROUNDS);
    AddKey(x, k, 0);
    CopyTo(x, buf16);
  }

  method ExpandFully(k: array<bv8>) returns (r: bv8)
    requires k.Length == 32
    modifies k
    ensures WindowOf(k[..]) == Schedule(WindowOf(old(k[..])), 7) && r == Rcon(7)
  {
    hide WindowOf, Expand, Xt;
    ghost var key := WindowOf(k[..]);
    r := 1;
    for i := 0 to 7
      invariant WindowOf(k[..]) == Schedule(key, i) && r == Rcon(i)
    {
      r := ExpandKey(k, r);
    }
  }

  method DecryptRound(x: array<bv8>, k: array<bv8>, i: nat)
    requires x.Length == 16 && k.Length == 32 && x != k
    modifies x
    ensures BlockAt(x[..], 0) == InvRound(BlockAt(old(x[..]), 0), BlockAt(k[..], 16 * (i % 2)), i == 0)
  {
    hide BlockAt, AddRoundKey, InvSubBytes, InvShiftRows, InvMixColumns;
    AddKey(x, k, i % 2);
    if i > 0 { UnmixAll(x); }
    UnrotateRows(x);
    UnsubstituteBytes(x);
  }

  method KeyBack(k: array<bv8>, r: bv8, ghost key: Window, ghost n: nat) returns (r': bv8)
    requires k.Length == 32 && n > 0 && WindowOf(k[..]) == Schedule(key, n) && r == Rcon(n)
    modifies k
    ensures WindowOf(k[..]) == Schedule(key, n - 1) && r' == Rcon(n - 1)
  {
    hide WindowOf, Expand, Unexpand, Xt, Halve;
    ScheduleBack(key, n);
    r' := UnexpandKey(k, r);
  }

  /** `_BRAES256ECBDecrypt` */
  method Decrypt(key32: seq<bv8>, buf16: array<bv8>)
    requires |key32| == 32 && buf16.Length == 16
    modifies buf16
    ensures BlockAt(buf16[..], 0) == Decrypted(WindowOf(key32), BlockAt(old(buf16[..]), 0))
  {
    hide BlockAt, WindowOf, AddRoundKey, InvRound, Schedule, Rcon, RoundKey;
    ghost var key, block := WindowOf(key32), BlockAt(buf16[..], 0);
    var k := Copied(key32);
    var x := Copied(buf16[..]);
    var r := ExpandFully(k);
    for i := 0 to ROUNDS
      invariant BlockAt(x[..], 0) == Decrypting(key, block, i)
      invariant WindowOf(k[..]) == Schedule(key, 7 - (i + 1) / 2) && r == Rcon(7 - (i + 1) / 2)
    {
      HalfWindow(k[..], key, ROUNDS - i);
      DecryptRound(x, k, i);
      if i % 2 == 0 { r := KeyBack(k, r, key, 7 - i / 2); }
    }
    HalfWindow(k[..], key, 0);
    AddKey(x, k, 0);
    CopyTo(x, buf16);
  }

  /** A block as sixteen bytes. */
  function BytesOf(b: Block): (s: seq<bv8>)
    ensures |s| == 16 && BlockAt(s, 0) == b
  {
    [b.w0.a, b.w0.b, b.w0.c, b.w0.d, b.w1.a, b.w1.b, b.w1.c, b.w1.d,
     b.w2.a, b.w2.b, b.w2.c, b.w2.d, b.w3.a, b.w3.b, b.w3.c, b.w3.d]
  }

  lemma BytesOfBlock(s: seq<bv8>)
    requires |s| == 16
    ensures BytesOf(BlockAt(s, 0)) == s
  {}

  function EncryptedBytes(key32: seq<bv8>, bytes: seq<bv8>): (e: seq<bv8>)
    requires |key32| == 32 && |bytes| == 16
    ensures |e| == 16
  {
    BytesOf(Encrypted(WindowOf(key32), BlockAt(bytes, 0)))
  }

  function DecryptedBytes(key32: seq<bv8>, bytes: seq<bv8>): (d: seq<bv8>)
    requires |key32| == 32 && |bytes| == 16
    ensures |d| == 16
  {
    BytesOf(Decrypted(WindowOf(key32), BlockAt(bytes, 0)))
  }

  lemma BytesRoundTrip(key32: seq<bv8>, bytes: seq<bv8>)
    requires |key32| == 32 && |bytes| == 16
    ensures DecryptedBytes(key32, EncryptedBytes(key32, bytes)) == bytes
  {
    hide Encrypted, Decrypted, WindowOf, BlockAt, BytesOf;
    DecryptEncrypt(WindowOf(key32), BlockAt(bytes, 0));
    BytesOfBlock(bytes);
  }
}
