/** The walks over a received partial Merkle tree (BRMerkleBlock.c). */
module MerkleBlock {
  import opened Bits
  import opened MerkleTree
  import opened Sequences

  const SIZE_MAX: nat := 0xffff_ffff_ffff_ffff

  /** The fields of a merkleblock message that the walks read. */
  datatype Block = Block(totalTx: nat, hashes: seq<UInt256>, flags: seq<bv8>) {
    /** `totalTx` is converted to a C int, and the counts are sizes of buffers in memory. */
    predicate Valid() {
      totalTx < 0x8000_0000 && |hashes| < SIZE_MAX && |flags| < SIZE_MAX / 8
    }

    predicate Flag(i: nat)
      requires i / 8 < |flags|
    {
      BitOf(flags[i / 8], i % 8)
    }
  }

  // ---------- Tree height ----------

  function FloorLog2(x: nat): (r: nat)
    requires x > 0
    ensures Pow2(r) <= x < Pow2(r + 1)
  {
    if x == 1 then 0 else 1 + FloorLog2(x / 2)
  }

  function CeilLog2(x: nat): nat
    requires x > 0
  {
    FloorLog2(x) + if BitAnd(x, x - 1) != 0 then 1 else 0
  }

  lemma {:induction false} AndSelf(x: nat)
    ensures BitAnd(x, x) == x
  {
    if x > 0 {
      AndSelf(x / 2);
    }
  }

  /** x & (x - 1) is zero exactly for powers of two. */
  lemma {:induction false} AndPredecessor(x: nat)
    requires x > 0
    ensures BitAnd(x, x - 1) == 0 <==> x == Pow2(FloorLog2(x))
  {
    if x > 1 {
      var half := x / 2;
      if x % 2 == 0 {
        AndPredecessor(half);
        assert x == 2 * half && (x - 1) / 2 == half - 1;
        assert BitAnd(x, x - 1) == 2 * BitAnd(half, half - 1);
      } else {
        AndSelf(half);
        assert x == 2 * half + 1 && (x - 1) / 2 == half;
        assert BitAnd(x, x - 1) == 2 * BitAnd(half, half);
      }
    }
  }

  lemma {:induction false} Pow2Monotone(a: nat, b: nat)
    requires a <= b
    ensures Pow2(a) <= Pow2(b)
    decreases b
  {
    if a < b {
      Pow2Monotone(a, b - 1);
    }
  }

  /** `Height` is the least exponent whose power of two reaches `n`. */
  lemma {:induction false} HeightIsLeast(n: nat, r: nat)
    requires n > 0
    ensures r >= Height(n) <==> Pow2(r) >= n
  {
    if n > 1 && r > 0 {
      HeightIsLeast((n + 1) / 2, r - 1);
    }
  }

  /** The number `_ceil_log2` computes is the height of the Merkle tree. */
  lemma {:induction false} CeilLog2IsHeight(n: nat)
    requires n > 0
    ensures CeilLog2(n) == Height(n)
  {
    var f, c := FloorLog2(n), CeilLog2(n);
    AndPredecessor(n);
    HeightIsLeast(n, c);
    if c > 0 {
      Pow2Monotone(c - 1, f);
      HeightIsLeast(n, c - 1);
    }
  }

  method ComputeCeilLog2(n: nat) returns (r: nat)
    requires n < 0x8000_0000
    ensures r == Height(n)
  {
    var x := n;
    r := if x > 0 && BitAnd(x, x - 1) != 0 then 1 else 0;
    ghost var carry := r;
    while x / 2 != 0
      invariant n > 0 ==> x > 0 && r + FloorLog2(x) == carry + FloorLog2(n)
      invariant n == 0 ==> x == 0 && r == 0
    {
      x := x / 2;
      r := r + 1;
    }
    if n > 0 {
      CeilLog2IsHeight(n);
    }
  }

  // ---------- The two walks, as functions of the cursor ----------

  datatype Position = Position(hashIdx: nat, flagIdx: nat) {
    /** The cursor past the flag of the node at the cursor. */
    function Down(): Position {
      Position(hashIdx, flagIdx + 1)
    }
  }

  datatype RootResult = RootResult(md: UInt256, next: Position)

  predicate Exhausted(b: Block, p: Position) {
    p.flagIdx / 8 >= |b.flags| || p.hashIdx >= |b.hashes|
  }

  /** The walk at this cursor goes on to the children. */
  predicate Descends(b: Block, levels: nat, p: Position) {
    !Exhausted(b, p) && b.Flag(p.flagIdx) && levels > 0
  }

  function RootWalk(H: Hasher, b: Block, levels: nat, p: Position): RootResult {
    if Exhausted(b, p) then RootResult(0, p)
    else if Descends(b, levels, p) then
      var l := RootWalk(H, b, levels - 1, p.Down());
      var r := RootWalk(H, b, levels - 1, l.next);
      if l.md != 0 && l.md != r.md then
        RootResult(H(l.md, if r.md == 0 then l.md else r.md), r.next)
      else
        RootResult(0, r.next.(hashIdx := SIZE_MAX))
    else RootResult(b.hashes[p.hashIdx], Position(p.hashIdx + 1, p.flagIdx + 1))
  }

  /** Where the transaction walk leaves the cursor. */
  function TxNext(b: Block, levels: nat, p: Position): Position {
    if Exhausted(b, p) then p
    else if Descends(b, levels, p) then
      TxNext(b, levels - 1, TxNext(b, levels - 1, p.Down()))
    else Position(p.hashIdx + 1, p.flagIdx + 1)
  }

  /** The transactions the transaction walk finds. */
  function TxWalk(b: Block, levels: nat, p: Position): seq<UInt256> {
    if Exhausted(b, p) then []
    else if Descends(b, levels, p) then
      var l := p.Down();
      TxWalk(b, levels - 1, l) + TxWalk(b, levels - 1, TxNext(b, levels - 1, l))
    else if b.Flag(p.flagIdx) then [b.hashes[p.hashIdx]]
    else []
  }

  const START := Position(0, 0)

  /** The transactions the walk over the whole block finds. */
  function Found(b: Block): seq<UInt256> {
    TxWalk(b, Height(b.totalTx), START)
  }

  /** The Merkle root check of a received block. */
  predicate AcceptsRoot(H: Hasher, b: Block, merkleRoot: UInt256) {
    b.totalTx > 0 ==> RootWalk(H, b, Height(b.totalTx), START).md == merkleRoot
  }

  function First(txs: seq<UInt256>, n: nat): seq<UInt256> {
    if |txs| <= n then txs else txs[..n]
  }

  // ---------- The code ----------

  /** The counters that the recursive walks advance through pointers. */
  class Cursor {
    var idx: nat
    var hashIdx: nat
    var flagIdx: nat

    constructor ()
      ensures idx == 0 && At() == START
    {
      idx, hashIdx, flagIdx := 0, 0, 0;
    }

    function At(): Position
      reads this
    {
      Position(hashIdx, flagIdx)
    }
  }

  method RootR(H: Hasher, b: Block, c: Cursor, depth: nat) returns (md: UInt256)
    requires b.Valid() && depth <= Height(b.totalTx)
    modifies c
    ensures c.idx == old(c.idx)
    ensures RootResult(md, c.At()) == RootWalk(H, b, Height(b.totalTx) - depth, old(c.At()))
    decreases Height(b.totalTx) - depth
  {
    md := 0;
    if c.flagIdx / 8 < |b.flags| && c.hashIdx < |b.hashes| {
      var flag := b.Flag(c.flagIdx);
      c.flagIdx := c.flagIdx + 1;
      var height := ComputeCeilLog2(b.totalTx);
      if flag && depth != height {
        ghost var levels := height - depth;
        ghost var l := RootWalk(H, b, levels - 1, c.At());
        ghost var r := RootWalk(H, b, levels - 1, l.next);
        assert RootWalk(H, b, levels, old(c.At())) ==
               if l.md != 0 && l.md != r.md then RootResult(H(l.md, if r.md == 0 then l.md else r.md), r.next)
               else RootResult(0, r.next.(hashIdx := SIZE_MAX));
        hide RootWalk, Height;
        var left := RootR(H, b, c, depth + 1);
        var right := RootR(H, b, c, depth + 1);
        if left != 0 && left != right {
          if right == 0 {
            right := left;
          }
          md := H(left, right);
        } else {
          c.hashIdx := SIZE_MAX;
        }
      } else {
        md := b.hashes[c.hashIdx];
        c.hashIdx := c.hashIdx + 1;
      }
    }
  }

  /** A walk that finds `txs` counts the ones that fit and writes them from `idx` on. */
  ghost predicate Wrote(before: seq<UInt256>, after: seq<UInt256>, idx: nat, idx': nat, txs: seq<UInt256>, count: nat) {
    && idx <= idx' <= count <= |before| == |after|
    && after[..idx'] == before[..idx] + First(txs, count - idx)
  }

  ghost predicate Counted(idx: nat, idx': nat, txs: seq<UInt256>, count: nat) {
    idx <= idx' <= count && idx' == idx + |First(txs, count - idx)|
  }

  lemma CountedBoth(i0: nat, i1: nat, i2: nat, a: seq<UInt256>, b: seq<UInt256>, count: nat)
    requires Counted(i0, i1, a, count) && Counted(i1, i2, b, count)
    ensures Counted(i0, i2, a + b, count)
  {}

  lemma WroteBoth(s0: seq<UInt256>, s1: seq<UInt256>, s2: seq<UInt256>, i0: nat, i1: nat, i2: nat,
                  a: seq<UInt256>, b: seq<UInt256>, count: nat)
    requires Wrote(s0, s1, i0, i1, a, count) && Wrote(s1, s2, i1, i2, b, count)
    ensures Wrote(s0, s2, i0, i2, a + b, count)
  {}

  /** The array is null when the caller only wants the number of matches. */
  method TxHashesR(b: Block, txHashes: array?<UInt256>, hashesCount: nat, c: Cursor, depth: nat)
    requires b.Valid() && depth <= Height(b.totalTx)
    requires txHashes != null ==> hashesCount <= txHashes.Length
    requires c.idx <= hashesCount
    modifies c, txHashes
    ensures c.At() == TxNext(b, Height(b.totalTx) - depth, old(c.At()))
    ensures var txs := TxWalk(b, Height(b.totalTx) - depth, old(c.At()));
      && Counted(old(c.idx), c.idx, txs, hashesCount)
      && (txHashes != null ==> Wrote(old(txHashes[..]), txHashes[..], old(c.idx), c.idx, txs, hashesCount))
    decreases Height(b.totalTx) - depth
  {
    ghost var levels, i0 := Height(b.totalTx) - depth, c.idx;
    if c.flagIdx / 8 < |b.flags| && c.hashIdx < |b.hashes| {
      var flag := b.Flag(c.flagIdx);
      c.flagIdx := c.flagIdx + 1;
      var height := ComputeCeilLog2(b.totalTx);
      if !flag || depth == height {
        if flag && c.idx < hashesCount {
          if txHashes != null {
            txHashes[c.idx] := b.hashes[c.hashIdx];
          }
          c.idx := c.idx + 1;
        }
        c.hashIdx := c.hashIdx + 1;
      } else {
        ghost var l := c.At();
        ghost var r := TxNext(b, levels - 1, l);
        ghost var ltxs, rtxs := TxWalk(b, levels - 1, l), TxWalk(b, levels - 1, r);
        assert TxWalk(b, levels, old(c.At())) == ltxs + rtxs;
        assert TxNext(b, levels, old(c.At())) == TxNext(b, levels - 1, r);
        hide TxWalk, TxNext, Counted, Wrote, Height, First;
        TxHashesR(b, txHashes, hashesCount, c, depth + 1);
        label Left:
        ghost var i1 := c.idx;
        TxHashesR(b, txHashes, hashesCount, c, depth + 1);
        CountedBoth(i0, i1, c.idx, ltxs, rtxs, hashesCount);
        if txHashes != null {
          WroteBoth(old(txHashes[..]), old@Left(txHashes[..]), txHashes[..], i0, i1, c.idx, ltxs, rtxs, hashesCount);
        }
      }
    }
  }

  /** Every transaction found uses up one of the hashes. */
  lemma {:induction false} TxWalkUsesHashes(b: Block, levels: nat, p: Position)
    ensures p.hashIdx + |TxWalk(b, levels, p)| <= TxNext(b, levels, p).hashIdx
    ensures p.hashIdx <= |b.hashes| ==> TxNext(b, levels, p).hashIdx <= |b.hashes|
  {
    if Descends(b, levels, p) {
      TxWalkUsesHashes(b, levels - 1, p.Down());
      TxWalkUsesHashes(b, levels - 1, TxNext(b, levels - 1, p.Down()));
    }
  }

  method TxHashes(b: Block, txHashes: array?<UInt256>, hashesCount: nat) returns (n: nat)
    requires b.Valid()
    requires txHashes != null ==> hashesCount <= txHashes.Length
    modifies txHashes
    ensures txHashes == null ==> n == |Found(b)|
    ensures txHashes != null ==> n <= hashesCount && txHashes[..n] == First(Found(b), hashesCount)
  {
    TxWalkUsesHashes(b, Height(b.totalTx), START);
    hide TxWalk, TxNext;
    var c := new Cursor();
    TxHashesR(b, txHashes, if txHashes != null then hashesCount else SIZE_MAX, c, 0);
    n := c.idx;
  }

  /** The Merkle root check of BRMerkleBlockIsValid. */
  method RootIsValid(H: Hasher, b: Block, merkleRoot: UInt256) returns (valid: bool)
    requires b.Valid()
    ensures valid <==> AcceptsRoot(H, b, merkleRoot)
  {
    var c := new Cursor();
    var md := RootR(H, b, c, 0);
    valid := !(b.totalTx > 0 && md != merkleRoot);
  }

  // ---------- Completeness ----------

  /** The block a full node sends for a list of transactions and the ones that match the filter. */
  function Encode(H: Hasher, txs: seq<UInt256>, matches: seq<bool>): Block
    requires |txs| == |matches| > 0
  {
    var t := BlockTree(txs, matches);
    Block(|txs|, EncodeHashes(H, t), PackFlags(EncodeFlags(t)))
  }

  function AllFlags(b: Block): (flags: seq<bool>)
    ensures |flags| == 8 * |b.flags|
    ensures forall i :: 0 <= i < |flags| ==> flags[i] == b.Flag(i)
  {
    seq(8 * |b.flags|, i requires 0 <= i < 8 * |b.flags| => b.Flag(i))
  }

  /** The flags and hashes of `t` are the ones at the cursor. */
  ghost predicate EncodedAt(H: Hasher, b: Block, t: Tree, p: Position) {
    At(b.hashes, p.hashIdx, EncodeHashes(H, t)) && At(AllFlags(b), p.flagIdx, EncodeFlags(t))
  }

  /** The cursor past the encoding of `t`. */
  ghost function After(H: Hasher, t: Tree, p: Position): Position {
    Position(p.hashIdx + |EncodeHashes(H, t)|, p.flagIdx + |EncodeFlags(t)|)
  }

  /** Both walks over `t` consume exactly its encoding and return its hash and its matched transactions. */
  ghost predicate Walked(H: Hasher, b: Block, t: Tree, levels: nat, p: Position) {
    && RootWalk(H, b, levels, p) == RootResult(Hash(H, t), After(H, t, p))
    && TxNext(b, levels, p) == After(H, t, p)
    && TxWalk(b, levels, p) == MatchedTxs(t)
  }

  /** The walks have a flag and a hash left at every node of `t` they visit, and none left at a missing right branch. */
  ghost predicate EndsAtMissing(H: Hasher, b: Block, t: Tree, p: Position) {
    && !Exhausted(b, p)
    && (!t.Leaf? && Matched(t) ==>
         var next := After(H, t.left, p.Down());
         && EndsAtMissing(H, b, t.left, p.Down())
         && if t.Pair? then EndsAtMissing(H, b, t.right, next) else Exhausted(b, next))
  }

  lemma WalkedInner(H: Hasher, b: Block, t: Tree, levels: nat, p: Position)
    requires !t.Leaf? && Matched(t) && Distinct(H, t) && levels > 0
    requires !Exhausted(b, p) && b.Flag(p.flagIdx)
    requires Walked(H, b, t.left, levels - 1, p.Down())
    requires var next := After(H, t.left, p.Down());
      if t.Pair? then Walked(H, b, t.right, levels - 1, next) else Exhausted(b, next)
    ensures Walked(H, b, t, levels, p)
  {}

  lemma WalkedOuter(H: Hasher, b: Block, t: Tree, levels: nat, p: Position)
    requires Uniform(t, levels) && (t.Leaf? || !Matched(t))
    requires !Exhausted(b, p) && b.Flag(p.flagIdx) == Matched(t) && b.hashes[p.hashIdx] == Hash(H, t)
    ensures Walked(H, b, t, levels, p)
  {
    if !t.Leaf? {
      UnmatchedHasNoTxs(t);
    }
  }

  /** Both walks consume the encoding; a missing right branch is met exactly when no hashes are left. */
  lemma {:induction false} WalkEncoded(H: Hasher, b: Block, t: Tree, levels: nat, p: Position)
    requires Uniform(t, levels) && Distinct(H, t) && EncodedAt(H, b, t, p)
    requires Full(t) || (RightEdge(t) && p.hashIdx + |EncodeHashes(H, t)| == |b.hashes|)
    ensures Walked(H, b, t, levels, p) && EndsAtMissing(H, b, t, p)
    decreases t
  {
    hide RootWalk, TxWalk, TxNext;
    EncodedHere(H, b, t, p);
    if t.Leaf? || !Matched(t) {
      WalkedOuter(H, b, t, levels, p);
    } else {
      var l := t.left;
      EncodedChildren(H, b, t, p);
      WalkEncoded(H, b, l, levels - 1, p.Down());
      if t.Pair? {
        WalkEncoded(H, b, t.right, levels - 1, After(H, l, p.Down()));
      }
      WalkedInner(H, b, t, levels, p);
    }
  }

  lemma EncodedHere(H: Hasher, b: Block, t: Tree, p: Position)
    requires EncodedAt(H, b, t, p)
    ensures !Exhausted(b, p) && b.Flag(p.flagIdx) == Matched(t)
    ensures t.Leaf? || !Matched(t) ==> b.hashes[p.hashIdx] == Hash(H, t)
  {
    var hs, fs := EncodeHashes(H, t), EncodeFlags(t);
    assert b.hashes[p.hashIdx..p.hashIdx + |hs|][0] == b.hashes[p.hashIdx];
    assert AllFlags(b)[p.flagIdx..p.flagIdx + |fs|][0] == AllFlags(b)[p.flagIdx];
  }

  lemma UnmatchedHasNoTxs(t: Tree)
    requires !Matched(t)
    ensures MatchedTxs(t) == []
  {}

  lemma EncodedPair(H: Hasher, t: Tree)
    requires t.Pair? && Matched(t)
    ensures EncodeHashes(H, t) == EncodeHashes(H, t.left) + EncodeHashes(H, t.right)
    ensures EncodeFlags(t) == [true] + (EncodeFlags(t.left) + EncodeFlags(t.right))
  {}

  lemma EncodedLone(H: Hasher, t: Tree)
    requires t.Lone? && Matched(t)
    ensures EncodeHashes(H, t) == EncodeHashes(H, t.left)
    ensures EncodeFlags(t) == [true] + EncodeFlags(t.left)
  {}

  lemma EncodingSplit(hashes: seq<UInt256>, flags: seq<bool>, hashIdx: nat, flagIdx: nat,
                      hl: seq<UInt256>, hr: seq<UInt256>, fl: seq<bool>, fr: seq<bool>)
    requires At(hashes, hashIdx, hl + hr) && At(flags, flagIdx, [true] + (fl + fr))
    ensures At(hashes, hashIdx, hl) && At(hashes, hashIdx + |hl|, hr)
    ensures At(flags, flagIdx + 1, fl) && At(flags, flagIdx + 1 + |fl|, fr)
  {
    hide At;
    AtSplit(hashes, hashIdx, hl, hr);
    AtSplit(flags, flagIdx, [true], fl + fr);
    AtSplit(flags, flagIdx + 1, fl, fr);
  }

  /** The encoding of an inner node holds those of its children, one after the other. */
  lemma EncodedChildren(H: Hasher, b: Block, t: Tree, p: Position)
    requires !t.Leaf? && Matched(t) && EncodedAt(H, b, t, p)
    ensures EncodedAt(H, b, t.left, p.Down())
    ensures t.Pair? ==>
      && EncodedAt(H, b, t.right, After(H, t.left, p.Down()))
      && |EncodeHashes(H, t)| == |EncodeHashes(H, t.left)| + |EncodeHashes(H, t.right)|
    ensures t.Lone? ==> |EncodeHashes(H, t)| == |EncodeHashes(H, t.left)|
  {
    hide At, AllFlags, EncodeHashes, EncodeFlags, Matched;
    var hl, fl := EncodeHashes(H, t.left), EncodeFlags(t.left);
    if t.Pair? {
      EncodedPair(H, t);
      EncodingSplit(b.hashes, AllFlags(b), p.hashIdx, p.flagIdx, hl, EncodeHashes(H, t.right), fl, EncodeFlags(t.right));
    } else {
      EncodedLone(H, t);
      AtSplit(AllFlags(b), p.flagIdx, [true], fl);
    }
  }

  /** No more hashes than leaves, and at most one flag per leaf and row. */
  lemma {:induction false} EncodingLength(H: Hasher, t: Tree, depth: nat)
    requires Uniform(t, depth)
    ensures 0 < |EncodeHashes(H, t)| <= |Leaves(t)| && |EncodeFlags(t)| <= |Leaves(t)| * (depth + 1)
  {
    if !t.Leaf? && Matched(t) {
      EncodingLength(H, t.left, depth - 1);
      if t.Pair? {
        EncodingLength(H, t.right, depth - 1);
        assert |Leaves(t)| * depth == |Leaves(t.left)| * depth + |Leaves(t.right)| * depth;
      }
    } else {
      LeavesNonempty(t);
    }
    assert |Leaves(t)| * (depth + 1) == |Leaves(t)| * depth + |Leaves(t)|;
  }

  lemma {:induction false} LeavesNonempty(t: Tree)
    ensures Leaves(t) != []
  {
    if !t.Leaf? {
      LeavesNonempty(t.left);
    }
  }

  lemma HeightSmall(n: nat)
    requires 0 < n < 0x8000_0000
    ensures Height(n) <= 31
  {
    assert Pow2(8) == 0x100;
    assert Pow2(16) == 0x1_0000;
    assert Pow2(24) == 0x100_0000;
    assert Pow2(31) == 0x8000_0000;
    HeightIsLeast(n, 31);
  }

  /** The flags a block carries are the ones that were packed. */
  lemma PackedFlags(b: Block, flags: seq<bool>)
    requires b.flags == PackFlags(flags)
    ensures At(AllFlags(b), 0, flags)
  {
    forall i | 0 <= i < |flags|
      ensures AllFlags(b)[i] == flags[i]
    {
      PackFlagsBit(flags, i);
    }
  }

  lemma Times32(n: nat, k: nat)
    requires k <= 32
    ensures n * k <= n * 32
  {}

  /** What a full node sends for fewer than 2^31 transactions fits the sizes the program reckons with. */
  lemma EncodeValid(H: Hasher, txs: seq<UInt256>, matches: seq<bool>)
    requires 0 < |txs| == |matches| < 0x8000_0000
    ensures Encode(H, txs, matches).Valid()
  {
    hide BlockTree, EncodeHashes, EncodeFlags, Leaves, Height;
    BlockTreeFacts(H, txs, matches);
    EncodingLength(H, BlockTree(txs, matches), Height(|txs|));
    HeightSmall(|txs|);
    Times32(|txs|, Height(|txs|) + 1);
  }

  /**
   Completeness: on the encoding of a block, the root check accepts the block's Merkle root and no other, the walk having
   used all hashes without ever taking the defence branch, and the transactions found are the matched ones in block
   order. The hashes run out exactly at the missing right branches.
  */
  lemma {:induction false} Completeness(H: Hasher, txs: seq<UInt256>, matches: seq<bool>, merkleRoot: UInt256)
    requires |txs| == |matches| > 0 && Distinct(H, BlockTree(txs, matches))
    ensures var b := Encode(H, txs, matches);
      && (|txs| < 0x8000_0000 ==> b.Valid())
      && (AcceptsRoot(H, b, merkleRoot) <==> merkleRoot == MerkleRoot(H, txs))
      && RootWalk(H, b, Height(|txs|), START).next.hashIdx == |b.hashes|
      && Found(b) == Select(txs, matches)
    ensures EndsAtMissing(H, Encode(H, txs, matches), BlockTree(txs, matches), START)
  {
    var t, b := BlockTree(txs, matches), Encode(H, txs, matches);
    BlockTreeFacts(H, txs, matches);
    PackedFlags(b, EncodeFlags(t));
    WalkEncoded(H, b, t, Height(|txs|), START);
    if |txs| < 0x8000_0000 { EncodeValid(H, txs, matches); }
  }

  // ---------- Soundness ----------

  /** No other pair of hashes collides with the children of an inner node of the genuine tree. */
  ghost predicate Unforgeable(H: Hasher, t: Tree) {
    match t
    case Leaf(_, _) => true
    case Pair(l, r) =>
      && (forall x, y :: H(x, y) == H(Hash(H, l), Hash(H, r)) ==> x == Hash(H, l) && y == Hash(H, r))
      && Unforgeable(H, l) && Unforgeable(H, r)
    case Lone(l) =>
      && (forall x, y :: H(x, y) == H(Hash(H, l), Hash(H, l)) ==> x == y == Hash(H, l))
      && Unforgeable(H, l)
  }

  /** `xs` can be obtained from `ys` by deleting elements. */
  predicate Subsequence(xs: seq<UInt256>, ys: seq<UInt256>) {
    xs == [] || (ys != [] && (if xs[0] == ys[0] then Subsequence(xs[1..], ys[1..]) else Subsequence(xs, ys[1..])))
  }

  lemma {:induction false} SubsequenceExtend(xs: seq<UInt256>, ys: seq<UInt256>, y: UInt256)
    requires Subsequence(xs, ys)
    ensures Subsequence(xs, [y] + ys)
    decreases ys, 1
  {
    assert ([y] + ys)[1..] == ys;
    if xs != [] && xs[0] == y {
      SubsequenceTail(xs, ys);
    }
  }

  lemma {:induction false} SubsequenceTail(xs: seq<UInt256>, ys: seq<UInt256>)
    requires xs != [] && Subsequence(xs, ys)
    ensures Subsequence(xs[1..], ys)
    decreases ys, 0
  {
    if xs[0] != ys[0] {
      SubsequenceTail(xs, ys[1..]);
    }
    assert [ys[0]] + ys[1..] == ys;
    SubsequenceExtend(xs[1..], ys[1..], ys[0]);
  }

  lemma {:induction false} SubsequenceConcat(xs: seq<UInt256>, ys: seq<UInt256>, us: seq<UInt256>, vs: seq<UInt256>)
    requires Subsequence(xs, ys) && Subsequence(us, vs)
    ensures Subsequence(xs + us, ys + vs)
    decreases ys
  {
    if ys == [] {
      assert xs + us == us && ys + vs == vs;
    } else {
      assert (ys + vs)[1..] == ys[1..] + vs;
      assert [ys[0]] + (ys[1..] + vs) == ys + vs;
      if xs != [] && xs[0] == ys[0] {
        SubsequenceConcat(xs[1..], ys[1..], us, vs);
        assert (xs + us)[1..] == xs[1..] + us;
      } else {
        SubsequenceConcat(xs, ys[1..], us, vs);
        SubsequenceExtend(xs + us, ys[1..] + vs, ys[0]);
      }
    }
  }

  /** Once the defence branch has moved the hash cursor past the end, nothing moves it back. */
  lemma {:induction false} DefenceIsFinal(H: Hasher, b: Block, levels: nat, p: Position)
    ensures |b.hashes| < p.hashIdx ==> RootWalk(H, b, levels, p) == RootResult(0, p)
  {}

  /** Unless the defence branch is taken, the two walks move their cursors identically. */
  lemma {:induction false} CursorsAgree(H: Hasher, b: Block, levels: nat, p: Position)
    requires b.Valid() && RootWalk(H, b, levels, p).next.hashIdx <= |b.hashes|
    ensures RootWalk(H, b, levels, p).next == TxNext(b, levels, p)
  {
    if Descends(b, levels, p) {
      var l := RootWalk(H, b, levels - 1, p.Down());
      DefenceIsFinal(H, b, levels - 1, l.next);
      CursorsAgree(H, b, levels - 1, p.Down());
      CursorsAgree(H, b, levels - 1, l.next);
    }
  }

  ghost predicate NeverZero(H: Hasher) {
    forall x, y :: H(x, y) != 0
  }

  ghost predicate HashesNonzero(b: Block) {
    forall i :: 0 <= i < |b.hashes| ==> b.hashes[i] != 0
  }

  /** A branch that evaluates to zero without the defence branch is one that was never sent. */
  lemma {:induction false} ZeroIsMissing(H: Hasher, b: Block, levels: nat, p: Position)
    requires b.Valid() && NeverZero(H) && HashesNonzero(b)
    requires var root := RootWalk(H, b, levels, p); root.md == 0 && root.next.hashIdx <= |b.hashes|
    ensures TxWalk(b, levels, p) == []
  {
    assert Exhausted(b, p);
  }

  ghost predicate Genuine(H: Hasher, t: Tree, depth: nat) {
    Uniform(t, depth) && Distinct(H, t) && Unforgeable(H, t)
  }

  /** The two branches of a node that the root walk reproduced, wherever the walk ended. */
  lemma ReproducedInner(H: Hasher, b: Block, t: Tree, levels: nat, p: Position)
    requires Genuine(H, t, levels) && Descends(b, levels, p) && RootWalk(H, b, levels, p).md == Hash(H, t)
    ensures levels > 0 && !t.Leaf?
    ensures var l := RootWalk(H, b, levels - 1, p.Down());
      var r := RootWalk(H, b, levels - 1, l.next);
      && l.md == Hash(H, t.left) && r.md == (if t.Pair? then Hash(H, t.right) else 0)
      && RootWalk(H, b, levels, p).next == r.next
    ensures Genuine(H, t.left, levels - 1) && (t.Pair? ==> Genuine(H, t.right, levels - 1))
  {
    var l := RootWalk(H, b, levels - 1, p.Down());
    var r := RootWalk(H, b, levels - 1, l.next);
    var x, y := l.md, if r.md == 0 then l.md else r.md;
    assert H(x, y) == Hash(H, t);
  }

  /** Both branches again, with the transactions found in them, if the walk ended inside the hashes. */
  lemma {:induction false} SoundInner(H: Hasher, b: Block, t: Tree, levels: nat, p: Position)
    requires b.Valid() && NeverZero(H)
    requires Genuine(H, t, levels)
    requires Descends(b, levels, p)
    requires var root := RootWalk(H, b, levels, p);
      root.md == Hash(H, t) && root.next.hashIdx <= |b.hashes|
    ensures levels > 0 && !t.Leaf?
    ensures var l := RootWalk(H, b, levels - 1, p.Down());
      var r := RootWalk(H, b, levels - 1, l.next);
      && l.md == Hash(H, t.left) && l.next.hashIdx <= |b.hashes|
      && r.md == (if t.Pair? then Hash(H, t.right) else 0) && r.next.hashIdx <= |b.hashes|
      && TxWalk(b, levels, p)
         == TxWalk(b, levels - 1, p.Down()) + TxWalk(b, levels - 1, l.next)
    ensures Genuine(H, t.left, levels - 1) && (t.Pair? ==> Genuine(H, t.right, levels - 1))
    ensures Leaves(t) == Leaves(t.left) + if t.Pair? then Leaves(t.right) else []
  {
    ReproducedInner(H, b, t, levels, p);
    var l := RootWalk(H, b, levels - 1, p.Down());
    DefenceIsFinal(H, b, levels - 1, l.next);
    CursorsAgree(H, b, levels - 1, p.Down());
  }

  /** A walk that stops at a node returns at most the leaf itself. */
  lemma SoundStop(H: Hasher, b: Block, t: Tree, levels: nat, p: Position)
    requires Genuine(H, t, levels) && !Descends(b, levels, p)
    requires RootWalk(H, b, levels, p).md == Hash(H, t)
    ensures Subsequence(TxWalk(b, levels, p), Leaves(t))
  {
    if levels == 0 && b.Flag(p.flagIdx) {
      assert TxWalk(b, levels, p) == [t.hash] && [t.hash][1..] == [];
    }
  }

  lemma {:induction false} SoundWalk(H: Hasher, b: Block, t: Tree, levels: nat, p: Position)
    requires b.Valid() && NeverZero(H) && HashesNonzero(b)
    requires Genuine(H, t, levels)
    requires var root := RootWalk(H, b, levels, p);
      root.md == Hash(H, t) && root.next.hashIdx <= |b.hashes|
    ensures Subsequence(TxWalk(b, levels, p), Leaves(t))
    decreases t
  {
    hide *;
    if Descends(b, levels, p) {
      SoundInner(H, b, t, levels, p);
      var l := RootWalk(H, b, levels - 1, p.Down());
      var ltxs := TxWalk(b, levels - 1, p.Down());
      var rtxs := TxWalk(b, levels - 1, l.next);
      SoundWalk(H, b, t.left, levels - 1, p.Down());
      if t.Pair? {
        SoundWalk(H, b, t.right, levels - 1, l.next);
        SubsequenceConcat(ltxs, Leaves(t.left), rtxs, Leaves(t.right));
      } else {
        ZeroIsMissing(H, b, levels - 1, l.next);
        assert ltxs + rtxs == ltxs + [] == ltxs;
        assert Leaves(t) == Leaves(t.left) + [] == Leaves(t.left);
      }
    } else {
      SoundStop(H, b, t, levels, p);
    }
  }

  /**
   Soundness: if the computed root is the root of a genuine list of `totalTx` transactions and the root walk never
   took the defence branch, then every hash the transaction walk returns is one of those transactions, in order.
  */
  lemma {:induction false} Soundness(H: Hasher, b: Block, txs: seq<UInt256>, matches: seq<bool>)
    requires b.Valid() && NeverZero(H) && HashesNonzero(b)
    requires |txs| == |matches| == b.totalTx && b.totalTx > 0
    requires Distinct(H, BlockTree(txs, matches)) && Unforgeable(H, BlockTree(txs, matches))
    requires var root := RootWalk(H, b, Height(b.totalTx), START);
      root.md == MerkleRoot(H, txs) && root.next.hashIdx != SIZE_MAX
    ensures Subsequence(Found(b), txs)
  {
    BlockTreeFacts(H, txs, matches);
    WalkStaysInside(H, b, Height(b.totalTx), START);
    SoundWalk(H, b, BlockTree(txs, matches), Height(b.totalTx), START);
  }

  /** The hash cursor either stays within the hashes sent or is parked at SIZE_MAX by the defence branch. */
  lemma {:induction false} WalkStaysInside(H: Hasher, b: Block, levels: nat, p: Position)
    requires b.Valid() && (p.hashIdx <= |b.hashes| || p.hashIdx == SIZE_MAX)
    ensures var hashIdx' := RootWalk(H, b, levels, p).next.hashIdx;
      hashIdx' <= |b.hashes| || hashIdx' == SIZE_MAX
  {
    if Descends(b, levels, p) {
      var l := RootWalk(H, b, levels - 1, p.Down());
      WalkStaysInside(H, b, levels - 1, p.Down());
      WalkStaysInside(H, b, levels - 1, l.next);
    }
  }
}
