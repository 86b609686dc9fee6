/**
 What the Merkle root check of a received block gives without a look at the cursors, which its callers never see. A
 defence hit in the right branch of a lone node leaves no other trace there: the branch counts as missing.
*/
module RootCheck {
  import opened Bits
  import opened MerkleBlock
  import opened MerkleTree
  import opened Sequences

  predicate PowerOfTwo(n: nat) {
    n == 1 || (n > 0 && n % 2 == 0 && PowerOfTwo(n / 2))
  }

  /** Right children are missing right above the leaves only. */
  predicate LowLone(t: Tree) {
    match t
    case Leaf(_, _) => true
    case Pair(l, r) => LowLone(l) && LowLone(r)
    case Lone(l) => l.Leaf?
  }

  /** Down the right edge, the first missing right child is two or more rows above the leaves. */
  predicate HighLone(t: Tree, depth: nat) {
    match t
    case Leaf(_, _) => false
    case Pair(l, r) => depth > 0 && HighLone(r, depth - 1)
    case Lone(l) => depth > 1
  }

  // ---------- The number of transactions decides where children are missing ----------

  lemma {:induction false} NextTreesLow(row: seq<Tree>)
    requires |row| % 2 == 0 && forall i :: 0 <= i < |row| ==> LowLone(row[i])
    ensures forall i :: 0 <= i < |NextTrees(row)| ==> LowLone(NextTrees(row)[i])
  {
    if |row| >= 2 {
      NextTreesLow(row[2..]);
      assert NextTrees(row)[0] == Pair(row[0], row[1]);
      assert forall i :: 1 <= i < |NextTrees(row)| ==> NextTrees(row)[i] == NextTrees(row[2..])[i - 1];
    }
  }

  lemma {:induction false} BuildLow(row: seq<Tree>)
    requires PowerOfTwo(|row|) && forall i :: 0 <= i < |row| ==> LowLone(row[i])
    ensures LowLone(Build(row))
    decreases |row|
  {
    if |row| > 1 {
      NextTreesLow(row);
      BuildLow(NextTrees(row));
    }
  }

  lemma {:induction false} NextOfLeavesLow(row: seq<Tree>)
    requires forall i :: 0 <= i < |row| ==> row[i].Leaf?
    ensures forall i :: 0 <= i < |NextTrees(row)| ==> LowLone(NextTrees(row)[i])
  {
    if |row| >= 2 {
      NextOfLeavesLow(row[2..]);
      assert NextTrees(row)[0] == Pair(row[0], row[1]);
      assert forall i :: 1 <= i < |NextTrees(row)| ==> NextTrees(row)[i] == NextTrees(row[2..])[i - 1];
    }
  }

  lemma {:induction false} NextTreesLast(row: seq<Tree>)
    requires row != []
    ensures var last := NextTrees(row)[|NextTrees(row)| - 1];
      last == if |row| % 2 == 1 then Lone(row[|row| - 1]) else Pair(row[|row| - 2], row[|row| - 1])
  {
    if |row| > 2 {
      NextTreesLast(row[2..]);
    }
  }

  lemma {:induction false} BuildKeepsHigh(row: seq<Tree>, depth: nat)
    requires row != [] && HighLone(row[|row| - 1], depth)
    ensures HighLone(Build(row), depth + Height(|row|))
    decreases |row|
  {
    if |row| > 1 {
      NextTreesLast(row);
      assert depth > 0;
      BuildKeepsHigh(NextTrees(row), depth + 1);
    }
  }

  lemma {:induction false} BuildHigh(row: seq<Tree>, depth: nat)
    requires row != [] && depth > 0 && !PowerOfTwo(|row|)
    ensures HighLone(Build(row), depth + Height(|row|))
    decreases |row|
  {
    NextTreesLast(row);
    if |row| % 2 == 1 {
      BuildKeepsHigh(NextTrees(row), depth + 1);
    } else {
      BuildHigh(NextTrees(row), depth + 1);
    }
  }

  /** Half the number of transactions, rounded up, tells the two kinds of trees apart. */
  lemma BlockTreeKind(txs: seq<UInt256>, matches: seq<bool>)
    requires |txs| == |matches| > 0
    ensures var t := BlockTree(txs, matches);
      if PowerOfTwo((|txs| + 1) / 2) then LowLone(t) else HighLone(t, Height(|txs|))
  {
    var row := LeafRow(txs, matches);
    var next := NextTrees(row);
    if |row| > 1 {
      if PowerOfTwo(|next|) {
        NextOfLeavesLow(row);
        BuildLow(next);
      } else {
        BuildHigh(next, 1);
      }
    }
  }

  lemma {:induction false} NextTreesFull(row: seq<Tree>)
    requires |row| % 2 == 0 && forall i :: 0 <= i < |row| ==> Full(row[i])
    ensures forall i :: 0 <= i < |NextTrees(row)| ==> Full(NextTrees(row)[i])
  {
    if |row| >= 2 {
      NextTreesFull(row[2..]);
      assert NextTrees(row)[0] == Pair(row[0], row[1]);
      assert forall i :: 1 <= i < |NextTrees(row)| ==> NextTrees(row)[i] == NextTrees(row[2..])[i - 1];
    }
  }

  lemma {:induction false} BuildFull(row: seq<Tree>)
    requires PowerOfTwo(|row|) && forall i :: 0 <= i < |row| ==> Full(row[i])
    ensures Full(Build(row))
    decreases |row|
  {
    if |row| > 1 {
      NextTreesFull(row);
      BuildFull(NextTrees(row));
    }
  }

  lemma {:induction false} FullLeaves(t: Tree, depth: nat)
    requires Full(t) && Uniform(t, depth)
    ensures |Leaves(t)| == Pow2(depth)
  {
    if t.Pair? {
      FullLeaves(t.left, depth - 1);
      FullLeaves(t.right, depth - 1);
    }
  }

  lemma {:induction false} PowersOfTwo(k: nat)
    ensures PowerOfTwo(Pow2(k))
  {
    if k > 0 {
      PowersOfTwo(k - 1);
    }
  }

  lemma FullIsLow(t: Tree)
    requires Full(t)
    ensures LowLone(t)
  {}

  /** No child is missing exactly if the number of transactions is a power of two. */
  lemma FullTrees(H: Hasher, txs: seq<UInt256>, matches: seq<bool>)
    requires |txs| == |matches| > 0
    ensures Full(BlockTree(txs, matches)) <==> PowerOfTwo(|txs|)
    ensures Full(BlockTree(txs, matches)) ==> LowLone(BlockTree(txs, matches))
  {
    var t := BlockTree(txs, matches);
    if PowerOfTwo(|txs|) { BuildFull(LeafRow(txs, matches)); }
    if Full(t) {
      BlockTreeFacts(H, txs, matches);
      FullLeaves(t, Height(|txs|));
      PowersOfTwo(Height(|txs|));
      FullIsLow(t);
    }
  }

  // ---------- Sound counts ----------

  /**
   Where children are missing right above the leaves only, a reproduced root shows that there was no defence hit, and
   that what is found are leaves; if no child is missing, even zero hashes do no harm.
  */
  lemma {:induction false} CheckedWalk(H: Hasher, b: Block, t: Tree, levels: nat, p: Position)
    requires b.Valid() && LowLone(t) && (HashesNonzero(b) || Full(t)) && p.hashIdx <= |b.hashes|
    requires Genuine(H, t, levels) && RootWalk(H, b, levels, p).md == Hash(H, t)
    ensures RootWalk(H, b, levels, p).next == TxNext(b, levels, p) && TxNext(b, levels, p).hashIdx <= |b.hashes|
    ensures Subsequence(TxWalk(b, levels, p), Leaves(t))
    decreases t
  {
    if Descends(b, levels, p) {
      ReproducedInner(H, b, t, levels, p);
      var l := RootWalk(H, b, levels - 1, p.Down());
      var ltxs, rtxs := TxWalk(b, levels - 1, p.Down()), TxWalk(b, levels - 1, l.next);
      assert TxNext(b, levels, p) == TxNext(b, levels - 1, TxNext(b, levels - 1, p.Down()));
      hide RootWalk, TxWalk, TxNext, Genuine, Subsequence;
      CheckedWalk(H, b, t.left, levels - 1, p.Down());
      FoundBelow(b, levels, p);
      if t.Pair? {
        CheckedWalk(H, b, t.right, levels - 1, l.next);
        SubsequenceConcat(ltxs, Leaves(t.left), rtxs, Leaves(t.right));
      } else {
        assert levels == 1 by { LeafDepth(H, t.left, levels - 1); }
        NothingAtLeaf(H, b, l.next);
        assert ltxs + [] == ltxs;
      }
    } else {
      SoundStop(H, b, t, levels, p);
    }
  }

  lemma FoundBelow(b: Block, levels: nat, p: Position)
    requires Descends(b, levels, p)
    ensures TxWalk(b, levels, p)
            == TxWalk(b, levels - 1, p.Down()) + TxWalk(b, levels - 1, TxNext(b, levels - 1, p.Down()))
  {}

  lemma LeafDepth(H: Hasher, t: Tree, depth: nat)
    requires t.Leaf? && Genuine(H, t, depth)
    ensures depth == 0
  {}

  lemma NothingAtLeaf(H: Hasher, b: Block, p: Position)
    requires HashesNonzero(b) && p.hashIdx <= |b.hashes| && RootWalk(H, b, 0, p).md == 0
    ensures RootWalk(H, b, 0, p).next == TxNext(b, 0, p) == p && TxWalk(b, 0, p) == []
  {}

  /** Soundness from the root check alone. */
  lemma CheckedSoundness(H: Hasher, b: Block, txs: seq<UInt256>, matches: seq<bool>)
    requires b.Valid() && |txs| == |matches| == b.totalTx && b.totalTx > 0
    requires PowerOfTwo(b.totalTx) || (HashesNonzero(b) && PowerOfTwo((b.totalTx + 1) / 2))
    requires Distinct(H, BlockTree(txs, matches)) && Unforgeable(H, BlockTree(txs, matches))
    requires AcceptsRoot(H, b, MerkleRoot(H, txs))
    ensures Subsequence(Found(b), txs)
  {
    BlockTreeFacts(H, txs, matches);
    BlockTreeKind(txs, matches);
    FullTrees(H, txs, matches);
    CheckedWalk(H, b, BlockTree(txs, matches), Height(b.totalTx), START);
  }

  // ---------- Forged blocks for all other counts ----------

  /** Down to a node `depth` rows above the leaves' parents, always to the left, and two matched leaves. */
  function DeepFlags(depth: nat): seq<bool> {
    if depth == 0 then [true, true] else [true] + DeepFlags(depth - 1)
  }

  /** Down to the first missing right child, which is sent after all: as two equal leaves. */
  function ForgedFlags(t: Tree, depth: nat): seq<bool>
    requires HighLone(t, depth)
  {
    if t.Lone? then [true, false] + DeepFlags(depth - 1) else [true, false] + ForgedFlags(t.right, depth - 1)
  }

  function ForgedHashes(H: Hasher, t: Tree, depth: nat, x: UInt256): seq<UInt256>
    requires HighLone(t, depth)
  {
    [Hash(H, t.left)] + if t.Lone? then [x, x] else ForgedHashes(H, t.right, depth - 1, x)
  }

  function Forged(H: Hasher, txs: seq<UInt256>, matches: seq<bool>, x: UInt256): Block
    requires |txs| == |matches| > 0 && HighLone(BlockTree(txs, matches), Height(|txs|))
  {
    var t := BlockTree(txs, matches);
    Block(|txs|, ForgedHashes(H, t, Height(|txs|), x), PackFlags(ForgedFlags(t, Height(|txs|))))
  }

  /** The hashes from the cursor on are `hashes`, and the flags begin with `flags`. */
  ghost predicate Rest(b: Block, p: Position, hashes: seq<UInt256>, flags: seq<bool>) {
    At(b.hashes, p.hashIdx, hashes) && p.hashIdx + |hashes| == |b.hashes| && At(AllFlags(b), p.flagIdx, flags)
  }

  lemma RestHere(b: Block, p: Position, hashes: seq<UInt256>, flags: seq<bool>)
    requires hashes != [] && flags != [] && Rest(b, p, hashes, flags)
    ensures !Exhausted(b, p) && b.hashes[p.hashIdx] == hashes[0] && b.Flag(p.flagIdx) == flags[0]
    ensures Rest(b, p.Down(), hashes, flags[1..])
    ensures Rest(b, Position(p.hashIdx + 1, p.flagIdx + 1), hashes[1..], flags[1..])
  {
    assert b.hashes[p.hashIdx..p.hashIdx + |hashes|][0] == b.hashes[p.hashIdx];
    assert AllFlags(b)[p.flagIdx..p.flagIdx + |flags|][0] == AllFlags(b)[p.flagIdx];
    assert [hashes[0]] + hashes[1..] == hashes && [flags[0]] + flags[1..] == flags;
    AtSplit(b.hashes, p.hashIdx, [hashes[0]], hashes[1..]);
    AtSplit(AllFlags(b), p.flagIdx, [flags[0]], flags[1..]);
  }

  /** A branch with two equal leaves at its far left: the root walk returns zero, the other walk finds both. */
  lemma {:induction false} DeepWalk(H: Hasher, b: Block, depth: nat, p: Position, x: UInt256)
    requires b.Valid() && depth > 0 && Rest(b, p, [x, x], DeepFlags(depth))
    ensures RootWalk(H, b, depth, p).md == 0
    ensures TxWalk(b, depth, p) == [x, x] && TxNext(b, depth, p).hashIdx == |b.hashes|
  {
    RestHere(b, p, [x, x], DeepFlags(depth));
    assert DeepFlags(depth)[1..] == DeepFlags(depth - 1);
    var l := p.Down();
    if depth == 1 {
      RestHere(b, l, [x, x], [true, true]);
      var r := Position(l.hashIdx + 1, l.flagIdx + 1);
      assert [x, x][1..] == [x] && [true, true][1..] == [true];
      RestHere(b, r, [x], [true]);
    } else {
      DeepWalk(H, b, depth - 1, l, x);
    }
  }

  lemma {:induction false} ForgedWalk(H: Hasher, b: Block, t: Tree, depth: nat, p: Position, x: UInt256)
    requires b.Valid() && Uniform(t, depth) && HighLone(t, depth) && Distinct(H, t)
    requires Rest(b, p, ForgedHashes(H, t, depth, x), ForgedFlags(t, depth))
    ensures RootWalk(H, b, depth, p).md == Hash(H, t) && TxWalk(b, depth, p) == [x, x]
    decreases t
  {
    var hashes, flags := ForgedHashes(H, t, depth, x), ForgedFlags(t, depth);
    RestHere(b, p, hashes, flags);
    var l := p.Down();
    RestHere(b, l, hashes, flags[1..]);
    var r := Position(l.hashIdx + 1, l.flagIdx + 1);
    assert flags[1..][1..] == flags[2..];
    if t.Lone? {
      DeepWalk(H, b, depth - 1, r, x);
    } else {
      ForgedWalk(H, b, t.right, depth - 1, r, x);
    }
  }

  lemma {:induction false} ForgedFits(H: Hasher, t: Tree, depth: nat, x: UInt256)
    requires HighLone(t, depth) && Distinct(H, t) && x != 0
    ensures var hashes := ForgedHashes(H, t, depth, x);
      |hashes| <= depth + 2 && forall i :: 0 <= i < |hashes| ==> hashes[i] != 0
    ensures |ForgedFlags(t, depth)| <= 2 * depth + 3
  {
    if t.Pair? {
      ForgedFits(H, t.right, depth - 1, x);
    } else {
      DeepFlagsLength(depth - 1);
    }
  }

  lemma {:induction false} DeepFlagsLength(depth: nat)
    ensures |DeepFlags(depth)| == depth + 2
  {
    if depth > 0 {
      DeepFlagsLength(depth - 1);
    }
  }

  /** For any other count a block that was never sent is accepted, whatever hash it claims. */
  lemma ForgedAccepted(H: Hasher, txs: seq<UInt256>, matches: seq<bool>, x: UInt256)
    requires 0 < |txs| == |matches| < 0x8000_0000 && !PowerOfTwo((|txs| + 1) / 2)
    requires Distinct(H, BlockTree(txs, matches)) && x != 0
    ensures HighLone(BlockTree(txs, matches), Height(|txs|))
    ensures var b := Forged(H, txs, matches, x);
      && b.Valid() && HashesNonzero(b) && b.totalTx == |txs|
      && AcceptsRoot(H, b, MerkleRoot(H, txs)) && Found(b) == [x, x]
  {
    hide RootWalk, TxWalk, BlockTree, Height, PackFlags, ForgedFlags, ForgedHashes, HighLone, LowLone, Uniform, Distinct,
         RightEdge, AllFlags, PowerOfTwo, Leaves, MatchedTxs, Hash, MerkleRoot;
    var t, depth := BlockTree(txs, matches), Height(|txs|);
    BlockTreeFacts(H, txs, matches);
    BlockTreeKind(txs, matches);
    var b := Forged(H, txs, matches, x);
    HeightSmall(|txs|);
    ForgedFits(H, t, depth, x);
    PackedFlags(b, ForgedFlags(t, depth));
    assert b.hashes[0..|b.hashes|] == b.hashes;
    ForgedWalk(H, b, t, depth, START, x);
  }

  // ---------- The exact condition ----------

  /** Whatever block the root check accepts for these transactions, it claims only transactions among them, in order. */
  ghost predicate CheckSuffices(H: Hasher, txs: seq<UInt256>)
    requires txs != []
  {
    forall b: Block :: Accepted(H, b, txs) ==> Subsequence(Found(b), txs)
  }

  ghost predicate Accepted(H: Hasher, b: Block, txs: seq<UInt256>)
    requires txs != []
  {
    b.Valid() && HashesNonzero(b) && b.totalTx == |txs| && AcceptsRoot(H, b, MerkleRoot(H, txs))
  }

  lemma {:induction false} SubsequenceFirst(xs: seq<UInt256>, ys: seq<UInt256>)
    requires Subsequence(xs, ys) && xs != []
    ensures xs[0] in ys
  {
    if xs[0] != ys[0] {
      SubsequenceFirst(xs, ys[1..]);
    }
  }

  /** Among `n + 1` numbers above `low` there is one that is not among `n`. */
  lemma {:induction false} Unused(txs: seq<UInt256>, low: nat) returns (x: UInt256)
    requires low + |txs| + 1 < 0x1_0000_0000
    ensures x !in txs && x > low
  {
    x := low + 1;
    if x in txs {
      var i :| 0 <= i < |txs| && txs[i] == x;
      var rest := txs[..i] + txs[i + 1..];
      var y := Unused(rest, low + 1);
      assert forall j :: 0 <= j < |txs| && j != i ==> txs[j] in rest;
      return y;
    }
  }

  /** The root check suffices exactly if half the number of transactions, rounded up, is a power of two. */
  lemma CheckSufficesFor(H: Hasher, txs: seq<UInt256>, matches: seq<bool>)
    requires 0 < |txs| == |matches| < 0x8000_0000
    requires Distinct(H, BlockTree(txs, matches)) && Unforgeable(H, BlockTree(txs, matches))
    ensures CheckSuffices(H, txs) <==> PowerOfTwo((|txs| + 1) / 2)
  {
    if PowerOfTwo((|txs| + 1) / 2) {
      forall b: Block | Accepted(H, b, txs)
        ensures Subsequence(Found(b), txs)
      {
        CheckedSoundness(H, b, txs, matches);
      }
    } else {
      var x := Unused(txs, 0);
      ForgedAccepted(H, txs, matches, x);
      var b := Forged(H, txs, matches, x);
      hide AcceptsRoot, Found, Forged, BlockTree, Distinct;
      assert Accepted(H, b, txs);
      if Subsequence(Found(b), txs) {
        SubsequenceFirst(Found(b), txs);
      }
    }
  }

  function FiveTree(row: seq<Tree>): Tree
    requires |row| == 5
  {
    Pair(Pair(Pair(row[0], row[1]), Pair(row[2], row[3])), Lone(Lone(row[4])))
  }

  lemma BuildFive(row: seq<Tree>)
    requires |row| == 5
    ensures Build(row) == FiveTree(row)
  {
    var next := [Pair(row[0], row[1]), Pair(row[2], row[3]), Lone(row[4])];
    assert row[2..][2..] == [row[4]];
    assert NextTrees([row[4]]) == [Lone(row[4])];
    assert NextTrees(row[2..]) == [Pair(row[2], row[3])] + NextTrees([row[4]]);
    assert NextTrees(row) == next;
    var last := [Pair(next[0], next[1]), Lone(next[2])];
    assert next[2..] == [next[2]] && NextTrees([next[2]]) == [Lone(next[2])];
    assert NextTrees(next) == last;
    assert last[2..] == [] && NextTrees(last) == [Pair(last[0], last[1])];
    assert Build(row) == Build(next) == Build(last) == Build([Pair(last[0], last[1])]);
  }

  lemma FiveFlags(t: Tree)
    requires t.Pair? && t.right.Lone?
    ensures ForgedFlags(t, 3) == [true, false, true, false, true, true, true]
    ensures PackFlags(ForgedFlags(t, 3)) == [0x75]
  {
    assert DeepFlags(1) == [true, true, true];
    assert ForgedFlags(t.right, 2) == [true, false, true, true, true];
    PackSeven();
  }

  lemma PackSeven()
    ensures PackByte([true, false, true, false, true, true, true]) == 0x75
  {
    assert PackByte([]) == 0;
    assert PackByte([true]) == 0x01;
    assert PackByte([true, true]) == 0x03;
    assert PackByte([true, true, true]) == 0x07;
    assert PackByte([false, true, true, true]) == 0x0e;
    assert PackByte([true, false, true, true, true]) == 0x1d;
    assert PackByte([false, true, false, true, true, true]) == 0x3a;
  }

  /** The smallest such count: for five transactions the check accepts a block that claims any hash. */
  lemma FiveTransactions(H: Hasher, txs: seq<UInt256>, matches: seq<bool>, x: UInt256)
    requires |txs| == |matches| == 5 && Distinct(H, BlockTree(txs, matches)) && x != 0
    ensures var b := Block(5, [H(H(txs[0], txs[1]), H(txs[2], txs[3])), H(txs[4], txs[4]), x, x], [0x75]);
      AcceptsRoot(H, b, MerkleRoot(H, txs)) && Found(b) == [x, x]
  {
    var t := BlockTree(txs, matches);
    BuildFive(LeafRow(txs, matches));
    assert Height(5) == 3;
    assert !PowerOfTwo(3);
    ForgedAccepted(H, txs, matches, x);
    FiveFlags(t);
    hide AcceptsRoot, Found, MerkleRoot, BlockTree, Distinct, PackFlags, ForgedFlags;
    FiveHashes(H, txs, matches, x);
  }

  lemma FiveHashes(H: Hasher, txs: seq<UInt256>, matches: seq<bool>, x: UInt256)
    requires |txs| == |matches| == 5
    ensures ForgedHashes(H, FiveTree(LeafRow(txs, matches)), 3, x)
            == [H(H(txs[0], txs[1]), H(txs[2], txs[3])), H(txs[4], txs[4]), x, x]
  {
    var row := LeafRow(txs, matches);
    var t := FiveTree(row);
    assert Hash(H, t.right.left) == H(txs[4], txs[4]);
    assert Hash(H, t.left) == H(Hash(H, t.left.left), Hash(H, t.left.right));
    assert ForgedHashes(H, t.right, 2, x) == [Hash(H, t.right.left)] + [x, x];
    assert ForgedHashes(H, t, 3, x) == [Hash(H, t.left)] + ForgedHashes(H, t.right, 2, x);
  }

  // ---------- Zero hashes ----------

  /** Down the right edge, the first missing right child is right above the leaves. */
  predicate LastLone(t: Tree) {
    match t
    case Leaf(_, _) => false
    case Pair(l, r) => LastLone(r)
    case Lone(l) => l.Leaf?
  }

  lemma {:induction false} LowNotFull(t: Tree)
    requires LowLone(t) && RightEdge(t) && !Full(t)
    ensures LastLone(t)
  {
    if t.Pair? {
      LowNotFull(t.right);
    }
  }

  function ZeroFlags(t: Tree): seq<bool>
    requires LastLone(t)
  {
    if t.Lone? then [true, false, true] else [true, false] + ZeroFlags(t.right)
  }

  /** A zero hash stands for the missing child. */
  function ZeroHashes(H: Hasher, t: Tree): seq<UInt256>
    requires LastLone(t)
  {
    [Hash(H, t.left)] + if t.Lone? then [0] else ZeroHashes(H, t.right)
  }

  function WithZero(H: Hasher, txs: seq<UInt256>, matches: seq<bool>): Block
    requires |txs| == |matches| > 0 && LastLone(BlockTree(txs, matches))
  {
    var t := BlockTree(txs, matches);
    Block(|txs|, ZeroHashes(H, t), PackFlags(ZeroFlags(t)))
  }

  lemma {:induction false} ZeroWalk(H: Hasher, b: Block, t: Tree, depth: nat, p: Position)
    requires b.Valid() && Uniform(t, depth) && LastLone(t) && Distinct(H, t)
    requires Rest(b, p, ZeroHashes(H, t), ZeroFlags(t))
    ensures RootWalk(H, b, depth, p).md == Hash(H, t) && TxWalk(b, depth, p) == [0]
    decreases t
  {
    var hashes, flags := ZeroHashes(H, t), ZeroFlags(t);
    RestHere(b, p, hashes, flags);
    var l := p.Down();
    RestHere(b, l, hashes, flags[1..]);
    var r := Position(l.hashIdx + 1, l.flagIdx + 1);
    assert flags[1..][1..] == flags[2..];
    if t.Lone? {
      RestHere(b, r, [0], [true]);
    } else {
      ZeroWalk(H, b, t.right, depth - 1, r);
    }
  }

  lemma {:induction false} ZeroFits(H: Hasher, t: Tree, depth: nat)
    requires LastLone(t) && Uniform(t, depth)
    ensures |ZeroHashes(H, t)| <= depth + 1 && |ZeroFlags(t)| <= 2 * depth + 1
  {
    if t.Pair? {
      ZeroFits(H, t.right, depth - 1);
    }
  }

  /** For 3, 7, 15, ... transactions a block is accepted in which the zero hash is found. */
  lemma ZeroAccepted(H: Hasher, txs: seq<UInt256>, matches: seq<bool>)
    requires 0 < |txs| == |matches| < 0x8000_0000 && PowerOfTwo((|txs| + 1) / 2) && !PowerOfTwo(|txs|)
    requires Distinct(H, BlockTree(txs, matches))
    ensures LastLone(BlockTree(txs, matches))
    ensures var b := WithZero(H, txs, matches);
      && b.Valid() && b.totalTx == |txs| && AcceptsRoot(H, b, MerkleRoot(H, txs)) && Found(b) == [0]
  {
    hide RootWalk, TxWalk, BlockTree, Height, PackFlags, ZeroFlags, ZeroHashes, LastLone, LowLone, Uniform, Distinct,
         RightEdge, AllFlags, PowerOfTwo, Leaves, MatchedTxs, Hash, MerkleRoot, Full, HighLone;
    var t, depth := BlockTree(txs, matches), Height(|txs|);
    BlockTreeFacts(H, txs, matches);
    BlockTreeKind(txs, matches);
    FullTrees(H, txs, matches);
    LowNotFull(t);
    var b := WithZero(H, txs, matches);
    HeightSmall(|txs|);
    ZeroFits(H, t, depth);
    PackedFlags(b, ZeroFlags(t));
    assert b.hashes[0..|b.hashes|] == b.hashes;
    ZeroWalk(H, b, t, depth, START);
  }

  /** Whatever block the root check accepts, zero hashes or not. */
  ghost predicate CheckSufficesAlways(H: Hasher, txs: seq<UInt256>)
    requires txs != []
  {
    forall b: Block :: AcceptedAtAll(H, b, txs) ==> Subsequence(Found(b), txs)
  }

  ghost predicate AcceptedAtAll(H: Hasher, b: Block, txs: seq<UInt256>)
    requires txs != []
  {
    b.Valid() && b.totalTx == |txs| && AcceptsRoot(H, b, MerkleRoot(H, txs))
  }

  lemma {:induction false} LeavesNonzero(H: Hasher, t: Tree)
    requires Distinct(H, t)
    ensures 0 !in Leaves(t)
  {
    if !t.Leaf? {
      LeavesNonzero(H, t.left);
      if t.Pair? { LeavesNonzero(H, t.right); }
    }
  }

  /** Over all blocks the root check suffices exactly if the number of transactions is a power of two. */
  lemma CheckSufficesAlwaysFor(H: Hasher, txs: seq<UInt256>, matches: seq<bool>)
    requires 0 < |txs| == |matches| < 0x8000_0000
    requires Distinct(H, BlockTree(txs, matches)) && Unforgeable(H, BlockTree(txs, matches))
    ensures CheckSufficesAlways(H, txs) <==> PowerOfTwo(|txs|)
  {
    if PowerOfTwo(|txs|) {
      forall b: Block | AcceptedAtAll(H, b, txs)
        ensures Subsequence(Found(b), txs)
      {
        CheckedSoundness(H, b, txs, matches);
      }
    } else {
      var b := Counterexample(H, txs, matches);
      hide AcceptedAtAll, Found;
    }
  }

  lemma Counterexample(H: Hasher, txs: seq<UInt256>, matches: seq<bool>) returns (b: Block)
    requires 0 < |txs| == |matches| < 0x8000_0000 && !PowerOfTwo(|txs|) && Distinct(H, BlockTree(txs, matches))
    ensures AcceptedAtAll(H, b, txs) && !Subsequence(Found(b), txs)
  {
    var x := Unused(txs, 0);
    if PowerOfTwo((|txs| + 1) / 2) {
      ZeroAccepted(H, txs, matches);
      b := WithZero(H, txs, matches);
      BlockTreeFacts(H, txs, matches);
      LeavesNonzero(H, BlockTree(txs, matches));
    } else {
      ForgedAccepted(H, txs, matches, x);
      b := Forged(H, txs, matches, x);
    }
    hide AcceptsRoot, Found, Forged, WithZero, BlockTree, Distinct;
    if Subsequence(Found(b), txs) {
      SubsequenceFirst(Found(b), txs);
    }
  }

  /** The smallest such count: for three transactions, a zero hash where there is no fourth. */
  lemma ZeroHash(H: Hasher, txs: seq<UInt256>, matches: seq<bool>)
    requires |txs| == |matches| == 3 && Distinct(H, BlockTree(txs, matches))
    ensures var b := Block(3, [H(txs[0], txs[1]), txs[2], 0], [0x15]);
      AcceptsRoot(H, b, MerkleRoot(H, txs)) && Found(b) == [0]
  {
    hide AcceptsRoot, Found, MerkleRoot, BlockTree, Distinct, PackFlags, ZeroFlags, ZeroHashes, LastLone;
    BuildThree(LeafRow(txs, matches));
    assert BlockTree(txs, matches) == Build(LeafRow(txs, matches)) by { ThreeTree(txs, matches); }
    assert PowerOfTwo(2) && !PowerOfTwo(3);
    ZeroAccepted(H, txs, matches);
    ThreeEncoding(H, txs, matches);
  }

  lemma ThreeTree(txs: seq<UInt256>, matches: seq<bool>)
    requires |txs| == |matches| == 3
    ensures BlockTree(txs, matches) == Build(LeafRow(txs, matches))
  {}

  lemma ThreeEncoding(H: Hasher, txs: seq<UInt256>, matches: seq<bool>)
    requires |txs| == |matches| == 3
    ensures var row := LeafRow(txs, matches);
      var t := Pair(Pair(row[0], row[1]), Lone(row[2]));
      && LastLone(t) && ZeroHashes(H, t) == [H(txs[0], txs[1]), txs[2], 0] && PackFlags(ZeroFlags(t)) == [0x15]
  {
    var row := LeafRow(txs, matches);
    var t := Pair(Pair(row[0], row[1]), Lone(row[2]));
    assert Hash(H, t.left) == H(Hash(H, row[0]), Hash(H, row[1])) == H(txs[0], txs[1]);
    assert ZeroHashes(H, t.right) == [txs[2]] + [0];
    assert ZeroHashes(H, t) == [Hash(H, t.left)] + ZeroHashes(H, t.right);
    assert ZeroFlags(t.right) == [true, false, true] && ZeroFlags(t) == [true, false] + ZeroFlags(t.right);
    assert [true, false] + [true, false, true] == [true, false, true, false, true];
    hide ZeroFlags, ZeroHashes, LeafRow, PackByte;
    PackFive();
  }

  lemma BuildThree(row: seq<Tree>)
    requires |row| == 3
    ensures Build(row) == Pair(Pair(row[0], row[1]), Lone(row[2]))
  {
    var next := [Pair(row[0], row[1]), Lone(row[2])];
    assert row[2..] == [row[2]] && NextTrees([row[2]]) == [Lone(row[2])];
    assert NextTrees(row) == next;
    assert next[2..] == [] && NextTrees(next) == [Pair(next[0], next[1])];
    assert Build(row) == Build(next) == Build([Pair(next[0], next[1])]);
  }

  lemma PackFive()
    ensures PackByte([true, false, true, false, true]) == 0x15
  {
    assert PackByte([]) == 0;
    assert PackByte([true]) == 0x01;
    assert PackByte([false, true]) == 0x02;
    assert PackByte([true, false, true]) == 0x05;
    assert PackByte([false, true, false, true]) == 0x0a;
  }
}
