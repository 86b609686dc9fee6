/**
 The Merkle tree of a block and its BIP37 "partial Merkle branch" encoding, independent of the code that
 decodes it. `H` is the double SHA-256 of a 64-byte concatenation and is left uninterpreted.
*/
module MerkleTree {

  type UInt256 = x: int | 0 <= x < 0x1_0000000000000000_0000000000000000_0000000000000000_0000000000000000

  /** A tree over the transactions of a block. `Lone` is an inner node whose right child is missing. */
  datatype Tree =
    | Leaf(hash: UInt256, matched: bool)
    | Pair(left: Tree, right: Tree)
    | Lone(left: Tree)

  type Hasher = (UInt256, UInt256) -> UInt256

  function Hash(H: Hasher, t: Tree): UInt256 {
    match t
    case Leaf(h, _) => h
    case Pair(l, r) => H(Hash(H, l), Hash(H, r))
    case Lone(l) => H(Hash(H, l), Hash(H, l))
  }

  /** True of a node that is, or is the parent of, at least one matched transaction. */
  predicate Matched(t: Tree) {
    match t
    case Leaf(_, m) => m
    case Pair(l, r) => Matched(l) || Matched(r)
    case Lone(l) => Matched(l)
  }

  function Leaves(t: Tree): seq<UInt256> {
    match t
    case Leaf(h, _) => [h]
    case Pair(l, r) => Leaves(l) + Leaves(r)
    case Lone(l) => Leaves(l)
  }

  /** The transaction hashes of the matched leaves, in block order. */
  function MatchedTxs(t: Tree): seq<UInt256> {
    match t
    case Leaf(h, m) => if m then [h] else []
    case Pair(l, r) => MatchedTxs(l) + MatchedTxs(r)
    case Lone(l) => MatchedTxs(l)
  }

  // ---------- Shape ----------

  predicate Uniform(t: Tree, depth: nat) {
    match t
    case Leaf(_, _) => depth == 0
    case Pair(l, r) => depth > 0 && Uniform(l, depth - 1) && Uniform(r, depth - 1)
    case Lone(l) => depth > 0 && Uniform(l, depth - 1)
  }

  /** No right child is missing anywhere. */
  predicate Full(t: Tree) {
    match t
    case Leaf(_, _) => true
    case Pair(l, r) => Full(l) && Full(r)
    case Lone(_) => false
  }

  /** Right children are missing on the right edge only. */
  predicate RightEdge(t: Tree) {
    match t
    case Leaf(_, _) => true
    case Pair(l, r) => Full(l) && RightEdge(r)
    case Lone(l) => RightEdge(l)
  }

  /** No node hashes to zero and no two siblings have equal hashes. */
  predicate Distinct(H: Hasher, t: Tree) {
    && Hash(H, t) != 0
    && match t
       case Leaf(_, _) => true
       case Pair(l, r) => Distinct(H, l) && Distinct(H, r) && Hash(H, l) != Hash(H, r)
       case Lone(l) => Distinct(H, l)
  }

  // ---------- Construction, row by row ----------

  function NextRow(H: Hasher, row: seq<UInt256>): (next: seq<UInt256>)
    ensures |next| == (|row| + 1) / 2
  {
    if |row| == 0 then []
    else if |row| == 1 then [H(row[0], row[0])]
    else [H(row[0], row[1])] + NextRow(H, row[2..])
  }

  /** The root of the block's transactions: each row halves the one below, an odd last hash being duplicated. */
  function MerkleRoot(H: Hasher, row: seq<UInt256>): UInt256
    requires |row| > 0
    decreases |row|
  {
    if |row| == 1 then row[0] else MerkleRoot(H, NextRow(H, row))
  }

  function NextTrees(row: seq<Tree>): (next: seq<Tree>)
    ensures |next| == (|row| + 1) / 2
  {
    if |row| == 0 then []
    else if |row| == 1 then [Lone(row[0])]
    else [Pair(row[0], row[1])] + NextTrees(row[2..])
  }

  function Build(row: seq<Tree>): Tree
    requires |row| > 0
    decreases |row|
  {
    if |row| == 1 then row[0] else Build(NextTrees(row))
  }

  /** Number of rows above a row of `n` nodes. */
  function Height(n: nat): nat {
    if n <= 1 then 0 else 1 + Height((n + 1) / 2)
  }

  function LeafRow(txs: seq<UInt256>, matches: seq<bool>): (row: seq<Tree>)
    requires |txs| == |matches|
    ensures |row| == |txs|
    ensures forall i :: 0 <= i < |row| ==> row[i] == Leaf(txs[i], matches[i])
  {
    seq(|txs|, i requires 0 <= i < |txs| => Leaf(txs[i], matches[i]))
  }

  function BlockTree(txs: seq<UInt256>, matches: seq<bool>): Tree
    requires |txs| == |matches| > 0
  {
    Build(LeafRow(txs, matches))
  }

  function Select(txs: seq<UInt256>, matches: seq<bool>): seq<UInt256>
    requires |txs| == |matches|
  {
    if txs == [] then []
    else (if matches[0] then [txs[0]] else []) + Select(txs[1..], matches[1..])
  }

  // ---------- Facts about the construction ----------

  function Hashes(H: Hasher, row: seq<Tree>): (hs: seq<UInt256>)
    ensures |hs| == |row|
    ensures forall i :: 0 <= i < |hs| ==> hs[i] == Hash(H, row[i])
  {
    seq(|row|, i requires 0 <= i < |row| => Hash(H, row[i]))
  }

  function AllLeaves(row: seq<Tree>): seq<UInt256> {
    if row == [] then [] else Leaves(row[0]) + AllLeaves(row[1..])
  }

  function AllMatched(row: seq<Tree>): seq<UInt256> {
    if row == [] then [] else MatchedTxs(row[0]) + AllMatched(row[1..])
  }

  predicate RowShape(row: seq<Tree>, depth: nat) {
    && (forall i :: 0 <= i < |row| ==> Uniform(row[i], depth))
    && (forall i :: 0 <= i < |row| - 1 ==> Full(row[i]))
    && (|row| > 0 ==> RightEdge(row[|row| - 1]))
  }

  lemma FullIsRightEdge(t: Tree)
    requires Full(t)
    ensures RightEdge(t)
  {}

  lemma {:induction false} NextTreesShape(row: seq<Tree>, depth: nat)
    requires RowShape(row, depth)
    ensures RowShape(NextTrees(row), depth + 1)
  {
    if |row| >= 2 {
      var next, rest := NextTrees(row), NextTrees(row[2..]);
      NextTreesShape(row[2..], depth);
      assert next[0] == Pair(row[0], row[1]) && forall i :: 1 <= i < |next| ==> next[i] == rest[i - 1];
      if |row| > 2 {
        FullIsRightEdge(row[1]);
        assert Full(row[1]) && RightEdge(rest[|rest| - 1]);
      }
    }
  }

  lemma {:induction false} NextTreesHashes(H: Hasher, row: seq<Tree>)
    ensures Hashes(H, NextTrees(row)) == NextRow(H, Hashes(H, row))
  {
    if |row| >= 2 {
      NextTreesHashes(H, row[2..]);
      assert Hashes(H, row)[2..] == Hashes(H, row[2..]);
      assert Hashes(H, NextTrees(row)) == [Hash(H, Pair(row[0], row[1]))] + Hashes(H, NextTrees(row[2..]));
    }
  }

  lemma {:induction false} NextTreesLeaves(row: seq<Tree>)
    ensures AllLeaves(NextTrees(row)) == AllLeaves(row)
    ensures AllMatched(NextTrees(row)) == AllMatched(row)
  {
    if |row| == 1 {
      assert NextTrees(row)[1..] == row[1..] == [];
    } else if |row| >= 2 {
      NextTreesLeaves(row[2..]);
      assert NextTrees(row)[1..] == NextTrees(row[2..]);
      assert row[1..][1..] == row[2..];
    }
  }

  lemma {:induction false} BuildShape(row: seq<Tree>, depth: nat)
    requires |row| > 0 && RowShape(row, depth)
    ensures Uniform(Build(row), depth + Height(|row|)) && RightEdge(Build(row))
    decreases |row|
  {
    if |row| > 1 {
      NextTreesShape(row, depth);
      BuildShape(NextTrees(row), depth + 1);
    }
  }

  lemma {:induction false} BuildContents(H: Hasher, row: seq<Tree>)
    requires |row| > 0
    ensures Hash(H, Build(row)) == MerkleRoot(H, Hashes(H, row))
    ensures Leaves(Build(row)) == AllLeaves(row)
    ensures MatchedTxs(Build(row)) == AllMatched(row)
    decreases |row|
  {
    if |row| == 1 {
      assert row[1..] == [];
    } else {
      NextTreesHashes(H, row);
      NextTreesLeaves(row);
      BuildContents(H, NextTrees(row));
    }
  }

  lemma {:induction false} LeafRowFacts(txs: seq<UInt256>, matches: seq<bool>)
    requires |txs| == |matches|
    ensures AllLeaves(LeafRow(txs, matches)) == txs
    ensures AllMatched(LeafRow(txs, matches)) == Select(txs, matches)
  {
    if txs != [] {
      LeafRowFacts(txs[1..], matches[1..]);
      assert LeafRow(txs, matches)[1..] == LeafRow(txs[1..], matches[1..]);
    }
  }

  /** The tree a block's transactions build: its depth, its root, and the matched transactions in block order. */
  lemma {:induction false} BlockTreeFacts(H: Hasher, txs: seq<UInt256>, matches: seq<bool>)
    requires |txs| == |matches| > 0
    ensures var t := BlockTree(txs, matches);
      && Uniform(t, Height(|txs|)) && RightEdge(t)
      && Hash(H, t) == MerkleRoot(H, txs)
      && Leaves(t) == txs
      && MatchedTxs(t) == Select(txs, matches)
  {
    var row := LeafRow(txs, matches);
    BuildShape(row, 0);
    BuildContents(H, row);
    LeafRowFacts(txs, matches);
    assert Hashes(H, row) == txs;
  }

  // ---------- BIP37 encoding ----------

  /** One flag per traversed node in depth-first order; children of an unmatched node are not traversed. */
  function EncodeFlags(t: Tree): (flags: seq<bool>)
    ensures |flags| > 0
  {
    if t.Leaf? || !Matched(t) then [Matched(t)]
    else if t.Lone? then [true] + EncodeFlags(t.left)
    else [true] + (EncodeFlags(t.left) + EncodeFlags(t.right))
  }

  /** The hash of every traversed node that is a leaf or is unmatched, in the same order. */
  function EncodeHashes(H: Hasher, t: Tree): (hashes: seq<UInt256>)
    ensures |hashes| > 0
  {
    if t.Leaf? || !Matched(t) then [Hash(H, t)]
    else if t.Lone? then EncodeHashes(H, t.left)
    else EncodeHashes(H, t.left) + EncodeHashes(H, t.right)
  }

  function PackByte(bits: seq<bool>): bv8
    requires |bits| <= 8
  {
    if bits == [] then 0 else (PackByte(bits[1..]) << 1) | (if bits[0] then 1 else 0)
  }

  /** Flags packed eight to a byte, least significant bit first, the last byte padded with zeros. */
  function PackFlags(bits: seq<bool>): (bytes: seq<bv8>)
    ensures |bytes| == (|bits| + 7) / 8
  {
    if |bits| == 0 then []
    else if |bits| <= 8 then [PackByte(bits)]
    else [PackByte(bits[..8])] + PackFlags(bits[8..])
  }

  /** `1 << k` */
  function Mask(k: nat): bv8
    requires k < 8
  {
    if k == 0 then 0x01 else if k == 1 then 0x02 else if k == 2 then 0x04 else if k == 3 then 0x08
    else if k == 4 then 0x10 else if k == 5 then 0x20 else if k == 6 then 0x40 else 0x80
  }

  predicate BitOf(byte: bv8, k: nat)
    requires k < 8
  {
    byte & Mask(k) != 0
  }

  lemma ShiftBit(x: bv8, b: bv8, k: nat)
    requires k < 8 && b <= 1
    ensures BitOf((x << 1) | b, k) == if k == 0 then b == 1 else BitOf(x, k - 1)
  {}

  lemma {:induction false} PackByteBit(bits: seq<bool>, k: nat)
    requires |bits| <= 8 && k < |bits|
    ensures BitOf(PackByte(bits), k) == bits[k]
  {
    var rest := PackByte(bits[1..]);
    var b: bv8 := if bits[0] then 1 else 0;
    ShiftBit(rest, b, k);
    if k > 0 {
      PackByteBit(bits[1..], k - 1);
    }
  }

  lemma {:induction false} PackFlagsBit(bits: seq<bool>, i: nat)
    requires i < |bits|
    ensures BitOf(PackFlags(bits)[i / 8], i % 8) == bits[i]
    decreases |bits|
  {
    hide BitOf, PackByte;
    if |bits| <= 8 {
      PackByteBit(bits, i);
    } else if i < 8 {
      PackByteBit(bits[..8], i);
    } else {
      PackFlagsBit(bits[8..], i - 8);
      assert (i - 8) / 8 == i / 8 - 1 && (i - 8) % 8 == i % 8;
    }
  }
}
