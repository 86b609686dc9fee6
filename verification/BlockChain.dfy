/** The tree of stored blocks, and what confirms a transaction on a branch of it. */
module BlockChain {
  import opened Transaction
  import opened TxOrder
  import opened Wrappers

  /** `txHashes` are the matched transactions of the block. */
  datatype Block = Block(hash: Hash, prev: Hash, height: nat, timestamp: nat, txHashes: seq<Hash>)

  type BlockMap = map<Hash, Block>

  /** Blocks are stored under their own hashes, and each is one higher than the block before it. */
  predicate Linked(blocks: BlockMap) {
    forall h :: h in blocks ==>
      && blocks[h].hash == h && blocks[h].height < TX_UNCONFIRMED
      && (blocks[h].prev in blocks ==> blocks[h].height == blocks[blocks[h].prev].height + 1)
  }

  /** `a` is `h` or a stored block below it. */
  predicate IsAncestor(blocks: BlockMap, a: Hash, h: Hash)
    requires Linked(blocks)
    decreases if h in blocks then blocks[h].height else 0
  {
    h in blocks && (a == h || (blocks[h].prev in blocks && IsAncestor(blocks, a, blocks[h].prev)))
  }

  lemma {:induction false} AncestorLower(blocks: BlockMap, a: Hash, h: Hash)
    requires Linked(blocks) && IsAncestor(blocks, a, h)
    ensures a in blocks && blocks[a].height <= blocks[h].height && (blocks[a].height == blocks[h].height ==> a == h)
    decreases blocks[h].height
  {
    if a != h {
      AncestorLower(blocks, a, blocks[h].prev);
    }
  }

  lemma {:induction false} AncestorChain(blocks: BlockMap, a: Hash, b: Hash, h: Hash)
    requires Linked(blocks) && IsAncestor(blocks, a, b) && IsAncestor(blocks, b, h)
    ensures IsAncestor(blocks, a, h)
    decreases blocks[h].height
  {
    if b != h {
      AncestorChain(blocks, a, b, blocks[h].prev);
    }
  }

  /** `j` is the highest block that both `x` and `y` descend from. */
  ghost predicate IsJoin(blocks: BlockMap, x: Hash, y: Hash, j: Hash)
    requires Linked(blocks)
  {
    && j in blocks && IsAncestor(blocks, j, x) && IsAncestor(blocks, j, y)
    && forall a :: IsAncestor(blocks, a, x) && IsAncestor(blocks, a, y) ==> IsAncestor(blocks, a, j)
  }

  /** The time given to the transactions of a block: halfway from the block before it. */
  function BlockTime(blocks: BlockMap, h: Hash): nat
    requires h in blocks
  {
    var b := blocks[h];
    if b.prev in blocks then b.timestamp / 2 + blocks[b.prev].timestamp / 2 else b.timestamp
  }

  /** Halfway between the block and the one before, but for the two bits that halving drops. */
  lemma BlockTimeHalfway(blocks: BlockMap, h: Hash)
    requires h in blocks
    ensures var t, b := BlockTime(blocks, h), blocks[h];
      if b.prev in blocks then var sum := b.timestamp + blocks[b.prev].timestamp; sum - 2 <= 2 * t <= sum
      else t == b.timestamp
  {}

  /** `a` is `top` or below it, and above `stop`. */
  predicate OnBranch(blocks: BlockMap, top: Hash, stop: Hash, a: Hash)
    requires Linked(blocks)
  {
    IsAncestor(blocks, stop, a) && IsAncestor(blocks, a, top) && a != stop
  }

  /** The height and time of the lowest block from `top` down to, and without, `stop` that holds a transaction. */
  function Confirmation(blocks: BlockMap, top: Hash, stop: Hash, h: Hash): Option<(nat, nat)>
    requires Linked(blocks) && IsAncestor(blocks, stop, top)
    decreases blocks[top].height
  {
    if top == stop then None
    else
      var c := Confirmation(blocks, blocks[top].prev, stop, h);
      if c.Some? then c
      else if h in blocks[top].txHashes then Some((blocks[top].height, BlockTime(blocks, top)))
      else None
  }

  /** Going down by one more block. */
  lemma {:induction false} ConfirmationStep(blocks: BlockMap, top: Hash, b: Hash, h: Hash)
    requires Linked(blocks) && IsAncestor(blocks, b, top) && b in blocks && blocks[b].prev in blocks
    ensures IsAncestor(blocks, blocks[b].prev, top)
    ensures Confirmation(blocks, top, blocks[b].prev, h) ==
            if h in blocks[b].txHashes then Some((blocks[b].height, BlockTime(blocks, b)))
            else Confirmation(blocks, top, b, h)
    decreases blocks[top].height
  {
    var p := blocks[b].prev;
    AncestorLower(blocks, b, top);
    assert IsAncestor(blocks, p, p);
    if b != top {
      ConfirmationStep(blocks, blocks[top].prev, b, h);
    } else {
      assert Confirmation(blocks, p, p, h) == None;
    }
  }

  /** A transaction of a block on the branch is confirmed at or below that block, and above the join. */
  lemma {:induction false} ConfirmationIs(blocks: BlockMap, top: Hash, stop: Hash, h: Hash, b: Hash)
    requires Linked(blocks) && OnBranch(blocks, top, stop, b) && h in blocks[b].txHashes
    requires forall a :: OnBranch(blocks, top, stop, a) && h in blocks[a].txHashes ==> a == b
    ensures IsAncestor(blocks, stop, top)
    ensures Confirmation(blocks, top, stop, h) == Some((blocks[b].height, BlockTime(blocks, b)))
    decreases blocks[top].height
  {
    AncestorChain(blocks, stop, b, top);
    AncestorLower(blocks, stop, b);
    AncestorLower(blocks, b, top);
    var p := blocks[top].prev;
    if b != top {
      forall a | IsAncestor(blocks, stop, a) && IsAncestor(blocks, a, p)
        ensures IsAncestor(blocks, a, top)
      {
        AncestorLower(blocks, a, p);
      }
      ConfirmationIs(blocks, p, stop, h, b);
    } else {
      NotConfirmed(blocks, p, top, stop, h, b);
    }
  }

  lemma {:induction false} NotConfirmed(blocks: BlockMap, x: Hash, top: Hash, stop: Hash, h: Hash, b: Hash)
    requires Linked(blocks) && IsAncestor(blocks, stop, x) && IsAncestor(blocks, x, top) && b in blocks
    requires blocks[x].height < blocks[b].height
    requires forall a :: OnBranch(blocks, top, stop, a) && h in blocks[a].txHashes ==> a == b
    ensures Confirmation(blocks, x, stop, h) == None
    decreases blocks[x].height
  {
    if x != stop {
      var p := blocks[x].prev;
      assert IsAncestor(blocks, p, x) by { assert IsAncestor(blocks, p, p); }
      AncestorChain(blocks, p, x, top);
      NotConfirmed(blocks, p, top, stop, h, b);
    }
  }

  // ---------- What a reorganisation does to one transaction ----------

  /** Confirmed where the new branch says; otherwise unconfirmed if it was above the join, and else unchanged. */
  function Settled(tx: Tx, joinHeight: nat, c: Option<(nat, nat)>): Tx {
    match c
    case Some((height, timestamp)) => WithHeight(tx, height, timestamp)
    case None => if tx.blockHeight > joinHeight then tx.(blockHeight := TX_UNCONFIRMED) else tx
  }

  ghost predicate AllSettled(before: TxMap, txs: seq<Hash>, after: TxMap, blocks: BlockMap, top: Hash, stop: Hash,
                             joinHeight: nat)
    requires Linked(blocks) && IsAncestor(blocks, stop, top)
  {
    forall h :: h in txs ==>
      h in before && h in after && after[h] == Settled(before[h], joinHeight, Confirmation(blocks, top, stop, h))
  }

  lemma SettledAtTop(before: TxMap, txs: seq<Hash>, blocks: BlockMap, top: Hash, joinHeight: nat)
    requires Linked(blocks) && top in blocks && Known(before, txs)
    ensures IsAncestor(blocks, top, top)
    ensures AllSettled(before, txs, Unconfirmed(before, txs, joinHeight), blocks, top, top, joinHeight)
  {}

  /** Updating the transactions of one block settles them. */
  lemma SettledStep(before: TxMap, txs: seq<Hash>, after: TxMap, allAddrs: set<Address>, blocks: BlockMap, top: Hash,
                    b: Hash, joinHeight: nat)
    requires Linked(blocks) && IsAncestor(blocks, b, top) && b in blocks && blocks[b].prev in blocks
    requires AllSettled(before, txs, after, blocks, top, b, joinHeight) && AllTouch(after, allAddrs, txs)
    ensures IsAncestor(blocks, blocks[b].prev, top)
    ensures AllSettled(before, txs, Updated(after, allAddrs, blocks[b].txHashes, blocks[b].height, BlockTime(blocks, b)),
                       blocks, top, blocks[b].prev, joinHeight)
  {
    hide Touches;
    ConfirmationStep(blocks, top, b, b);
    forall h | h in txs
      ensures Confirmation(blocks, top, blocks[b].prev, h) ==
              if h in blocks[b].txHashes then Some((blocks[b].height, BlockTime(blocks, b)))
              else Confirmation(blocks, top, b, h)
    {
      ConfirmationStep(blocks, top, b, h);
    }
  }
}
