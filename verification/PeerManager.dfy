/** The chain of blocks, and what a relayed block does to it and to the wallet (BRPeerManager.c). */
module PeerManager {
  import opened BlockChain
  import opened Freshness
  import opened Ledger
  import opened Lockstep
  import opened Transaction
  import opened TxOrder
  import opened Wallet

  /** What became of a relayed block; `Dropped` covers orphans, whose keeping is not modelled, and old forks. */
  datatype Outcome = Dropped | Extended | Existing | Fork | Reorganised

  /** The stored blocks with a relayed one, whose height the block before it determines. */
  function Added(blocks: BlockMap, relayed: Block): BlockMap
    requires relayed.prev in blocks
  {
    blocks[relayed.hash := relayed.(height := blocks[relayed.prev].height + 1)]
  }

  /**
   A block is identified by its hash, so that a stored copy of it stands on the same block; heights fit; and the
   chains share a stored ancestor, no higher than the block.
  */
  ghost predicate Plausible(blocks: BlockMap, relayed: Block, lastBlock: Hash)
    requires relayed.prev in blocks
  {
    var after := Added(blocks, relayed);
    && Linked(after) && (relayed.hash in blocks ==> blocks[relayed.hash].prev == relayed.prev)
    && exists a :: IsAncestor(after, a, relayed.hash) && IsAncestor(after, a, lastBlock)
  }

  class PeerManager {
    const wallet: Wallet
    var blocks: BlockMap
    var lastBlock: Hash

    constructor (wallet: Wallet, genesis: Block)
      ensures this.wallet == wallet && blocks == map[genesis.hash := genesis] && lastBlock == genesis.hash
    {
      this.wallet := wallet;
      blocks, lastBlock := map[genesis.hash := genesis], genesis.hash;
    }

    ghost predicate Valid(rank: Hash -> nat)
      reads this, wallet
    {
      && Linked(blocks) && lastBlock in blocks
      && wallet.Valid(rank) && AllTouch(wallet.allTx, wallet.allAddrs, wallet.transactions)
    }

    /** The recorded ledger is nearly fresh, and no listed transaction waits for a block height. */
    ghost predicate NearlyFresh(now: nat)
      reads wallet
    {
      wallet.NearlyFresh(now) && AllUnlocked(wallet.allTx, wallet.transactions)
    }

    /**
     It is, and it is fresh exactly if it is right about the outputs that pending transactions spend, of which there are
     none if every listed transaction can be confirmed at once.
    */
    ghost predicate FreshIfSwept(now: nat)
      reads wallet
    {
      && NearlyFresh(now)
      && (wallet.Fresh(now) <==> SweptRight(wallet.Current(), wallet.Environment(now), wallet.transactions))
      && (AllPrompt(wallet.allTx, wallet.transactions) ==> wallet.Fresh(now))
    }

    lemma WhenFresh(now: nat)
      requires NearlyFresh(now)
      ensures FreshIfSwept(now)
    {
      hide AllUnlocked, SweptRight, AllPrompt;
      NearlyFreshIs(wallet.Current(), wallet.Environment(now), wallet.transactions);
      if AllPrompt(wallet.allTx, wallet.transactions) {
        PromptRight(wallet.Current(), wallet.Environment(now), wallet.transactions);
      }
    }

    /** Walks back from both tips to where the branches join. */
    method FindJoin(top: Hash, last: Hash) returns (join: Hash)
      requires Linked(blocks) && top in blocks && last in blocks && blocks[top].height >= blocks[last].height
      requires exists a :: IsAncestor(blocks, a, top) && IsAncestor(blocks, a, last)
      ensures IsJoin(blocks, top, last, join)
    {
      var b, b2 := top, last;
      while b in blocks && b2 in blocks && b != b2
        invariant b in blocks && b2 in blocks
        invariant IsAncestor(blocks, b, top) && IsAncestor(blocks, b2, last)
        invariant blocks[b].height >= blocks[b2].height
        invariant forall a :: IsAncestor(blocks, a, top) && IsAncestor(blocks, a, last) ==>
          IsAncestor(blocks, a, b) && IsAncestor(blocks, a, b2)
        decreases blocks[b].height
      {
        StepDown(blocks, top, last, b, b2);
        b := blocks[b].prev;
        if b in blocks && blocks[b].height < blocks[b2].height { b2 := blocks[b2].prev; }
      }
      join := b;
    }

    method UpdateTx(txHashes: seq<Hash>, height: nat, timestamp: nat, now: nat, ghost rank: Hash -> nat)
      requires Valid(rank)
      modifies wallet
      ensures Valid(rank) && multiset(wallet.transactions) == multiset(old(wallet.transactions))
      ensures wallet.allTx == Updated(old(wallet.allTx), wallet.allAddrs, txHashes, height, timestamp)
      ensures wallet.allAddrs == old(wallet.allAddrs)
      ensures old(NearlyFresh(now)) && height < TX_UNCONFIRMED ==> NearlyFresh(now)
    {
      hide AllUnlocked, PendingKept, Run, Updated, Reconsidered, Touches, IsFresh, IsNearlyFresh, SweepKept;
      ghost var was, list, env := wallet.allTx, wallet.transactions, wallet.Environment(now);
      if |txHashes| > 0 {
        AllChangedTouch(was, wallet.allAddrs, list, txHashes, height, timestamp);
        wallet.UpdateTransactions(txHashes, height, timestamp, now, rank);
        if old(NearlyFresh(now)) && height < TX_UNCONFIRMED {
          UpdatedUnlocked(was, wallet.allAddrs, txHashes, height, timestamp, list, wallet.transactions);
          UnlockedKept(env, list, wallet.Environment(now));
        }
      } else {
        NothingUpdated(wallet.allTx, wallet.allAddrs, height, timestamp);
      }
    }

    /** The transactions of the new branch get the heights of their blocks. */
    method ConfirmBranch(top: Hash, join: Hash, ghost was: TxMap, ghost list: seq<Hash>, now: nat, ghost rank: Hash -> nat)
      requires Valid(rank) && join in blocks && IsAncestor(blocks, join, top)
      requires multiset(wallet.transactions) == multiset(list)
      requires AllSettled(was, list, wallet.allTx, blocks, top, top, blocks[join].height)
      modifies wallet
      ensures Valid(rank) && multiset(wallet.transactions) == multiset(list)
      ensures AllSettled(was, list, wallet.allTx, blocks, top, join, blocks[join].height)
      ensures old(NearlyFresh(now)) ==> NearlyFresh(now)
    {
      hide AllSettled, AllTouch, Acyclic, Known, Sorted, Updated, NearlyFresh, FreshIfSwept;
      var b := top;
      while b in blocks && blocks[b].height > blocks[join].height
        invariant b in blocks && IsAncestor(blocks, join, b) && IsAncestor(blocks, b, top)
        invariant Valid(rank) && multiset(wallet.transactions) == multiset(list)
        invariant AllSettled(was, list, wallet.allTx, blocks, top, b, blocks[join].height)
        invariant old(NearlyFresh(now)) ==> NearlyFresh(now)
        decreases blocks[b].height
      {
        var height, timestamp, txHashes := blocks[b].height, blocks[b].timestamp, blocks[b].txHashes;
        ParentIsAncestor(blocks, b, top);
        SettledWith(was, list, wallet.transactions, wallet.allTx, wallet.allAddrs, blocks, top, b, blocks[join].height);
        b := blocks[b].prev;
        if b in blocks { timestamp := timestamp / 2 + blocks[b].timestamp / 2; }
        UpdateTx(txHashes, height, timestamp, now, rank);
      }
      AncestorLower(blocks, join, b);
    }

    /** The branch of `block`, which passes the height of the last block, becomes the main chain. */
    method Reorganise(block: Block, now: nat, ghost rank: Hash -> nat) returns (ghost join: Hash)
      requires Valid(rank) && block.hash in blocks && blocks[block.hash] == block
      requires block.height > blocks[lastBlock].height
      requires exists a :: IsAncestor(blocks, a, block.hash) && IsAncestor(blocks, a, lastBlock)
      modifies `lastBlock, wallet
      ensures Valid(rank) && lastBlock == block.hash && IsJoin(blocks, block.hash, old(lastBlock), join)
      ensures multiset(wallet.transactions) == multiset(old(wallet.transactions))
      ensures AllSettled(old(wallet.allTx), old(wallet.transactions), wallet.allTx, blocks, block.hash, join,
                         blocks[join].height)
      ensures old(NearlyFresh(now)) ==> FreshIfSwept(now)
    {
      hide AllSettled, AllTouch, Acyclic, Sorted, Unconfirmed, AllUnlocked, PendingKept, SweepKept, Run, NearlyAgrees, Agree,
           InOrder, FreshIfSwept;
      ghost var env := wallet.Environment(now);
      ghost var was, list := wallet.allTx, wallet.transactions;
      var j := FindJoin(block.hash, lastBlock);
      AncestorLower(blocks, j, block.hash);
      wallet.SetTxUnconfirmedAfter(blocks[j].height, now, rank);
      SettledAtTop(was, list, blocks, block.hash, blocks[j].height);
      if old(NearlyFresh(now)) {
        UnconfirmedUnlocked(was, list, blocks[j].height);
        UnlockedKept(env, list, wallet.Environment(now));
      }
      ConfirmBranch(block.hash, j, was, list, now, rank);
      lastBlock := block.hash;
      join := j;
      if old(NearlyFresh(now)) { WhenFresh(now); }
    }

    /** Whether a stored block is on the main chain. */
    method IsOnMainChain(h: Hash) returns (r: bool)
      requires Linked(blocks) && lastBlock in blocks && h in blocks
      requires exists a :: IsAncestor(blocks, a, lastBlock) && a in blocks && blocks[a].height <= blocks[h].height
      ensures r == IsAncestor(blocks, h, lastBlock)
    {
      ghost var a :| IsAncestor(blocks, a, lastBlock) && a in blocks && blocks[a].height <= blocks[h].height;
      var b := lastBlock;
      while b in blocks && blocks[b].height > blocks[h].height
        invariant b in blocks && IsAncestor(blocks, b, lastBlock) && IsAncestor(blocks, a, b)
        invariant IsAncestor(blocks, h, lastBlock) == IsAncestor(blocks, h, b)
        decreases blocks[b].height
      {
        ParentIsAncestor(blocks, b, lastBlock);
        b := blocks[b].prev;
      }
      r := b == h;
      if IsAncestor(blocks, h, b) { AncestorLower(blocks, h, b); }
    }

    /** A block that is already stored: if it is on the main chain its transactions get their heights. */
    method RelayedExisting(relayed: Block, now: nat, ghost rank: Hash -> nat)
      requires Valid(rank) && relayed.prev in blocks && relayed.hash in blocks && Plausible(blocks, relayed, lastBlock)
      modifies this, wallet
      ensures Valid(rank) && blocks == Added(old(blocks), relayed) && lastBlock == old(lastBlock)
      ensures blocks[lastBlock].height == old(blocks[lastBlock].height)
      ensures multiset(wallet.transactions) == multiset(old(wallet.transactions))
      ensures wallet.allTx == if IsAncestor(blocks, relayed.hash, lastBlock)
        then Updated(old(wallet.allTx), wallet.allAddrs, relayed.txHashes, blocks[relayed.hash].height,
                     BlockTime(blocks, relayed.hash))
        else old(wallet.allTx)
      ensures old(NearlyFresh(now)) ==> FreshIfSwept(now)
    {
      hide AllTouch, Acyclic, Known, Sorted, IsAncestor, Updated, NearlyFresh, FreshIfSwept;
      var prev := blocks[relayed.prev];
      var txTime := relayed.timestamp / 2 + prev.timestamp / 2;
      var block := relayed.(height := prev.height + 1);
      ReplacedBlock(blocks, relayed, lastBlock);
      var onMain := IsOnMainChain(block.hash);
      blocks := blocks[block.hash := block];
      if onMain {
        UpdateTx(block.txHashes, block.height, txTime, now, rank);
        if block.height == blocks[lastBlock].height {
          AncestorLower(blocks, block.hash, lastBlock);
          lastBlock := block.hash;
        }
      }
      if old(NearlyFresh(now)) { WhenFresh(now); }
    }

    /** A block on the last one. */
    method RelayedNext(relayed: Block, now: nat, ghost rank: Hash -> nat)
      requires Valid(rank) && relayed.prev == lastBlock && Linked(Added(blocks, relayed))
      modifies this, wallet
      ensures Valid(rank) && blocks == Added(old(blocks), relayed) && lastBlock == relayed.hash
      ensures multiset(wallet.transactions) == multiset(old(wallet.transactions))
      ensures wallet.allTx == Updated(old(wallet.allTx), wallet.allAddrs, relayed.txHashes,
                                      blocks[relayed.hash].height, BlockTime(blocks, relayed.hash))
      ensures old(NearlyFresh(now)) ==> FreshIfSwept(now)
    {
      hide AllTouch, Acyclic, Known, Sorted, Updated, NearlyFresh, FreshIfSwept;
      var prev := blocks[relayed.prev];
      var txTime := relayed.timestamp / 2 + prev.timestamp / 2;
      var block := relayed.(height := prev.height + 1);
      blocks := blocks[block.hash := block];
      lastBlock := block.hash;
      UpdateTx(block.txHashes, block.height, txTime, now, rank);
      if old(NearlyFresh(now)) { WhenFresh(now); }
    }

    /** A new block on another block than the last one. */
    method RelayedFork(relayed: Block, now: nat, ghost rank: Hash -> nat) returns (outcome: Outcome, ghost join: Hash)
      requires Valid(rank) && relayed.prev in blocks && relayed.hash !in blocks && Plausible(blocks, relayed, lastBlock)
      modifies this, wallet
      ensures Valid(rank) && blocks == Added(old(blocks), relayed)
      ensures multiset(wallet.transactions) == multiset(old(wallet.transactions))
      ensures outcome.Fork? || outcome.Reorganised?
      ensures outcome.Fork? ==>
        && wallet.allTx == old(wallet.allTx) && lastBlock == old(lastBlock)
        && blocks[relayed.hash].height <= blocks[lastBlock].height == old(blocks[lastBlock].height)
      ensures outcome.Reorganised? ==>
        && lastBlock == relayed.hash && blocks[lastBlock].height > old(blocks[lastBlock].height)
        && IsJoin(blocks, relayed.hash, old(lastBlock), join)
        && AllSettled(old(wallet.allTx), old(wallet.transactions), wallet.allTx, blocks, relayed.hash, join,
                      blocks[join].height)
      ensures old(NearlyFresh(now)) ==> FreshIfSwept(now)
    {
      hide AllSettled, AllTouch, Acyclic, Known, Sorted, IsAncestor, IsJoin, NearlyFresh, FreshIfSwept;
      join := 0;
      if old(NearlyFresh(now)) { WhenFresh(now); }
      var block := relayed.(height := blocks[relayed.prev].height + 1);
      blocks := blocks[block.hash := block];
      if block.height > blocks[lastBlock].height {
        join := Reorganise(block, now, rank);
        outcome := Reorganised;
      } else {
        outcome := Fork;
      }
    }

    /** `_peerRelayedBlock`, from the look-up of the previous block to the end of the case distinction on it. */
    method RelayedBlock(relayed: Block, peerLastBlock: nat, checkpointHeight: nat, now: nat, ghost rank: Hash -> nat)
      returns (outcome: Outcome, ghost join: Hash)
      requires Valid(rank) && (relayed.prev in blocks ==> Plausible(blocks, relayed, lastBlock))
      modifies this, wallet
      ensures Valid(rank) && blocks[lastBlock].height >= old(blocks[lastBlock].height)
      ensures multiset(wallet.transactions) == multiset(old(wallet.transactions))
      ensures outcome.Dropped? <==>
        (|| relayed.prev !in old(blocks)
         || (&& relayed.prev != old(lastBlock) && relayed.hash !in old(blocks)
             && var height := old(blocks)[relayed.prev].height + 1;
                ((old(blocks[lastBlock].height) < peerLastBlock && height > old(blocks[lastBlock].height) + 1)
                 || height <= checkpointHeight)))
      ensures blocks == if outcome.Dropped? then old(blocks) else Added(old(blocks), relayed)
      ensures outcome.Extended? ==> relayed.prev == old(lastBlock) && lastBlock == relayed.hash
      ensures outcome.Existing? ==> relayed.hash in old(blocks) && lastBlock == old(lastBlock)
      ensures outcome.Dropped? || outcome.Fork? ==> wallet.allTx == old(wallet.allTx) && lastBlock == old(lastBlock)
      ensures outcome.Fork? ==> blocks[relayed.hash].height <= blocks[lastBlock].height
      ensures outcome.Extended? || (outcome.Existing? && IsAncestor(blocks, relayed.hash, lastBlock)) ==>
        wallet.allTx == Updated(old(wallet.allTx), wallet.allAddrs, relayed.txHashes,
                                blocks[relayed.hash].height, BlockTime(blocks, relayed.hash))
      ensures outcome.Existing? && !IsAncestor(blocks, relayed.hash, lastBlock) ==> wallet.allTx == old(wallet.allTx)
      ensures outcome.Reorganised? ==>
        && lastBlock == relayed.hash && blocks[lastBlock].height > old(blocks[lastBlock].height)
        && IsJoin(blocks, relayed.hash, old(lastBlock), join)
        && AllSettled(old(wallet.allTx), old(wallet.transactions), wallet.allTx, blocks, relayed.hash, join,
                      blocks[join].height)
      ensures old(NearlyFresh(now)) ==> FreshIfSwept(now)
    {
      hide AllSettled, AllTouch, Acyclic, Known, Sorted, IsAncestor, IsJoin, Updated, NearlyFresh, FreshIfSwept;
      join := 0;
      if old(NearlyFresh(now)) { WhenFresh(now); }
      if relayed.prev !in blocks { return Dropped, 0; }
      var prev := blocks[relayed.prev];
      var block := relayed.(height := prev.height + 1);
      if relayed.prev == lastBlock {
        RelayedNext(relayed, now, rank);
        outcome := Extended;
      } else if block.hash in blocks {
        RelayedExisting(relayed, now, rank);
        outcome := Existing;
      } else if blocks[lastBlock].height < peerLastBlock && block.height > blocks[lastBlock].height + 1 {
        outcome := Dropped;
      } else if block.height <= checkpointHeight {
        outcome := Dropped;
      } else {
        outcome, join := RelayedFork(relayed, now, rank);
      }
    }
  }

  /** Another copy of a stored block leaves the tree as it is. */
  lemma ReplacedBlock(blocks: BlockMap, relayed: Block, lastBlock: Hash)
    requires Linked(blocks) && relayed.prev in blocks && relayed.hash in blocks && lastBlock in blocks
    requires Plausible(blocks, relayed, lastBlock)
    ensures forall a, h :: IsAncestor(Added(blocks, relayed), a, h) == IsAncestor(blocks, a, h)
    ensures exists a :: IsAncestor(blocks, a, lastBlock) && a in blocks && blocks[a].height <= blocks[relayed.hash].height
  {
    var after := Added(blocks, relayed);
    forall a, h
      ensures IsAncestor(after, a, h) == IsAncestor(blocks, a, h)
    {
      SameTree(blocks, after, a, h);
    }
    var a :| IsAncestor(after, a, relayed.hash) && IsAncestor(after, a, lastBlock);
    AncestorLower(blocks, a, relayed.hash);
  }

  lemma {:induction false} SameTree(blocks: BlockMap, after: BlockMap, a: Hash, h: Hash)
    requires Linked(blocks) && Linked(after) && blocks.Keys == after.Keys
    requires forall k :: k in blocks ==> blocks[k].prev == after[k].prev
    ensures IsAncestor(after, a, h) == IsAncestor(blocks, a, h)
    decreases if h in blocks then blocks[h].height else 0
  {
    if h in blocks && blocks[h].prev in blocks {
      SameTree(blocks, after, a, blocks[h].prev);
    }
  }

  /** `SettledStep` for a list that only its order sets apart. */
  lemma SettledWith(before: TxMap, list: seq<Hash>, txs: seq<Hash>, after: TxMap, allAddrs: set<Address>,
                    blocks: BlockMap, top: Hash, b: Hash, joinHeight: nat)
    requires Linked(blocks) && IsAncestor(blocks, b, top) && b in blocks && blocks[b].prev in blocks
    requires AllSettled(before, list, after, blocks, top, b, joinHeight)
    requires multiset(txs) == multiset(list) && AllTouch(after, allAddrs, txs)
    ensures IsAncestor(blocks, blocks[b].prev, top)
    ensures AllSettled(before, list, Updated(after, allAddrs, blocks[b].txHashes, blocks[b].height, BlockTime(blocks, b)),
                       blocks, top, blocks[b].prev, joinHeight)
  {
    SameMembers(txs, list);
    hide Touches;
    SettledStep(before, list, after, allAddrs, blocks, top, b, joinHeight);
  }

  /** While the tips differ, every common ancestor is below the higher one, and below both once they are level. */
  lemma StepDown(blocks: BlockMap, top: Hash, last: Hash, b: Hash, b2: Hash)
    requires Linked(blocks) && IsAncestor(blocks, b, top) && IsAncestor(blocks, b2, last) && b != b2
    requires b in blocks && b2 in blocks && blocks[b].height >= blocks[b2].height
    requires exists a :: IsAncestor(blocks, a, top) && IsAncestor(blocks, a, last)
    requires forall a :: IsAncestor(blocks, a, top) && IsAncestor(blocks, a, last) ==>
      IsAncestor(blocks, a, b) && IsAncestor(blocks, a, b2)
    ensures blocks[b].prev in blocks && IsAncestor(blocks, blocks[b].prev, top)
    ensures forall a :: IsAncestor(blocks, a, top) && IsAncestor(blocks, a, last) ==>
      IsAncestor(blocks, a, blocks[b].prev)
    ensures blocks[b].height == blocks[b2].height ==>
      && blocks[b2].prev in blocks && IsAncestor(blocks, blocks[b2].prev, last)
      && forall a :: IsAncestor(blocks, a, top) && IsAncestor(blocks, a, last) ==> IsAncestor(blocks, a, blocks[b2].prev)
  {
    forall a | IsAncestor(blocks, a, top) && IsAncestor(blocks, a, last)
      ensures a != b && (blocks[b].height == blocks[b2].height ==> a != b2)
    {
      AncestorLower(blocks, a, b);
      AncestorLower(blocks, a, b2);
    }
    ParentIsAncestor(blocks, b, top);
    if blocks[b].height == blocks[b2].height { ParentIsAncestor(blocks, b2, last); }
  }

  lemma ParentIsAncestor(blocks: BlockMap, b: Hash, h: Hash)
    requires Linked(blocks) && IsAncestor(blocks, b, h) && b in blocks && blocks[b].prev in blocks
    ensures IsAncestor(blocks, blocks[b].prev, h)
  {
    var p := blocks[b].prev;
    assert IsAncestor(blocks, p, p);
    assert IsAncestor(blocks, p, b);
    AncestorChain(blocks, p, b, h);
  }
}
