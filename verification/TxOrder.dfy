/** The order of the wallet's transaction list: by block height, and among equal heights by dependency and address. */
module TxOrder {
  import opened Transaction
  import opened Wrappers

  type TxMap = map<Hash, Tx>

  /** Transactions are known under their own hashes, and no transaction depends on itself. */
  ghost predicate Acyclic(allTx: TxMap, rank: Hash -> nat) {
    forall h :: h in allTx ==>
      && allTx[h].hash == h
      && forall i :: 0 <= i < |allTx[h].inputs| ==> rank(allTx[h].inputs[i].prev.hash) < rank(h)
  }

  /** `_BRWalletTxIsAscending`: tx1 belongs after tx2. */
  ghost predicate Ascending(allTx: TxMap, rank: Hash -> nat, tx1: Tx, tx2: Tx)
    requires Acyclic(allTx, rank) && tx1.hash in allTx && allTx[tx1.hash] == tx1
    decreases rank(tx1.hash)
  {
    if tx1.blockHeight > tx2.blockHeight then true
    else if tx1.blockHeight < tx2.blockHeight then false
    else if DependsOn(tx1, tx2.hash) then true
    else if DependsOn(tx2, tx1.hash) then false
    else exists i: nat :: i < |tx1.inputs| && AscendingParent(allTx, rank, tx1, i, tx2)
  }

  ghost predicate AscendingParent(allTx: TxMap, rank: Hash -> nat, tx1: Tx, i: nat, tx2: Tx)
    requires Acyclic(allTx, rank) && tx1.hash in allTx && allTx[tx1.hash] == tx1 && i < |tx1.inputs|
    decreases rank(tx1.hash), 0
  {
    var h := tx1.inputs[i].prev.hash;
    h in allTx && Ascending(allTx, rank, allTx[h], tx2)
  }

  predicate Pays(tx: Tx, a: Address) {
    exists j: nat :: j < |tx.outputs| && tx.outputs[j].address == a
  }

  /** The last position in the chain of an address that `tx` pays. */
  function ChainIndex(tx: Tx, chain: seq<Address>): (i: Option<nat>)
    ensures i.Some? ==> i.value < |chain| && Pays(tx, chain[i.value])
    ensures forall k: nat :: k < |chain| && Pays(tx, chain[k]) ==> i.Some? && k <= i.value
  {
    if chain == [] then None
    else if Pays(tx, chain[|chain| - 1]) then Some(|chain| - 1)
    else ChainIndex(tx, chain[..|chain| - 1])
  }

  function CompareByAddress(tx1: Tx, tx2: Tx, internalChain: seq<Address>, externalChain: seq<Address>): int {
    var i0 := ChainIndex(tx1, internalChain);
    var j := ChainIndex(tx2, if i0.None? then externalChain else internalChain);
    var i := if i0.None? && j.Some? then ChainIndex(tx1, externalChain) else i0;
    if i.Some? && j.Some? && i != j then (if i.value > j.value then 1 else -1) else 0
  }

  /** `_BRWalletTxCompare` */
  ghost function Compare(allTx: TxMap, rank: Hash -> nat, tx1: Tx, tx2: Tx, internalChain: seq<Address>,
                         externalChain: seq<Address>): int
    requires Acyclic(allTx, rank)
    requires tx1.hash in allTx && allTx[tx1.hash] == tx1 && tx2.hash in allTx && allTx[tx2.hash] == tx2
  {
    if Ascending(allTx, rank, tx1, tx2) then 1
    else if Ascending(allTx, rank, tx2, tx1) then -1
    else CompareByAddress(tx1, tx2, internalChain, externalChain)
  }

  // ---------- Lists ----------

  predicate Known(allTx: TxMap, txs: seq<Hash>) {
    && (forall i :: 0 <= i < |txs| ==> txs[i] in allTx)
    && (forall i, j :: 0 <= i < j < |txs| ==> txs[i] != txs[j])
  }

  /** The list is ordered by block height, oldest first. */
  predicate Sorted(allTx: TxMap, txs: seq<Hash>)
    requires Known(allTx, txs)
  {
    forall i, j :: 0 <= i < j < |txs| ==> allTx[txs[i]].blockHeight <= allTx[txs[j]].blockHeight
  }

  function Inserted(txs: seq<Hash>, h: Hash, at: nat): seq<Hash>
    requires at <= |txs|
  {
    txs[..at] + [h] + txs[at..]
  }

  /** Insertion sort puts `h` after the last transaction that does not belong after it. */
  ghost predicate InsertionPoint(allTx: TxMap, rank: Hash -> nat, txs: seq<Hash>, h: Hash, at: nat,
                                 internalChain: seq<Address>, externalChain: seq<Address>)
    requires Acyclic(allTx, rank) && Known(allTx, txs) && h in allTx
  {
    && at <= |txs|
    && (forall k :: at <= k < |txs| ==> Compare(allTx, rank, allTx[txs[k]], allTx[h], internalChain, externalChain) > 0)
    && (at > 0 ==> Compare(allTx, rank, allTx[txs[at - 1]], allTx[h], internalChain, externalChain) <= 0)
  }

  lemma CompareHeights(allTx: TxMap, rank: Hash -> nat, tx1: Tx, tx2: Tx, internalChain: seq<Address>,
                       externalChain: seq<Address>)
    requires Acyclic(allTx, rank)
    requires tx1.hash in allTx && allTx[tx1.hash] == tx1 && tx2.hash in allTx && allTx[tx2.hash] == tx2
    ensures var c := Compare(allTx, rank, tx1, tx2, internalChain, externalChain);
      && (tx1.blockHeight > tx2.blockHeight ==> c > 0)
      && (tx1.blockHeight < tx2.blockHeight ==> c < 0)
  {}

  /** Insertion keeps the list sorted by height. */
  lemma InsertSorted(allTx: TxMap, rank: Hash -> nat, txs: seq<Hash>, h: Hash, at: nat,
                     internalChain: seq<Address>, externalChain: seq<Address>)
    requires Acyclic(allTx, rank) && Known(allTx, txs) && h in allTx && h !in txs && Sorted(allTx, txs)
    requires InsertionPoint(allTx, rank, txs, h, at, internalChain, externalChain)
    ensures Known(allTx, Inserted(txs, h, at)) && Sorted(allTx, Inserted(txs, h, at))
  {
    forall k | 0 <= k < |txs|
      ensures k >= at ==> allTx[txs[k]].blockHeight >= allTx[h].blockHeight
      ensures k == at - 1 ==> allTx[txs[k]].blockHeight <= allTx[h].blockHeight
    {
      CompareHeights(allTx, rank, allTx[txs[k]], allTx[h], internalChain, externalChain);
    }
  }

  /** A transaction is never inserted before a listed parent at the same height. */
  lemma InsertAfterParent(allTx: TxMap, rank: Hash -> nat, txs: seq<Hash>, h: Hash, at: nat, k: nat,
                          internalChain: seq<Address>, externalChain: seq<Address>)
    requires Acyclic(allTx, rank) && Known(allTx, txs) && h in allTx
    requires InsertionPoint(allTx, rank, txs, h, at, internalChain, externalChain)
    requires k < |txs| && DependsOn(allTx[h], txs[k]) && allTx[txs[k]].blockHeight == allTx[h].blockHeight
    ensures k < at
  {
    var p, tx := allTx[txs[k]], allTx[h];
    assert rank(p.hash) < rank(h);
    assert !DependsOn(p, h);
    assert !Ascending(allTx, rank, p, tx) && Ascending(allTx, rank, tx, p);
  }

  /** The heights of known transactions do not fall from a transaction to one that spends it. */
  ghost predicate HeightsRise(allTx: TxMap) {
    forall h, i :: h in allTx && 0 <= i < |allTx[h].inputs| && allTx[h].inputs[i].prev.hash in allTx ==>
      allTx[allTx[h].inputs[i].prev.hash].blockHeight <= allTx[h].blockHeight
  }

  /** `h` spends outputs of `a`, or of a known transaction that does. */
  ghost predicate Descends(allTx: TxMap, rank: Hash -> nat, h: Hash, a: Hash)
    requires Acyclic(allTx, rank) && h in allTx
    decreases rank(h)
  {
    exists i: nat :: i < |allTx[h].inputs| && DescendsBy(allTx, rank, h, i, a)
  }

  ghost predicate DescendsBy(allTx: TxMap, rank: Hash -> nat, h: Hash, i: nat, a: Hash)
    requires Acyclic(allTx, rank) && h in allTx && i < |allTx[h].inputs|
    decreases rank(h), 0
  {
    var p := allTx[h].inputs[i].prev.hash;
    p == a || (p in allTx && Descends(allTx, rank, p, a))
  }

  lemma {:induction false} DescendantHigher(allTx: TxMap, rank: Hash -> nat, h: Hash, a: Hash)
    requires Acyclic(allTx, rank) && HeightsRise(allTx) && h in allTx && a in allTx && Descends(allTx, rank, h, a)
    ensures rank(a) < rank(h) && allTx[a].blockHeight <= allTx[h].blockHeight
    decreases rank(h)
  {
    var i: nat :| i < |allTx[h].inputs| && DescendsBy(allTx, rank, h, i, a);
    var p := allTx[h].inputs[i].prev.hash;
    if p != a { DescendantHigher(allTx, rank, p, a); }
  }

  /** A transaction belongs behind one of the same height that it descends from. */
  lemma {:induction false} DescendantAscends(allTx: TxMap, rank: Hash -> nat, h: Hash, a: Hash)
    requires Acyclic(allTx, rank) && HeightsRise(allTx) && h in allTx && a in allTx && Descends(allTx, rank, h, a)
    requires allTx[a].blockHeight == allTx[h].blockHeight
    ensures Ascending(allTx, rank, allTx[h], allTx[a])
    decreases rank(h)
  {
    DescendantHigher(allTx, rank, h, a);
    var i: nat :| i < |allTx[h].inputs| && DescendsBy(allTx, rank, h, i, a);
    var p := allTx[h].inputs[i].prev.hash;
    if p != a {
      DescendantHigher(allTx, rank, p, a);
      DescendantAscends(allTx, rank, p, a);
      assert AscendingParent(allTx, rank, allTx[h], i, allTx[a]);
    }
  }

  /** And that one does not belong behind it. */
  lemma {:induction false} AncestorNotAscending(allTx: TxMap, rank: Hash -> nat, h: Hash, a: Hash)
    requires Acyclic(allTx, rank) && HeightsRise(allTx) && h in allTx && a in allTx && rank(a) < rank(h)
    requires allTx[a].blockHeight <= allTx[h].blockHeight
    ensures !Ascending(allTx, rank, allTx[a], allTx[h])
    decreases rank(a)
  {
    forall i: nat | i < |allTx[a].inputs|
      ensures !AscendingParent(allTx, rank, allTx[a], i, allTx[h])
    {
      var p := allTx[a].inputs[i].prev.hash;
      if p in allTx { AncestorNotAscending(allTx, rank, h, p); }
    }
  }

  /** A transaction is never inserted before a listed one of the same height that it descends from. */
  lemma InsertAfterAncestor(allTx: TxMap, rank: Hash -> nat, txs: seq<Hash>, h: Hash, at: nat, k: nat,
                            internalChain: seq<Address>, externalChain: seq<Address>)
    requires Acyclic(allTx, rank) && HeightsRise(allTx) && Known(allTx, txs) && h in allTx
    requires InsertionPoint(allTx, rank, txs, h, at, internalChain, externalChain)
    requires k < |txs| && Descends(allTx, rank, h, txs[k]) && allTx[txs[k]].blockHeight == allTx[h].blockHeight
    ensures k < at
  {
    DescendantHigher(allTx, rank, h, txs[k]);
    DescendantAscends(allTx, rank, h, txs[k]);
    AncestorNotAscending(allTx, rank, h, txs[k]);
    hide Ascending;
  }

  /** Neither transaction belongs behind the other by height or descent. */
  ghost predicate Unrelated(allTx: TxMap, rank: Hash -> nat, tx1: Tx, tx2: Tx)
    requires Acyclic(allTx, rank)
    requires tx1.hash in allTx && allTx[tx1.hash] == tx1 && tx2.hash in allTx && allTx[tx2.hash] == tx2
  {
    !Ascending(allTx, rank, tx1, tx2) && !Ascending(allTx, rank, tx2, tx1)
  }

  /** Both transactions pay the internal chain, or both pay the external chain only. */
  predicate SameChain(tx1: Tx, tx2: Tx, internalChain: seq<Address>, externalChain: seq<Address>, isInternal: bool) {
    && ChainIndex(tx1, internalChain).Some? == ChainIndex(tx2, internalChain).Some? == isInternal
    && (!isInternal ==> ChainIndex(tx1, externalChain).Some? && ChainIndex(tx2, externalChain).Some?)
  }

  lemma CompareChainIndex(allTx: TxMap, rank: Hash -> nat, tx1: Tx, tx2: Tx, internalChain: seq<Address>,
                          externalChain: seq<Address>, isInternal: bool)
    requires Acyclic(allTx, rank)
    requires tx1.hash in allTx && allTx[tx1.hash] == tx1 && tx2.hash in allTx && allTx[tx2.hash] == tx2
    requires Unrelated(allTx, rank, tx1, tx2) && SameChain(tx1, tx2, internalChain, externalChain, isInternal)
    ensures var chain := if isInternal then internalChain else externalChain;
      && ChainIndex(tx1, chain).Some? && ChainIndex(tx2, chain).Some?
      && (Compare(allTx, rank, tx1, tx2, internalChain, externalChain) > 0 <==>
          ChainIndex(tx1, chain).value > ChainIndex(tx2, chain).value)
  {
    hide Ascending, ChainIndex, Acyclic;
  }

  /** The list is in the order of the addresses of `chain` that its transactions pay. */
  predicate ByChain(allTx: TxMap, txs: seq<Hash>, chain: seq<Address>) {
    && (forall i :: 0 <= i < |txs| ==> txs[i] in allTx && ChainIndex(allTx[txs[i]], chain).Some?)
    && forall i, j :: 0 <= i < j < |txs| ==>
         ChainIndex(allTx[txs[i]], chain).value <= ChainIndex(allTx[txs[j]], chain).value
  }

  lemma InsertInChain(allTx: TxMap, txs: seq<Hash>, h: Hash, at: nat, chain: seq<Address>)
    requires ByChain(allTx, txs, chain) && h in allTx && ChainIndex(allTx[h], chain).Some? && at <= |txs|
    requires at < |txs| ==> ChainIndex(allTx[txs[at]], chain).value > ChainIndex(allTx[h], chain).value
    requires at > 0 ==> ChainIndex(allTx[txs[at - 1]], chain).value <= ChainIndex(allTx[h], chain).value
    ensures ByChain(allTx, Inserted(txs, h, at), chain)
  {
    hide ChainIndex;
  }

  /** Among transactions without relation by height or descent, insertion keeps the list in the order of the addresses. */
  lemma InsertByAddress(allTx: TxMap, rank: Hash -> nat, txs: seq<Hash>, h: Hash, at: nat,
                        internalChain: seq<Address>, externalChain: seq<Address>, isInternal: bool)
    requires Acyclic(allTx, rank) && Known(allTx, txs) && h in allTx
    requires InsertionPoint(allTx, rank, txs, h, at, internalChain, externalChain)
    requires forall i :: 0 <= i < |txs| ==>
      && Unrelated(allTx, rank, allTx[txs[i]], allTx[h])
      && SameChain(allTx[txs[i]], allTx[h], internalChain, externalChain, isInternal)
    requires var chain := if isInternal then internalChain else externalChain;
      ByChain(allTx, txs, chain) && ChainIndex(allTx[h], chain).Some?
    ensures ByChain(allTx, Inserted(txs, h, at), if isInternal then internalChain else externalChain)
  {
    hide Unrelated, SameChain, Compare, ChainIndex, ByChain;
    if at < |txs| {
      CompareChainIndex(allTx, rank, allTx[txs[at]], allTx[h], internalChain, externalChain, isInternal);
    }
    if at > 0 {
      CompareChainIndex(allTx, rank, allTx[txs[at - 1]], allTx[h], internalChain, externalChain, isInternal);
    }
    InsertInChain(allTx, txs, h, at, if isInternal then internalChain else externalChain);
  }

  // ---------- Transactions of the wallet ----------

  predicate SpendsWallet(allTx: TxMap, allAddrs: set<Address>, input: TxInput) {
    var o := input.prev;
    o.hash in allTx && o.n < |allTx[o.hash].outputs| && allTx[o.hash].outputs[o.n].address in allAddrs
  }

  /** Some output pays the wallet, or some input spends a known output that did. */
  predicate Touches(allTx: TxMap, allAddrs: set<Address>, tx: Tx) {
    || (exists j: nat :: j < |tx.outputs| && tx.outputs[j].address in allAddrs)
    || (exists j: nat :: j < |tx.inputs| && SpendsWallet(allTx, allAddrs, tx.inputs[j]))
  }

  predicate AllTouch(allTx: TxMap, allAddrs: set<Address>, txs: seq<Hash>) {
    forall h :: h in txs && h in allTx ==> Touches(allTx, allAddrs, allTx[h])
  }

  /** Knowing more transactions and addresses, a transaction that touched the wallet still does. */
  lemma TouchesGrows(before: TxMap, after: TxMap, addrs: set<Address>, addrs': set<Address>, tx: Tx)
    requires (forall h :: h in before ==> h in after && after[h] == before[h]) && addrs <= addrs'
    ensures Touches(before, addrs, tx) ==> Touches(after, addrs', tx)
  {
    forall j: nat | j < |tx.inputs| && SpendsWallet(before, addrs, tx.inputs[j])
      ensures SpendsWallet(after, addrs', tx.inputs[j])
    {}
  }

  lemma AllTouchGrows(before: TxMap, after: TxMap, addrs: set<Address>, addrs': set<Address>, txs: seq<Hash>)
    requires (forall h :: h in before ==> h in after && after[h] == before[h]) && addrs <= addrs'
    requires AllTouch(before, addrs, txs) && forall h :: h in txs ==> h in before
    ensures AllTouch(after, addrs', txs)
  {
    hide Touches;
    forall h | h in txs
      ensures Touches(after, addrs', after[h])
    {
      TouchesGrows(before, after, addrs, addrs', before[h]);
    }
  }

  lemma AllTouchInserted(before: TxMap, after: TxMap, addrs: set<Address>, addrs': set<Address>, txs: seq<Hash>,
                         h: Hash, at: nat)
    requires (forall k :: k in before ==> k in after && after[k] == before[k]) && addrs <= addrs'
    requires at <= |txs| && (forall k :: k in txs ==> k in before)
    requires h in after && Touches(before, addrs, after[h])
    ensures AllTouch(before, addrs, txs) ==> AllTouch(after, addrs', Inserted(txs, h, at))
  {
    hide Touches;
    if AllTouch(before, addrs, txs) {
      AllTouchGrows(before, after, addrs, addrs', txs);
      TouchesGrows(before, after, addrs, addrs', after[h]);
      InsertedElements(txs, h, at);
      SameMembers(Inserted(txs, h, at), txs + [h]);
    }
  }

  /** Confirming a transaction leaves its hash, inputs and outputs. */
  predicate SameBody(tx1: Tx, tx2: Tx) {
    tx1.hash == tx2.hash && tx1.inputs == tx2.inputs && tx1.outputs == tx2.outputs
  }

  /** Whatever touches the wallet still does if nothing but heights changed and only strangers were forgotten. */
  lemma TouchesStays(before: TxMap, after: TxMap, allAddrs: set<Address>, tx: Tx, tx': Tx)
    requires forall h :: h in after ==> h in before && SameBody(before[h], after[h])
    requires forall h :: h in before && h !in after ==> !Touches(before, allAddrs, before[h])
    requires SameBody(tx, tx')
    ensures Touches(before, allAddrs, tx) == Touches(after, allAddrs, tx')
  {
    forall j: nat | j < |tx.inputs|
      ensures SpendsWallet(before, allAddrs, tx.inputs[j]) == SpendsWallet(after, allAddrs, tx'.inputs[j])
    {
      var h := tx.inputs[j].prev.hash;
      if h in before && h in after {
        assert SameBody(before[h], after[h]);
      }
    }
  }

  function WithHeight(tx: Tx, blockHeight: nat, timestamp: nat): Tx {
    tx.(blockHeight := blockHeight, timestamp := timestamp)
  }

  /** A confirmed transaction that does not touch the wallet is forgotten. */
  predicate Forgotten(allTx: TxMap, allAddrs: set<Address>, tx: Tx, blockHeight: nat, timestamp: nat) {
    tx != WithHeight(tx, blockHeight, timestamp) && !Touches(allTx, allAddrs, tx) && blockHeight != TX_UNCONFIRMED
  }

  /** The transactions among `hashes` get the given height and time, or are forgotten; the others are unchanged. */
  function Updated(allTx: TxMap, allAddrs: set<Address>, hashes: seq<Hash>, blockHeight: nat, timestamp: nat): TxMap {
    map h | h in allTx && !(h in hashes && Forgotten(allTx, allAddrs, allTx[h], blockHeight, timestamp)) ::
      if h in hashes then WithHeight(allTx[h], blockHeight, timestamp) else allTx[h]
  }

  /** The listed transactions above a height lose their confirmation. */
  function Unconfirmed(allTx: TxMap, txs: seq<Hash>, blockHeight: nat): TxMap {
    map h | h in allTx ::
      if h in txs && allTx[h].blockHeight > blockHeight then allTx[h].(blockHeight := TX_UNCONFIRMED) else allTx[h]
  }

  /** Some transaction that touches the wallet gets a new height or time, and its status is in question. */
  predicate Reconsidered(allTx: TxMap, allAddrs: set<Address>, hashes: seq<Hash>, blockHeight: nat, timestamp: nat,
                         flagged: set<Hash>) {
    exists h :: h in hashes && IsReconsidered(allTx, allAddrs, h, blockHeight, timestamp, flagged)
  }

  predicate IsReconsidered(allTx: TxMap, allAddrs: set<Address>, h: Hash, blockHeight: nat, timestamp: nat,
                           flagged: set<Hash>) {
    && h in allTx && allTx[h] != WithHeight(allTx[h], blockHeight, timestamp)
    && Touches(allTx, allAddrs, allTx[h]) && h in flagged
  }

  /** One more hash: nothing happens if it is unknown or up to date. */
  lemma UpdatedStep(allTx: TxMap, allAddrs: set<Address>, hashes: seq<Hash>, i: nat, blockHeight: nat, timestamp: nat)
    requires i < |hashes|
    ensures var before, after := Updated(allTx, allAddrs, hashes[..i], blockHeight, timestamp),
                                 Updated(allTx, allAddrs, hashes[..i + 1], blockHeight, timestamp);
      var h := hashes[i];
      if h !in before || before[h] == WithHeight(before[h], blockHeight, timestamp) then after == before
      else
        && h in allTx && before[h] == allTx[h]
        && after == if Forgotten(allTx, allAddrs, allTx[h], blockHeight, timestamp) then before - {h}
                    else before[h := WithHeight(allTx[h], blockHeight, timestamp)]
  {
    hide Touches;
    assert hashes[..i + 1] == hashes[..i] + [hashes[i]];
  }

  lemma ReconsideredStep(allTx: TxMap, allAddrs: set<Address>, hashes: seq<Hash>, i: nat, blockHeight: nat,
                         timestamp: nat, flagged: set<Hash>)
    requires i < |hashes|
    ensures Reconsidered(allTx, allAddrs, hashes[..i + 1], blockHeight, timestamp, flagged) ==
              (|| Reconsidered(allTx, allAddrs, hashes[..i], blockHeight, timestamp, flagged)
               || IsReconsidered(allTx, allAddrs, hashes[i], blockHeight, timestamp, flagged))
    ensures var before := Updated(allTx, allAddrs, hashes[..i], blockHeight, timestamp);
      hashes[i] !in before || before[hashes[i]] == WithHeight(before[hashes[i]], blockHeight, timestamp) ==>
        IsReconsidered(allTx, allAddrs, hashes[i], blockHeight, timestamp, flagged) ==>
        Reconsidered(allTx, allAddrs, hashes[..i], blockHeight, timestamp, flagged)
  {
    hide Touches;
    assert hashes[..i + 1] == hashes[..i] + [hashes[i]];
  }

  lemma NothingUpdated(allTx: TxMap, allAddrs: set<Address>, blockHeight: nat, timestamp: nat)
    ensures Updated(allTx, allAddrs, [], blockHeight, timestamp) == allTx
  {}

  lemma NothingReconsidered(allTx: TxMap, allAddrs: set<Address>, blockHeight: nat, timestamp: nat, flagged: set<Hash>)
    ensures !Reconsidered(allTx, allAddrs, [], blockHeight, timestamp, flagged)
  {}

  /** Every listed transaction that the update changes touches the wallet. */
  predicate ChangedTouch(allTx: TxMap, allAddrs: set<Address>, txs: seq<Hash>, hashes: seq<Hash>, blockHeight: nat,
                         timestamp: nat)
  {
    forall h :: h in txs && h in hashes && h in allTx && allTx[h] != WithHeight(allTx[h], blockHeight, timestamp) ==>
      Touches(allTx, allAddrs, allTx[h])
  }

  lemma AllChangedTouch(allTx: TxMap, allAddrs: set<Address>, txs: seq<Hash>, hashes: seq<Hash>, blockHeight: nat,
                        timestamp: nat)
    requires AllTouch(allTx, allAddrs, txs)
    ensures ChangedTouch(allTx, allAddrs, txs, hashes, blockHeight, timestamp)
  {
    hide Touches;
  }

  /** Which transactions touch the wallet does not depend on the update. */
  lemma UpdatedTouches(allTx: TxMap, allAddrs: set<Address>, hashes: seq<Hash>, blockHeight: nat, timestamp: nat,
                       tx: Tx, tx': Tx)
    requires SameBody(tx, tx')
    ensures Touches(Updated(allTx, allAddrs, hashes, blockHeight, timestamp), allAddrs, tx') ==
            Touches(allTx, allAddrs, tx)
  {
    hide Touches;
    TouchesStays(allTx, Updated(allTx, allAddrs, hashes, blockHeight, timestamp), allAddrs, tx, tx');
  }

  /** An update keeps every listed transaction, and each still touches the wallet. */
  lemma UpdatedAllTouch(allTx: TxMap, allAddrs: set<Address>, txs: seq<Hash>, hashes: seq<Hash>, blockHeight: nat,
                        timestamp: nat)
    requires Known(allTx, txs) && AllTouch(allTx, allAddrs, txs)
    ensures var after := Updated(allTx, allAddrs, hashes, blockHeight, timestamp);
      Known(after, txs) && AllTouch(after, allAddrs, txs)
  {
    hide Touches;
    var after := Updated(allTx, allAddrs, hashes, blockHeight, timestamp);
    forall h | h in txs
      ensures h in after && Touches(after, allAddrs, after[h])
    {
      UpdatedTouches(allTx, allAddrs, hashes, blockHeight, timestamp, allTx[h], after[h]);
    }
  }

  /** An update to unconfirmed forgets nothing; of those it confirms, only what touches the wallet stays known. */
  lemma UpdatedKnown(allTx: TxMap, allAddrs: set<Address>, hashes: seq<Hash>, blockHeight: nat, timestamp: nat)
    ensures var after := Updated(allTx, allAddrs, hashes, blockHeight, timestamp);
      && after.Keys <= allTx.Keys
      && (blockHeight == TX_UNCONFIRMED ==> after.Keys == allTx.Keys)
      && (blockHeight != TX_UNCONFIRMED ==> forall h :: h in hashes && h in after && after[h] != allTx[h] ==>
            Touches(after, allAddrs, after[h]))
      && (blockHeight != TX_UNCONFIRMED ==> forall h :: h in allTx && h !in after ==>
            h in hashes && !Touches(allTx, allAddrs, allTx[h]))
  {
    hide Touches;
    var after := Updated(allTx, allAddrs, hashes, blockHeight, timestamp);
    forall h | h in hashes && h in after && after[h] != allTx[h] && blockHeight != TX_UNCONFIRMED
      ensures Touches(after, allAddrs, after[h])
    {
      UpdatedTouches(allTx, allAddrs, hashes, blockHeight, timestamp, allTx[h], after[h]);
    }
  }

  // ---------- Moving one transaction ----------

  predicate SortedApartFrom(allTx: TxMap, txs: seq<Hash>, h: Hash)
    requires Known(allTx, txs)
  {
    forall i, j :: 0 <= i < j < |txs| && txs[i] != h && txs[j] != h ==>
      allTx[txs[i]].blockHeight <= allTx[txs[j]].blockHeight
  }

  lemma Removed(allTx: TxMap, txs: seq<Hash>, h: Hash, k: nat)
    requires Known(allTx, txs) && k < |txs| && txs[k] == h
    ensures var rest := txs[..k] + txs[k + 1..];
      && Known(allTx, rest) && h !in rest && multiset(rest) + multiset{h} == multiset(txs)
      && (SortedApartFrom(allTx, txs, h) ==> Sorted(allTx, rest))
  {
    assert txs == txs[..k] + [h] + txs[k + 1..];
  }

  lemma InsertedElements(txs: seq<Hash>, h: Hash, at: nat)
    requires at <= |txs|
    ensures multiset(Inserted(txs, h, at)) == multiset(txs) + multiset{h}
  {
    assert txs == txs[..at] + txs[at..];
  }

  lemma SameMembers(a: seq<Hash>, b: seq<Hash>)
    requires multiset(a) == multiset(b)
    ensures forall h :: h in a <==> h in b
  {
    assert forall h :: h in a <==> h in multiset(a);
    assert forall h :: h in b <==> h in multiset(b);
  }

  function Without(txs: seq<Hash>, k: nat): seq<Hash>
    requires k < |txs|
  {
    txs[..k] + txs[k + 1..]
  }

  /** `h` is taken out of the list and inserted again where it belongs; a list without it stays as it is. */
  ghost predicate Moved(allTx: TxMap, rank: Hash -> nat, before: seq<Hash>, h: Hash, after: seq<Hash>,
                        internalChain: seq<Address>, externalChain: seq<Address>)
    requires Acyclic(allTx, rank) && h in allTx
  {
    if h !in before then after == before
    else exists k: nat, at: nat ::
      && k < |before| && before[k] == h && Known(allTx, Without(before, k))
      && InsertionPoint(allTx, rank, Without(before, k), h, at, internalChain, externalChain)
      && after == Inserted(Without(before, k), h, at)
  }

  lemma MovedBy(allTx: TxMap, rank: Hash -> nat, before: seq<Hash>, k: nat, at: nat, after: seq<Hash>,
                internalChain: seq<Address>, externalChain: seq<Address>)
    requires Acyclic(allTx, rank) && k < |before| && before[k] in allTx && Known(allTx, Without(before, k))
    requires InsertionPoint(allTx, rank, Without(before, k), before[k], at, internalChain, externalChain)
    requires after == Inserted(Without(before, k), before[k], at)
    ensures Moved(allTx, rank, before, before[k], after, internalChain, externalChain)
  {
    assert before[k] in before;
  }

  lemma NotMoved(allTx: TxMap, rank: Hash -> nat, txs: seq<Hash>, h: Hash, internalChain: seq<Address>,
                 externalChain: seq<Address>)
    requires Acyclic(allTx, rank) && h in allTx && h !in txs
    ensures Moved(allTx, rank, txs, h, txs, internalChain, externalChain)
  {}

  // ---------- Scans from the end ----------

  /** The last `n` listed transactions are exactly those at or above a height. */
  predicate SuffixFrom(allTx: TxMap, txs: seq<Hash>, n: nat, height: nat)
    requires Known(allTx, txs) && n <= |txs|
  {
    forall i :: 0 <= i < |txs| ==> (i >= |txs| - n <==> allTx[txs[i]].blockHeight >= height)
  }

  /** How many transactions at the end of the list are at or above a height. */
  function Trailing(allTx: TxMap, txs: seq<Hash>, height: nat): (n: nat)
    requires Known(allTx, txs)
    ensures n <= |txs|
  {
    if txs == [] || allTx[txs[|txs| - 1]].blockHeight < height then 0
    else 1 + Trailing(allTx, txs[..|txs| - 1], height)
  }

  lemma {:induction false} TrailingIs(allTx: TxMap, txs: seq<Hash>, height: nat, n: nat)
    requires Known(allTx, txs) && n <= |txs|
    requires forall k :: |txs| - n <= k < |txs| ==> allTx[txs[k]].blockHeight >= height
    requires n < |txs| ==> allTx[txs[|txs| - n - 1]].blockHeight < height
    ensures Trailing(allTx, txs, height) == n
  {
    if n > 0 {
      TrailingIs(allTx, txs[..|txs| - 1], height, n - 1);
    }
  }

  /** Where a scan from the end first meets a lower height, everything before is lower too. */
  lemma ScanIsExact(allTx: TxMap, txs: seq<Hash>, n: nat, height: nat)
    requires Known(allTx, txs) && Sorted(allTx, txs) && n <= |txs|
    requires forall i :: |txs| - n <= i < |txs| ==> allTx[txs[i]].blockHeight >= height
    requires n < |txs| ==> allTx[txs[|txs| - n - 1]].blockHeight < height
    ensures SuffixFrom(allTx, txs, n, height)
  {}

  // ---------- Losing confirmations ----------

  predicate AnyAbove(allTx: TxMap, txs: seq<Hash>, height: nat) {
    exists h :: h in txs && h in allTx && allTx[h].blockHeight > height
  }

  /** Where a scan from the end stops, everything before is at or below the height. */
  lemma SuffixAbove(allTx: TxMap, txs: seq<Hash>, i: nat, height: nat)
    requires Known(allTx, txs) && Sorted(allTx, txs) && i <= |txs|
    requires forall k :: i <= k < |txs| ==> allTx[txs[k]].blockHeight > height
    requires i > 0 ==> allTx[txs[i - 1]].blockHeight <= height
    ensures forall h :: h in txs ==> (allTx[h].blockHeight > height <==> h in txs[i..])
    ensures AnyAbove(allTx, txs, height) <==> i < |txs|
  {
    assert i < |txs| ==> txs[i] in txs;
  }

  function UnconfirmedIn(allTx: TxMap, txs: seq<Hash>): TxMap {
    map h | h in allTx :: if h in txs then allTx[h].(blockHeight := TX_UNCONFIRMED) else allTx[h]
  }

  lemma UnconfirmedStep(allTx: TxMap, txs: seq<Hash>, i: nat, j: nat)
    requires Known(allTx, txs) && i <= j < |txs|
    ensures var before := UnconfirmedIn(allTx, txs[i..j]);
      && txs[j] in before
      && UnconfirmedIn(allTx, txs[i..j + 1]) == before[txs[j] := before[txs[j]].(blockHeight := TX_UNCONFIRMED)]
  {
    assert txs[i..j + 1] == txs[i..j] + [txs[j]];
  }

  lemma UnconfirmedSuffix(allTx: TxMap, txs: seq<Hash>, i: nat, height: nat)
    requires Known(allTx, txs) && Sorted(allTx, txs) && i <= |txs|
    requires forall h :: h in txs ==> (allTx[h].blockHeight > height <==> h in txs[i..])
    ensures UnconfirmedIn(allTx, txs[i..]) == Unconfirmed(allTx, txs, height)
    ensures height <= TX_UNCONFIRMED ==>
      Known(Unconfirmed(allTx, txs, height), txs) && Sorted(Unconfirmed(allTx, txs, height), txs)
  {}

  lemma UnconfirmedBodies(allTx: TxMap, rank: Hash -> nat, txs: seq<Hash>, height: nat)
    requires Acyclic(allTx, rank) && Known(allTx, txs)
    ensures var after := Unconfirmed(allTx, txs, height);
      Acyclic(after, rank) && Known(after, txs)
  {}

  lemma UnconfirmedTouch(allTx: TxMap, allAddrs: set<Address>, txs: seq<Hash>, height: nat)
    requires AllTouch(allTx, allAddrs, txs)
    ensures AllTouch(Unconfirmed(allTx, txs, height), allAddrs, txs)
  {
    hide Touches;
    var after := Unconfirmed(allTx, txs, height);
    forall h | h in txs && h in allTx
      ensures Touches(after, allAddrs, after[h])
    {
      TouchesStays(allTx, after, allAddrs, allTx[h], after[h]);
    }
  }
}
