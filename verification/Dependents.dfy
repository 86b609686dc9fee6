/** Which transactions have to go when one is removed from the wallet. */
module Dependents {
  import opened Transaction
  import opened TxOrder

  /** `t` is `h`, or a listed transaction that spends an output of one that depends on `h`. */
  ghost predicate Depends(allTx: TxMap, rank: Hash -> nat, txs: seq<Hash>, h: Hash, t: Hash)
    requires Acyclic(allTx, rank)
    decreases rank(t)
  {
    || t == h
    || (t in txs && t in allTx &&
        exists i: nat :: i < |allTx[t].inputs| && rank(allTx[t].inputs[i].prev.hash) < rank(t) &&
                         Depends(allTx, rank, txs, h, allTx[t].inputs[i].prev.hash))
  }

  /** The listed transactions that are still known. */
  function Kept(txs: seq<Hash>, keys: set<Hash>): seq<Hash> {
    if txs == [] then []
    else Kept(txs[..|txs| - 1], keys) + if txs[|txs| - 1] in keys then [txs[|txs| - 1]] else []
  }

  lemma {:induction false} KeptMembers(txs: seq<Hash>, keys: set<Hash>)
    ensures forall h :: h in Kept(txs, keys) <==> h in txs && h in keys
  {
    if txs != [] {
      KeptMembers(txs[..|txs| - 1], keys);
      assert txs == txs[..|txs| - 1] + [txs[|txs| - 1]];
    }
  }

  lemma KeptAppend(txs: seq<Hash>, h: Hash, keys: set<Hash>)
    ensures Kept(txs + [h], keys) == Kept(txs, keys) + if h in keys then [h] else []
  {
    assert (txs + [h])[..|txs|] == txs;
  }

  lemma {:induction false} KeptTwice(txs: seq<Hash>, more: set<Hash>, keys: set<Hash>)
    requires keys <= more
    ensures Kept(Kept(txs, more), keys) == Kept(txs, keys)
  {
    if txs != [] {
      var init, last := txs[..|txs| - 1], txs[|txs| - 1];
      KeptTwice(init, more, keys);
      if last in more {
        KeptAppend(Kept(init, more), last, keys);
      } else {
        assert Kept(txs, more) == Kept(init, more);
      }
    }
  }

  lemma {:induction false} KeptConcat(a: seq<Hash>, b: seq<Hash>, keys: set<Hash>)
    ensures Kept(a + b, keys) == Kept(a, keys) + Kept(b, keys)
  {
    if b == [] {
      assert a + b == a;
    } else {
      var init, last := b[..|b| - 1], b[|b| - 1];
      KeptConcat(a, init, keys);
      KeptAppend(a + init, last, keys);
      assert a + b == a + init + [last];
    }
  }

  lemma {:induction false} KeptAll(txs: seq<Hash>, keys: set<Hash>)
    requires forall h :: h in txs ==> h in keys
    ensures Kept(txs, keys) == txs
  {
    if txs != [] {
      var init, last := txs[..|txs| - 1], txs[|txs| - 1];
      assert txs == init + [last];
      KeptAll(init, keys);
    }
  }

  /** Taking one transaction out of the list. */
  lemma KeptOne(txs: seq<Hash>, keys: set<Hash>, k: nat)
    requires k < |txs| && txs[k] !in keys && forall i :: 0 <= i < |txs| && i != k ==> txs[i] in keys
    ensures Kept(txs, keys) == txs[..k] + txs[k + 1..]
  {
    hide Kept;
    assert txs == txs[..k] + [txs[k]] + txs[k + 1..];
    KeptAppend(txs[..k], txs[k], keys);
    KeptConcat(txs[..k] + [txs[k]], txs[k + 1..], keys);
    KeptAll(txs[..k], keys);
    KeptAll(txs[k + 1..], keys);
  }

  /** Dropping transactions keeps the list distinct and sorted. */
  lemma {:induction false} KeptSorted(allTx: TxMap, txs: seq<Hash>, keys: set<Hash>)
    requires Known(allTx, txs) && Sorted(allTx, txs)
    ensures Known(allTx, Kept(txs, keys)) && Sorted(allTx, Kept(txs, keys))
  {
    if txs != [] {
      var n := |txs| - 1;
      KeptSorted(allTx, txs[..n], keys);
      KeptMembers(txs[..n], keys);
      var kept := Kept(txs[..n], keys);
      forall i | 0 <= i < |kept|
        ensures kept[i] != txs[n] && allTx[kept[i]].blockHeight <= allTx[txs[n]].blockHeight
      {
        assert kept[i] in txs[..n];
      }
    }
  }

  /** No known transaction has a lower height than a known one it spends. */
  predicate ParentsFirst(allTx: TxMap, txs: seq<Hash>) {
    forall t, i: nat :: t in txs && t in allTx && i < |allTx[t].inputs| && allTx[t].inputs[i].prev.hash in allTx ==>
      allTx[allTx[t].inputs[i].prev.hash].blockHeight <= allTx[t].blockHeight
  }

  /** What a removal leaves: fewer transactions, none of which spends a removed one. */
  ghost predicate Shrunk(before: TxMap, beforeTxs: seq<Hash>, after: TxMap, afterTxs: seq<Hash>) {
    && after.Keys <= before.Keys && (forall h :: h in after ==> after[h] == before[h])
    && afterTxs == Kept(beforeTxs, after.Keys)
    && forall t, h :: t in afterTxs && t in after && h in before && h !in after ==> !DependsOn(after[t], h)
  }

  lemma ShrunkSelf(allTx: TxMap, txs: seq<Hash>)
    requires Known(allTx, txs)
    ensures Shrunk(allTx, txs, allTx, txs)
  {
    KeptAll(txs, allTx.Keys);
  }

  lemma ShrunkTwice(a: TxMap, aTxs: seq<Hash>, b: TxMap, bTxs: seq<Hash>, c: TxMap, cTxs: seq<Hash>)
    requires Shrunk(a, aTxs, b, bTxs) && Shrunk(b, bTxs, c, cTxs)
    ensures Shrunk(a, aTxs, c, cTxs)
  {
    KeptMembers(bTxs, c.Keys);
    KeptTwice(aTxs, b.Keys, c.Keys);
  }

  /** The invariants of the list survive. */
  lemma ShrunkValid(a: TxMap, aTxs: seq<Hash>, b: TxMap, bTxs: seq<Hash>, rank: Hash -> nat)
    requires Shrunk(a, aTxs, b, bTxs) && Acyclic(a, rank) && Known(a, aTxs) && Sorted(a, aTxs) && ParentsFirst(a, aTxs)
    ensures Acyclic(b, rank) && Known(b, bTxs) && Sorted(b, bTxs) && ParentsFirst(b, bTxs)
  {
    KeptMembers(aTxs, b.Keys);
    KeptSorted(a, aTxs, b.Keys);
  }

  /** A listed transaction that touched the wallet still does: none of its parents is removed. */
  lemma ShrunkTouch(a: TxMap, aTxs: seq<Hash>, b: TxMap, bTxs: seq<Hash>, allAddrs: set<Address>)
    requires Shrunk(a, aTxs, b, bTxs) && AllTouch(a, allAddrs, aTxs)
    ensures AllTouch(b, allAddrs, bTxs)
  {
    KeptMembers(aTxs, b.Keys);
    forall t | t in bTxs && t in b
      ensures Touches(b, allAddrs, b[t])
    {
      assert Touches(a, allAddrs, a[t]);
      forall i: nat | i < |b[t].inputs| && SpendsWallet(a, allAddrs, b[t].inputs[i])
        ensures SpendsWallet(b, allAddrs, b[t].inputs[i])
      {
        var h := b[t].inputs[i].prev.hash;
        assert DependsOn(b[t], h);
      }
    }
  }

  lemma {:induction false} DependsInMore(a: TxMap, aTxs: seq<Hash>, b: TxMap, bTxs: seq<Hash>, rank: Hash -> nat,
                                         h: Hash, t: Hash)
    requires Acyclic(a, rank) && Acyclic(b, rank) && (forall k :: k in b ==> k in a && a[k] == b[k])
    requires forall k :: k in bTxs ==> k in aTxs
    requires Depends(b, rank, bTxs, h, t)
    ensures Depends(a, rank, aTxs, h, t)
    decreases rank(t)
  {
    if t != h {
      var i: nat :| i < |b[t].inputs| && rank(b[t].inputs[i].prev.hash) < rank(t)
                    && Depends(b, rank, bTxs, h, b[t].inputs[i].prev.hash);
      DependsInMore(a, aTxs, b, bTxs, rank, h, b[t].inputs[i].prev.hash);
      assert Depends(a, rank, aTxs, h, a[t].inputs[i].prev.hash);
    }
  }

  lemma {:induction false} DependsChain(allTx: TxMap, rank: Hash -> nat, txs: seq<Hash>, h: Hash, k: Hash, t: Hash)
    requires Acyclic(allTx, rank) && Depends(allTx, rank, txs, h, k) && Depends(allTx, rank, txs, k, t)
    ensures Depends(allTx, rank, txs, h, t)
    decreases rank(t)
  {
    if t != k && t != h {
      var i: nat :| i < |allTx[t].inputs| && rank(allTx[t].inputs[i].prev.hash) < rank(t)
                    && Depends(allTx, rank, txs, k, allTx[t].inputs[i].prev.hash);
      DependsChain(allTx, rank, txs, h, k, allTx[t].inputs[i].prev.hash);
      assert Depends(allTx, rank, txs, h, allTx[t].inputs[i].prev.hash);
    }
  }

  /** Everything removed depends on `h`. */
  ghost predicate OnlyDependents(before: TxMap, rank: Hash -> nat, txs: seq<Hash>, after: TxMap, h: Hash)
    requires Acyclic(before, rank)
  {
    forall t :: t in before && t !in after ==> Depends(before, rank, txs, h, t)
  }

  /**
   A removal that shrinks the wallet by dependents of `h` only, `h` included, removes exactly the dependents: nothing
   that depends on `h` can stay, because its parent would have to stay as well.
  */
  lemma {:induction false} AllDependents(before: TxMap, rank: Hash -> nat, txs: seq<Hash>, after: TxMap,
                                         afterTxs: seq<Hash>, h: Hash, t: Hash)
    requires Acyclic(before, rank) && Known(before, txs) && Shrunk(before, txs, after, afterTxs) && h !in after
    requires Depends(before, rank, txs, h, t) && (h in before || h == t)
    ensures t !in after
    decreases rank(t)
  {
    if t != h {
      var i: nat :| i < |before[t].inputs| && rank(before[t].inputs[i].prev.hash) < rank(t)
                    && Depends(before, rank, txs, h, before[t].inputs[i].prev.hash);
      var p := before[t].inputs[i].prev.hash;
      KeptMembers(txs, after.Keys);
      AllDependents(before, rank, txs, after, afterTxs, h, p);
      assert p in before;
      assert DependsOn(before[t], p);
    }
  }

  /** What is left is exactly what does not depend on `h`. */
  lemma DependentsGone(before: TxMap, rank: Hash -> nat, txs: seq<Hash>, after: TxMap, afterTxs: seq<Hash>, h: Hash)
    requires Acyclic(before, rank) && Known(before, txs) && Shrunk(before, txs, after, afterTxs) && h in before
    requires OnlyDependents(before, rank, txs, after, h) && h !in after
    ensures forall t :: t in before ==> (t in after <==> !Depends(before, rank, txs, h, t))
    ensures forall t :: t in afterTxs <==> t in txs && !Depends(before, rank, txs, h, t)
  {
    forall t | Depends(before, rank, txs, h, t)
      ensures t !in after
    {
      AllDependents(before, rank, txs, after, afterTxs, h, t);
    }
    ShrunkMembers(before, txs, after, afterTxs);
  }

  lemma DirectDependent(allTx: TxMap, rank: Hash -> nat, txs: seq<Hash>, h: Hash, d: Hash)
    requires Acyclic(allTx, rank) && d in txs && d in allTx && DependsOn(allTx[d], h)
    ensures Depends(allTx, rank, txs, h, d) && rank(h) < rank(d)
  {
    var i: nat :| i < |allTx[d].inputs| && allTx[d].inputs[i].prev.hash == h;
    assert Depends(allTx, rank, txs, h, allTx[d].inputs[i].prev.hash);
  }

  /** Removing a dependent's dependents removes dependents. */
  lemma OnlyDependentsStep(a: TxMap, aTxs: seq<Hash>, b: TxMap, bTxs: seq<Hash>, c: TxMap, rank: Hash -> nat, h: Hash,
                           d: Hash)
    requires Acyclic(a, rank) && Acyclic(b, rank) && Shrunk(a, aTxs, b, bTxs)
    requires OnlyDependents(a, rank, aTxs, b, h) && OnlyDependents(b, rank, bTxs, c, d)
    requires Depends(a, rank, aTxs, h, d)
    ensures OnlyDependents(a, rank, aTxs, c, h)
  {
    hide Depends;
    KeptMembers(aTxs, b.Keys);
    forall t | t in a && t !in c
      ensures Depends(a, rank, aTxs, h, t)
    {
      if t in b {
        DependsInMore(a, aTxs, b, bTxs, rank, d, t);
        DependsChain(a, rank, aTxs, h, d, t);
      }
    }
  }

  /** A transaction nobody spends can go alone. */
  lemma ShrunkByOne(allTx: TxMap, txs: seq<Hash>, h: Hash, k: nat)
    requires Known(allTx, txs) && k <= |txs| && (if k < |txs| then txs[k] == h else h !in txs)
    requires forall t :: t in txs ==> !DependsOn(allTx[t], h)
    ensures Shrunk(allTx, txs, allTx - {h}, if k < |txs| then txs[..k] + txs[k + 1..] else txs)
  {
    var keys := (allTx - {h}).Keys;
    KeptMembers(txs, keys);
    if k < |txs| {
      KeptOne(txs, keys, k);
    } else {
      KeptAll(txs, keys);
    }
  }

  lemma DependsSelf(allTx: TxMap, rank: Hash -> nat, txs: seq<Hash>, h: Hash)
    requires Acyclic(allTx, rank)
    ensures Depends(allTx, rank, txs, h, h)
  {}

  lemma NothingRemoved(allTx: TxMap, rank: Hash -> nat, txs: seq<Hash>, h: Hash)
    requires Acyclic(allTx, rank)
    ensures OnlyDependents(allTx, rank, txs, allTx, h)
  {}

  lemma RemovedAlone(allTx: TxMap, rank: Hash -> nat, txs: seq<Hash>, h: Hash)
    requires Acyclic(allTx, rank)
    ensures OnlyDependents(allTx, rank, txs, allTx - {h}, h)
  {}

  lemma ShrunkMembers(a: TxMap, aTxs: seq<Hash>, b: TxMap, bTxs: seq<Hash>)
    requires Shrunk(a, aTxs, b, bTxs)
    ensures b.Keys <= a.Keys && forall h :: h in bTxs <==> h in aTxs && h in b
  {
    KeptMembers(aTxs, b.Keys);
  }

  /** Below the first listed transaction that is lower than `h` nobody spends it. */
  lemma NoneBelow(allTx: TxMap, txs: seq<Hash>, i: nat, h: Hash)
    requires Known(allTx, txs) && Sorted(allTx, txs) && ParentsFirst(allTx, txs) && h in allTx && 0 < i <= |txs|
    requires allTx[txs[i - 1]].blockHeight < allTx[h].blockHeight
    ensures forall d :: d in txs[..i] ==> !DependsOn(allTx[d], h)
  {
    forall k | 0 <= k < i
      ensures !DependsOn(allTx[txs[k]], h)
    {
      assert txs[k] in txs && allTx[txs[k]].blockHeight <= allTx[txs[i - 1]].blockHeight;
    }
  }

  /** The listed transactions that rank above `h`. */
  ghost function Above(txs: seq<Hash>, rank: Hash -> nat, h: Hash): set<Hash> {
    set t | t in txs && rank(t) > rank(h)
  }

  lemma FewerAbove(txs: seq<Hash>, rank: Hash -> nat, h: Hash, txs': seq<Hash>, h': Hash, d: Hash)
    requires forall t :: t in txs' ==> t in txs
    requires rank(h') >= rank(h) && d in txs && rank(d) > rank(h) && (d !in txs' || rank(d) <= rank(h'))
    ensures |Above(txs', rank, h')| < |Above(txs, rank, h)|
  {
    var a, b := Above(txs, rank, h), Above(txs', rank, h');
    assert d in a && d !in b && b <= a;
    assert b + {d} <= a;
    SubsetSize(b + {d}, a);
  }

  lemma {:induction false} SubsetSize(b: set<Hash>, a: set<Hash>)
    requires b <= a
    ensures |b| <= |a|
  {
    if h :| h in b {
      SubsetSize(b - {h}, a - {h});
    }
  }
}
