/** The wallet (BRWallet.c). */
module Wallet {
  import opened AddressChain
  import opened Bytes
  import opened CoinSelection
  import opened Dependents
  import opened Freshness
  import opened Ledger
  import opened Lockstep
  import opened Relevance
  import opened Transaction
  import opened TxOrder
  import opened Wrappers

  /** `a` is `b` read up to `j`, and the rest of it with the spent outputs taken out. */
  lemma SweepStep(os: seq<Outpoint>, j: nat, spent: set<Outpoint>)
    requires 0 < j <= |os|
    ensures var kept := if os[j - 1] in spent then [] else [os[j - 1]];
      UnspentTail(os, j - 1, spent) == kept + UnspentTail(os, j, spent)
  {}

  lemma SweepEnd(os: seq<Outpoint>, spent: set<Outpoint>)
    ensures UnspentTail(os, |os|, spent) == []
  {}

  function UnspentTail(os: seq<Outpoint>, j: nat, spent: set<Outpoint>): seq<Outpoint>
    requires j <= |os|
    decreases |os| - j
  {
    if j == |os| then [] else (if os[j] in spent then [] else [os[j]]) + UnspentTail(os, j + 1, spent)
  }

  lemma UnspentAppend(os: seq<Outpoint>, o: Outpoint, spent: set<Outpoint>)
    ensures Unspent(os + [o], spent) == Unspent(os, spent) + if o in spent then [] else [o]
  {
    assert (os + [o])[..|os|] == os;
  }

  lemma NothingUnspent(spent: set<Outpoint>)
    ensures Unspent([], spent) == []
  {}

  lemma {:induction false} UnspentFromFront(os: seq<Outpoint>, j: nat, spent: set<Outpoint>)
    requires j <= |os|
    ensures Unspent(os, spent) == Unspent(os[..j], spent) + UnspentTail(os, j, spent)
    decreases |os| - j
  {
    hide Unspent, UnspentTail;
    if j == |os| {
      assert os[..j] == os;
      SweepEnd(os, spent);
    } else {
      UnspentFromFront(os, j + 1, spent);
      UnspentAppend(os[..j], os[j], spent);
      assert os[..j + 1] == os[..j] + [os[j]];
      SweepStep(os, j + 1, spent);
    }
  }

  /** The addresses that known transactions pay are in use. */
  predicate AllUsed(allTx: TxMap, used: set<Address>) {
    forall h :: h in allTx ==> UsedAddrs(allTx[h], |allTx[h].outputs|) <= used
  }

  /** Those the ledger finds in use are among them. */
  lemma UsedByListed(env: Env, txs: seq<Hash>, used: set<Address>)
    requires Listed(env, txs) && AllUsed(env.allTx, used)
    ensures Run(env, txs).used <= used
  {
    hide UsedAddrs, Run;
    forall a | a in Run(env, txs).used
      ensures a in used
    {
      var i := UsedOrigin(env, txs, a);
    }
  }

  /** The entries of `was` from `i` on have moved up by one place. */
  predicate Shifted(was: seq<Hash>, now: seq<Hash>, i: nat) {
    i < |now| == |was| + 1 && now[..i] == was[..i] && now[i + 1..] == was[i..]
  }

  lemma ShiftStart(was: seq<Hash>, h: Hash)
    ensures Shifted(was, was + [h], |was|)
  {}

  lemma ShiftStep(was: seq<Hash>, now: seq<Hash>, i: nat)
    requires Shifted(was, now, i) && i > 0
    ensures i < |now| == |was| + 1 && now[i - 1] == was[i - 1] && Shifted(was, now[i := now[i - 1]], i - 1)
  {
    assert now[..i][i - 1] == was[..i][i - 1];
    assert now[i := now[i - 1]][..i - 1] == now[..i][..i - 1] == was[..i][..i - 1];
  }

  lemma ShiftEnd(was: seq<Hash>, now: seq<Hash>, i: nat, h: Hash)
    requires Shifted(was, now, i)
    ensures i < |now| && i <= |was| && now[i := h] == Inserted(was, h, i)
  {}

  /** Amounts and payments depend on the transactions and the addresses only. */
  ghost predicate SameBooks(a: Env, b: Env) {
    a.allTx == b.allTx && a.allAddrs == b.allAddrs
  }

  lemma SameEnvironment(a: Env, b: Env)
    requires a.allTx == b.allTx && a.allAddrs == b.allAddrs
    ensures SameBooks(a, b)
  {}

  lemma {:induction false} SameSum(a: Env, b: Env, os: seq<Outpoint>)
    requires SameBooks(a, b)
    ensures Sum(a, os) == Sum(b, os)
  {
    if os != [] {
      SameSum(a, b, os[..|os| - 1]);
    }
  }

  lemma {:induction false} SameWalletOutputs(a: Env, b: Env, tx: Tx, n: nat)
    requires SameBooks(a, b) && n <= |tx.outputs|
    ensures WalletOutputs(a, tx, n) == WalletOutputs(b, tx, n)
  {
    if n > 0 {
      SameWalletOutputs(a, b, tx, n - 1);
    }
  }

  lemma NoOutputs(env: Env, tx: Tx)
    ensures WalletOutputs(env, tx, 0) == [] && Sum(env, []) == 0 && UsedAddrs(tx, 0) == {}
  {}

  /** One more output. */
  lemma WalletOutputsStep(env: Env, tx: Tx, j: nat)
    requires j < |tx.outputs| && tx.hash in env.allTx && env.allTx[tx.hash] == tx
    ensures var before, o := WalletOutputs(env, tx, j), Outpoint(tx.hash, j);
      if PaysWallet(env, tx.outputs[j]) then
        && WalletOutputs(env, tx, j + 1) == before + [o]
        && Sum(env, before + [o]) == Sum(env, before) + tx.outputs[j].amount
      else WalletOutputs(env, tx, j + 1) == before
    ensures UsedAddrs(tx, j + 1) == UsedAddrs(tx, j) + if tx.outputs[j].address != "" then {tx.outputs[j].address} else {}
  {
    SumAppend(env, WalletOutputs(env, tx, j), Outpoint(tx.hash, j));
  }

  lemma ConflictsReads(s: State, s': State, tx: Tx)
    requires s.spent == s'.spent && s.invalid == s'.invalid
    ensures Conflicts(s, tx) == Conflicts(s', tx)
  {}

  lemma PendingReads(env: Env, s: State, s': State, tx: Tx)
    requires s.pending == s'.pending
    ensures IsPending(env, s, tx) == IsPending(env, s', tx)
  {
    assert forall i :: 0 <= i < |tx.inputs| ==> Postponed(env, s, tx, tx.inputs[i]) == Postponed(env, s', tx, tx.inputs[i]);
  }

  // Listing the transactions of a new wallet.

  ghost predicate RankedBy(txs: seq<Tx>, rank: Hash -> nat) {
    forall i, j: nat :: 0 <= i < |txs| && j < |txs[i].inputs| ==> rank(txs[i].inputs[j].prev.hash) < rank(txs[i].hash)
  }

  ghost predicate AllListed(allTx: TxMap, list: seq<Hash>, txs: seq<Tx>, n: nat) {
    && n <= |txs| && (forall h :: h in list <==> h in allTx)
    && (forall h :: h in allTx <==> exists i: nat :: i < n && IsSigned(txs[i]) && txs[i].hash == h)
    && (forall h :: h in allTx ==> allTx[h] in txs && IsSigned(allTx[h]))
  }

  lemma WhatIsListed(allTx: TxMap, list: seq<Hash>, txs: seq<Tx>, n: nat)
    requires AllListed(allTx, list, txs, n)
    ensures forall h :: h in list <==> h in allTx
    ensures forall h :: h in allTx <==> exists i: nat :: i < n && IsSigned(txs[i]) && txs[i].hash == h
    ensures forall h :: h in allTx ==> allTx[h] in txs && IsSigned(allTx[h])
  {}

  lemma NothingListed(list: seq<Hash>, txs: seq<Tx>)
    requires Known(map[], list)
    ensures AllListed(map[], list, txs, 0)
  {}

  lemma AddedBody(allTx: TxMap, rank: Hash -> nat, txs: seq<Tx>, n: nat)
    requires Acyclic(allTx, rank) && RankedBy(txs, rank) && n < |txs|
    ensures Acyclic(allTx[txs[n].hash := txs[n]], rank)
  {}

  lemma OneMoreListed(before: TxMap, beforeList: seq<Hash>, after: TxMap, afterList: seq<Hash>, txs: seq<Tx>, n: nat)
    requires n < |txs| && AllListed(before, beforeList, txs, n)
    requires var tx := txs[n];
      if IsSigned(tx) && tx.hash !in before then
        after == before[tx.hash := tx] && forall h :: h in afterList <==> h in beforeList || h == tx.hash
      else after == before && afterList == beforeList
    ensures AllListed(after, afterList, txs, n + 1)
  {
    forall h
      ensures h in after <==> exists i: nat :: i < n + 1 && IsSigned(txs[i]) && txs[i].hash == h
    {
      if h in before {
        var i: nat :| i < n && IsSigned(txs[i]) && txs[i].hash == h;
      }
    }
  }

  class Wallet {
    /** The wallet's master public key, as the addresses it gives. */
    const derive: Derivation
    /** The address a script pays to, and the script that pays an address. */
    const addressOf: seq<Byte> -> Address
    const scriptOf: Address -> seq<Byte>

    var balance: nat
    var totalSent: nat
    var totalReceived: nat
    var balanceHist: seq<nat>
    var blockHeight: nat
    var feePerKb: nat
    var utxos: seq<Outpoint>
    var transactions: seq<Hash>
    var allTx: map<Hash, Tx>
    var invalidTx: set<Hash>
    var pendingTx: set<Hash>
    var spentOutputs: set<Outpoint>
    var usedAddrs: set<Address>
    var allAddrs: set<Address>
    var internalChain: seq<Address>
    var externalChain: seq<Address>

    constructor (derive: Derivation, addressOf: seq<Byte> -> Address, scriptOf: Address -> seq<Byte>)
      ensures this.derive == derive && this.addressOf == addressOf && this.scriptOf == scriptOf
      ensures allTx == map[] && transactions == [] && internalChain == externalChain == [] && allAddrs == {}
      ensures Current() == EMPTY && blockHeight == 0 && feePerKb == DEFAULT_FEE_PER_KB
    {
      this.derive, this.addressOf, this.scriptOf := derive, addressOf, scriptOf;
      allTx, transactions, internalChain, externalChain, allAddrs := map[], [], [], [], {};
      utxos, balance, totalSent, totalReceived, balanceHist := [], 0, 0, 0, [];
      spentOutputs, invalidTx, pendingTx, usedAddrs := {}, {}, {}, {};
      blockHeight, feePerKb := 0, DEFAULT_FEE_PER_KB;
    }

    ghost function Environment(now: nat): Env
      reads `allTx, `allAddrs, `blockHeight
    {
      Env(allTx, allAddrs, blockHeight, now)
    }

    ghost function Current(): State
      reads this
    {
      State(utxos, balance, totalSent, totalReceived, balanceHist, spentOutputs, invalidTx, pendingTx, usedAddrs)
    }

    /**
     The recorded ledger agrees with the one a recomputation at this time would give, in its flags, its unspent outputs
     and its balance.
    */
    ghost predicate Fresh(now: nat)
      reads this
    {
      IsFresh(Current(), Environment(now), transactions)
    }

    /** It does but for outputs that only pending transactions spend. */
    ghost predicate NearlyFresh(now: nat)
      reads this
    {
      IsNearlyFresh(Current(), Environment(now), transactions)
    }

    method CheckInvalid(tx: Tx) returns (isInvalid: bool)
      ensures isInvalid <==> Conflicts(Current(), tx)
    {
      isInvalid := false;
      var j := 0;
      while !isInvalid && j < |tx.inputs|
        invariant j <= |tx.inputs|
        invariant isInvalid ==> Conflicts(Current(), tx)
        invariant !isInvalid ==> forall i: nat :: i < j ==>
          tx.inputs[i].prev !in spentOutputs && tx.inputs[i].prev.hash !in invalidTx
      {
        if tx.inputs[j].prev in spentOutputs || tx.inputs[j].prev.hash in invalidTx {
          isInvalid := true;
        }
        j := j + 1;
      }
    }

    method AddInputsToSpent(tx: Tx)
      modifies `spentOutputs
      ensures spentOutputs == old(spentOutputs) + Spends(tx)
    {
      for j := 0 to |tx.inputs|
        invariant spentOutputs == old(spentOutputs) + set i: nat | i < j :: tx.inputs[i].prev
      {
        spentOutputs := spentOutputs + {tx.inputs[j].prev};
      }
    }

    method CheckPending(tx: Tx, now: nat) returns (isPending: bool)
      ensures isPending <==> IsPending(Environment(now), Current(), tx)
    {
      ghost var env, s := Environment(now), Current();
      isPending := Size(tx.inputs, tx.outputs) > TX_MAX_SIZE;
      var j := 0;
      while !isPending && j < |tx.outputs|
        invariant j <= |tx.outputs|
        invariant isPending ==> IsPending(env, s, tx)
        invariant !isPending ==> Size(tx.inputs, tx.outputs) <= TX_MAX_SIZE &&
                                 forall i: nat :: i < j ==> tx.outputs[i].amount >= TX_MIN_OUTPUT_AMOUNT
      {
        if tx.outputs[j].amount < TX_MIN_OUTPUT_AMOUNT {
          isPending := true;
        }
        j := j + 1;
      }
      j := 0;
      while !isPending && j < |tx.inputs|
        invariant j <= |tx.inputs|
        invariant isPending ==> IsPending(env, s, tx)
        invariant !isPending ==> Size(tx.inputs, tx.outputs) <= TX_MAX_SIZE &&
                                 (forall i: nat :: i < |tx.outputs| ==> tx.outputs[i].amount >= TX_MIN_OUTPUT_AMOUNT) &&
                                 forall i: nat :: i < j ==> !Postponed(env, s, tx, tx.inputs[i])
      {
        var input := tx.inputs[j];
        if input.sequence < UINT32_MAX - 1 { isPending := true; }
        if input.sequence < UINT32_MAX && tx.lockTime < TX_MAX_LOCK_HEIGHT && tx.lockTime > blockHeight + 1 {
          isPending := true;
        }
        if input.sequence < UINT32_MAX && tx.lockTime > now { isPending := true; }
        if input.prev.hash in pendingTx { isPending := true; }
        assert isPending ==> Postponed(env, s, tx, tx.inputs[j]);
        j := j + 1;
      }
    }

    /** Adds the outputs that pay the wallet to the unspent ones, and the running balance. */
    method AddOutputs(tx: Tx, bal: nat) returns (bal': nat)
      requires tx.hash in allTx && allTx[tx.hash] == tx
      modifies `utxos, `usedAddrs
      ensures utxos == old(utxos) + WalletOutputs(Environment(0), tx, |tx.outputs|)
      ensures usedAddrs == old(usedAddrs) + UsedAddrs(tx, |tx.outputs|)
      ensures bal' == bal + Sum(Environment(0), WalletOutputs(Environment(0), tx, |tx.outputs|))
    {
      hide WalletOutputs, UsedAddrs, Sum;
      ghost var env := Environment(0);
      bal' := bal;
      NoOutputs(env, tx);
      for j := 0 to |tx.outputs|
        invariant utxos == old(utxos) + WalletOutputs(env, tx, j)
        invariant usedAddrs == old(usedAddrs) + UsedAddrs(tx, j)
        invariant bal' == bal + Sum(env, WalletOutputs(env, tx, j))
      {
        var output := tx.outputs[j];
        WalletOutputsStep(env, tx, j);
        if output.address != "" {
          usedAddrs := usedAddrs + {output.address};
          if output.address in allAddrs {
            utxos := utxos + [Outpoint(tx.hash, j)];
            bal' := bal' + output.amount;
          }
        }
      }
    }

    /** Checks the whole unspent set against the whole spent set, from the end. */
    method Sweep(bal: nat) returns (bal': nat)
      requires bal == Sum(Environment(0), utxos)
      requires forall o :: o in utxos ==> o.hash in allTx && o.n < |allTx[o.hash].outputs|
      modifies `utxos
      ensures utxos == Unspent(old(utxos), spentOutputs)
      ensures bal' == Sum(Environment(0), utxos)
    {
      hide Sum, Unspent;
      ghost var env, os := Environment(0), utxos;
      bal' := bal;
      var j := |utxos|;
      assert os[..j] == os;
      while j > 0
        invariant j <= |os| && utxos == os[..j] + UnspentTail(os, j, spentOutputs)
        invariant bal' == Sum(env, utxos)
      {
        SweepStep(os, j, spentOutputs);
        assert os[..j] == os[..j - 1] + [os[j - 1]];
        if utxos[j - 1] in spentOutputs {
          var t := allTx[utxos[j - 1].hash];
          SumRemove(env, utxos, j - 1);
          bal' := bal' - t.outputs[utxos[j - 1].n].amount;
          utxos := utxos[..j - 1] + utxos[j..];
        }
        j := j - 1;
      }
      UnspentFromFront(os, 0, spentOutputs);
      NothingUnspent(spentOutputs);
    }

    /** One round of the loop of `_BRWalletUpdateBalance`, with the running balance of the loop. */
    method Round(tx: Tx, now: nat, bal: nat, prevBalance: nat) returns (bal': nat)
      requires tx.hash in allTx && allTx[tx.hash] == tx && bal == prevBalance == Sum(Environment(now), utxos)
      requires forall o :: o in utxos ==> o.hash in allTx && o.n < |allTx[o.hash].outputs|
      modifies `totalSent, `totalReceived, `balanceHist, `utxos, `invalidTx, `pendingTx, `spentOutputs, `usedAddrs
      ensures Current().(balance := bal') == Step(Environment(now), old(Current().(balance := bal)), tx)
    {
      hide Spends, WalletOutputs, Unspent, Sum, Conflicts, IsPending, UsedAddrs;
      ghost var env, s := Environment(now), Current().(balance := bal);
      SameEnvironment(env, Environment(0));
      bal' := bal;
      if tx.blockHeight == TX_UNCONFIRMED {
        var isInvalid := CheckInvalid(tx);
        ConflictsReads(Current(), s, tx);
        if isInvalid {
          invalidTx := invalidTx + {tx.hash};
          balanceHist := balanceHist + [bal];
          return;
        }
      }
      AddInputsToSpent(tx);
      if tx.blockHeight == TX_UNCONFIRMED {
        var isPending := CheckPending(tx, now);
        PendingReads(env, Current(), s, tx);
        if isPending {
          pendingTx := pendingTx + {tx.hash};
          balanceHist := balanceHist + [bal];
          return;
        }
      }
      ghost var os, added := utxos, WalletOutputs(env, tx, |tx.outputs|);
      SameWalletOutputs(env, Environment(0), tx, |tx.outputs|);
      SameSum(env, Environment(0), added);
      SameSum(env, Environment(0), os);
      SumConcat(Environment(0), os, added);
      WalletOutputsMembers(env, tx, |tx.outputs|);
      bal' := AddOutputs(tx, bal);
      bal' := Sweep(bal');
      SameSum(env, Environment(0), utxos);
      if prevBalance < bal' { totalReceived := totalReceived + (bal' - prevBalance); }
      if bal' < prevBalance { totalSent := totalSent + (prevBalance - bal'); }
      balanceHist := balanceHist + [bal'];
    }

    /** `_BRWalletUpdateBalance`: the ledger becomes the one the list of transactions determines. */
    method UpdateBalance(now: nat)
      requires Listed(Environment(now), transactions)
      modifies `balance, `totalSent, `totalReceived, `balanceHist, `utxos, `invalidTx, `pendingTx, `spentOutputs, `usedAddrs
      ensures Current() == Run(Environment(now), transactions)
    {
      hide Step;
      ghost var env := Environment(now);
      var bal, prevBalance := 0, 0;
      utxos, balanceHist, spentOutputs, invalidTx, pendingTx, usedAddrs := [], [], {}, {}, {}, {};
      totalSent, totalReceived := 0, 0;
      for i := 0 to |transactions|
        invariant Current().(balance := bal) == Run(env, transactions[..i])
        invariant prevBalance == bal
      {
        Conservation(env, transactions[..i]);
        UtxosKnown(env, transactions[..i]);
        assert transactions[..i + 1][..i] == transactions[..i];
        bal := Round(allTx[transactions[i]], now, bal, prevBalance);
        prevBalance := bal;
      }
      assert transactions[..|transactions|] == transactions;
      balance := bal;
    }

    // ---------- The list of transactions ----------

    method TxIsAscending(tx1: Tx, tx2: Tx, ghost rank: Hash -> nat) returns (r: bool)
      requires Acyclic(allTx, rank) && tx1.hash in allTx && allTx[tx1.hash] == tx1
      ensures r == Ascending(allTx, rank, tx1, tx2)
      decreases rank(tx1.hash)
    {
      if tx1.blockHeight > tx2.blockHeight { return true; }
      if tx1.blockHeight < tx2.blockHeight { return false; }
      for i := 0 to |tx1.inputs|
        invariant forall k: nat :: k < i ==> tx1.inputs[k].prev.hash != tx2.hash
      {
        if tx1.inputs[i].prev.hash == tx2.hash { return true; }
      }
      for i := 0 to |tx2.inputs|
        invariant forall k: nat :: k < i ==> tx2.inputs[k].prev.hash != tx1.hash
      {
        if tx2.inputs[i].prev.hash == tx1.hash { return false; }
      }
      for i := 0 to |tx1.inputs|
        invariant forall k: nat :: k < i ==> !AscendingParent(allTx, rank, tx1, k, tx2)
      {
        var h := tx1.inputs[i].prev.hash;
        if h in allTx {
          var ascending := TxIsAscending(allTx[h], tx2, rank);
          if ascending {
            assert AscendingParent(allTx, rank, tx1, i, tx2);
            return true;
          }
        }
      }
      return false;
    }

    method TxChainIndex(tx: Tx, chain: seq<Address>) returns (index: Option<nat>)
      ensures index == ChainIndex(tx, chain)
    {
      var i := |chain|;
      assert chain[..i] == chain;
      while i > 0
        invariant i <= |chain| && ChainIndex(tx, chain) == ChainIndex(tx, chain[..i])
      {
        for j := 0 to |tx.outputs|
          invariant forall k: nat :: k < j ==> tx.outputs[k].address != chain[i - 1]
        {
          if tx.outputs[j].address == chain[i - 1] { return Some(i - 1); }
        }
        assert chain[..i][..i - 1] == chain[..i - 1];
        i := i - 1;
      }
      return None;
    }

    method TxCompare(tx1: Tx, tx2: Tx, ghost rank: Hash -> nat) returns (c: int)
      requires Acyclic(allTx, rank)
      requires tx1.hash in allTx && allTx[tx1.hash] == tx1 && tx2.hash in allTx && allTx[tx2.hash] == tx2
      ensures c == Compare(allTx, rank, tx1, tx2, internalChain, externalChain)
    {
      var ascending := TxIsAscending(tx1, tx2, rank);
      if ascending { return 1; }
      ascending := TxIsAscending(tx2, tx1, rank);
      if ascending { return -1; }
      var i := TxChainIndex(tx1, internalChain);
      var j := TxChainIndex(tx2, if i.None? then externalChain else internalChain);
      if i.None? && j.Some? {
        i := TxChainIndex(tx1, externalChain);
      }
      if i.Some? && j.Some? && i != j {
        return if i.value > j.value then 1 else -1;
      }
      return 0;
    }

    /** `_BRWalletInsertTx`: insertion sort by one transaction. */
    method InsertTx(h: Hash, ghost rank: Hash -> nat) returns (ghost at: nat)
      requires Acyclic(allTx, rank) && Known(allTx, transactions) && h in allTx
      modifies `transactions
      ensures InsertionPoint(allTx, rank, old(transactions), h, at, internalChain, externalChain)
      ensures transactions == Inserted(old(transactions), h, at)
    {
      hide Compare, Shifted;
      ghost var was := transactions;
      ShiftStart(was, h);
      var i := |transactions|;
      transactions := transactions + [h];
      while i > 0
        invariant 0 <= i <= |was| && Shifted(was, transactions, i)
        invariant forall k :: i <= k < |was| ==>
          Compare(allTx, rank, allTx[was[k]], allTx[h], internalChain, externalChain) > 0
      {
        ShiftStep(was, transactions, i);
        var c := TxCompare(allTx[transactions[i - 1]], allTx[h], rank);
        if c <= 0 { break; }
        transactions := transactions[i := transactions[i - 1]];
        i := i - 1;
      }
      ShiftEnd(was, transactions, i, h);
      transactions := transactions[i := h];
      at := i;
    }

    // ---------- Addresses ----------

    function Chain(isInternal: bool): seq<Address>
      reads `internalChain, `externalChain
    {
      if isInternal then internalChain else externalChain
    }

    /** The known addresses are those of the two chains. */
    ghost predicate AddressesValid()
      reads `internalChain, `externalChain, `allAddrs
    {
      && IsChain(derive, true, internalChain) && IsChain(derive, false, externalChain)
      && allAddrs == Elements(internalChain) + Elements(externalChain)
    }

    /** The addresses of both chains, entered one by one. */
    method RebuildAddrs()
      modifies `allAddrs
      ensures allAddrs == Elements(internalChain) + Elements(externalChain)
    {
      allAddrs := {};
      var i := |internalChain|;
      while i > 0
        invariant 0 <= i <= |internalChain| && allAddrs == Elements(internalChain[i..])
      {
        allAddrs := allAddrs + {internalChain[i - 1]};
        assert internalChain[i - 1..] == [internalChain[i - 1]] + internalChain[i..];
        i := i - 1;
      }
      assert internalChain[0..] == internalChain && externalChain[|externalChain|..] == [];
      i := |externalChain|;
      while i > 0
        invariant 0 <= i <= |externalChain| && allAddrs == Elements(internalChain) + Elements(externalChain[i..])
      {
        allAddrs := allAddrs + {externalChain[i - 1]};
        assert externalChain[i - 1..] == [externalChain[i - 1]] + externalChain[i..];
        i := i - 1;
      }
      assert externalChain[0..] == externalChain;
    }

    /** Generates addresses until `gapLimit` unused ones follow the last used one, which `i` comes after. */
    method ExtendChain(gapLimit: nat, isInternal: bool, chain0: seq<Address>) returns (chain: seq<Address>, i: nat)
      requires IsChain(derive, isInternal, chain0) && Injective(derive)
      ensures IsChain(derive, isInternal, chain) && chain0 <= chain && i == AfterLastUsed(chain, usedAddrs)
      ensures |chain| < i + gapLimit ==> !Derivable(derive, isInternal, |chain|)
      ensures |chain| > |chain0| ==> |chain| <= i + gapLimit
    {
      hide IsChain, Injective;
      chain, i := chain0, |chain0|;
      while i > 0 && chain[i - 1] !in usedAddrs
        invariant 0 <= i <= |chain|
        invariant forall k :: i <= k < |chain| ==> chain[k] !in usedAddrs
      {
        i := i - 1;
      }
      while i + gapLimit > |chain|
        invariant i <= |chain| && (i > 0 ==> chain[i - 1] in usedAddrs)
        invariant forall k :: i <= k < |chain| ==> chain[k] !in usedAddrs
        invariant chain0 <= chain && IsChain(derive, isInternal, chain)
        invariant |chain| > |chain0| ==> |chain| <= i + gapLimit
        decreases |usedAddrs - Elements(chain)|, i + gapLimit - |chain|
      {
        if !Derivable(derive, isInternal, |chain|) { break; }
        var address := derive(isInternal, |chain|).value;
        NextIsNew(derive, isInternal, chain);
        FewerMissing(usedAddrs, chain, address);
        ChainGrows(derive, isInternal, chain);
        chain := chain + [address];
        if address in usedAddrs { i := |chain|; }
      }
      AfterLastUsedIs(chain, usedAddrs, i);
    }

    method SetChain(isInternal: bool, chain: seq<Address>)
      modifies `internalChain, `externalChain
      ensures Chain(isInternal) == chain && Chain(!isInternal) == old(Chain(!isInternal))
    {
      if isInternal { internalChain := chain; } else { externalChain := chain; }
    }

    method CopyAddrs(chain: seq<Address>, i: nat, count: nat) returns (addrs: seq<Address>)
      requires i + count <= |chain|
      ensures addrs == chain[i..i + count]
    {
      addrs := [];
      for j := 0 to count
        invariant addrs == chain[i..i + j]
      {
        addrs := addrs + [chain[i + j]];
      }
    }

    method AddAddrs(chain: seq<Address>, start: nat)
      requires start <= |chain|
      modifies `allAddrs
      ensures allAddrs == old(allAddrs) + Elements(chain[start..])
    {
      for k := start to |chain|
        invariant allAddrs == old(allAddrs) + Elements(chain[start..k])
      {
        allAddrs := allAddrs + {chain[k]};
        assert chain[start..k + 1] == chain[start..k] + [chain[k]];
      }
      assert chain[start..|chain|] == chain[start..];
    }

    /** Enters the new addresses, or all of them if the chain moved. */
    method ReplaceChain(isInternal: bool, chain: seq<Address>, moved: bool)
      requires AddressesValid() && Chain(isInternal) <= chain && IsChain(derive, isInternal, chain)
      modifies `internalChain, `externalChain, `allAddrs
      ensures AddressesValid() && old(allAddrs) <= allAddrs
      ensures Chain(isInternal) == chain && Chain(!isInternal) == old(Chain(!isInternal))
    {
      hide IsChain, Elements;
      ghost var was := Chain(isInternal);
      var startCount := |Chain(isInternal)|;
      assert chain == was + chain[startCount..];
      ElementsConcat(was, chain[startCount..]);
      SetChain(isInternal, chain);
      if moved {
        RebuildAddrs();
      } else {
        AddAddrs(chain, startCount);
      }
    }

    /**
     `BRWalletUnusedAddrs`. `moved` tells whether growing the chain moved it in memory; `wanted` whether the caller
     asks for the addresses.
    */
    method UnusedAddrs(gapLimit: nat, isInternal: bool, wanted: bool, moved: bool) returns (addrs: seq<Address>)
      requires gapLimit > 0 && AddressesValid() && Injective(derive)
      modifies `internalChain, `externalChain, `allAddrs
      ensures AddressesValid() && old(allAddrs) <= allAddrs
      ensures Chain(!isInternal) == old(Chain(!isInternal)) && old(Chain(isInternal)) <= Chain(isInternal)
      ensures var chain, start := Chain(isInternal), AfterLastUsed(Chain(isInternal), usedAddrs);
        && (|chain| < start + gapLimit ==> !Derivable(derive, isInternal, |chain|))
        && (|chain| > |old(Chain(isInternal))| ==> |chain| <= start + gapLimit)
        && addrs == if wanted && HasGap(chain, usedAddrs, gapLimit) then chain[start..start + gapLimit] else []
      ensures NeverFails(derive) ==> HasGap(Chain(isInternal), usedAddrs, gapLimit)
    {
      hide IsChain, Derivable, Injective, AfterLastUsed, Elements;
      var chain, i := ExtendChain(gapLimit, isInternal, Chain(isInternal));
      addrs := [];
      if wanted && i + gapLimit <= |chain| {
        addrs := CopyAddrs(chain, i, gapLimit);
      }
      ReplaceChain(isInternal, chain, moved);
    }

    // ---------- Changes to the list ----------

    /** The invariant of the list and the addresses. */
    ghost predicate Valid(rank: Hash -> nat)
      reads `allTx, `transactions, `internalChain, `externalChain, `allAddrs
    {
      Acyclic(allTx, rank) && Known(allTx, transactions) && Sorted(allTx, transactions) && AddressesValid()
    }

    /** `_BRWalletContainsTx` */
    method ContainsTx(tx: Tx) returns (r: bool)
      ensures r == Touches(allTx, allAddrs, tx)
    {
      r := false;
      var i := 0;
      while !r && i < |tx.outputs|
        invariant i <= |tx.outputs|
        invariant r <==> exists j: nat :: j < i && tx.outputs[j].address in allAddrs
      {
        if tx.outputs[i].address in allAddrs { r := true; }
        i := i + 1;
      }
      i := 0;
      while !r && i < |tx.inputs|
        invariant i <= |tx.inputs| && (r ==> Touches(allTx, allAddrs, tx))
        invariant !r ==> !exists j: nat :: j < |tx.outputs| && tx.outputs[j].address in allAddrs
        invariant !r ==> forall j: nat :: j < i ==> !SpendsWallet(allTx, allAddrs, tx.inputs[j])
      {
        var o := tx.inputs[i].prev;
        if o.hash in allTx && o.n < |allTx[o.hash].outputs| && allTx[o.hash].outputs[o.n].address in allAddrs {
          assert SpendsWallet(allTx, allAddrs, tx.inputs[i]);
          r := true;
        }
        i := i + 1;
      }
    }

    /** Takes the entry at `k` out of the list and inserts it again. */
    method ReinsertAt(k: nat, ghost rank: Hash -> nat)
      requires Acyclic(allTx, rank) && Known(allTx, transactions) && k < |transactions|
      requires SortedApartFrom(allTx, transactions, transactions[k])
      modifies `transactions
      ensures Known(allTx, transactions) && Sorted(allTx, transactions)
      ensures multiset(transactions) == multiset(old(transactions))
      ensures Moved(allTx, rank, old(transactions), old(transactions[k]), transactions, internalChain, externalChain)
    {
      hide Compare, Moved;
      ghost var was := transactions;
      var h := transactions[k];
      Removed(allTx, transactions, h, k);
      transactions := transactions[..k] + transactions[k + 1..];
      ghost var rest := transactions;
      ghost var at := InsertTx(h, rank);
      InsertSorted(allTx, rank, rest, h, at, internalChain, externalChain);
      InsertedElements(rest, h, at);
      MovedBy(allTx, rank, was, k, at, transactions, internalChain, externalChain);
    }

    /** Takes `h` out of the list and inserts it again, where its new height puts it. */
    method Reinsert(h: Hash, ghost rank: Hash -> nat)
      requires Acyclic(allTx, rank) && Known(allTx, transactions) && h in allTx && SortedApartFrom(allTx, transactions, h)
      modifies `transactions
      ensures Known(allTx, transactions) && Sorted(allTx, transactions)
      ensures multiset(transactions) == multiset(old(transactions))
      ensures Moved(allTx, rank, old(transactions), h, transactions, internalChain, externalChain)
    {
      hide Moved;
      var k := |transactions|;
      while k > 0
        invariant 0 <= k <= |transactions| && transactions == old(transactions)
        invariant h !in transactions[k..]
      {
        if transactions[k - 1] == h {
          ReinsertAt(k - 1, rank);
          return;
        }
        k := k - 1;
      }
      assert transactions[0..] == transactions;
      NotMoved(allTx, rank, transactions, h, internalChain, externalChain);
    }

    /** One round of the loop of `BRWalletUpdateTransactions`; tells whether the transaction touches the wallet. */
    method UpdateOne(h: Hash, height: nat, timestamp: nat, ghost rank: Hash -> nat) returns (contains: bool)
      requires Valid(rank) && h in allTx
      requires h in transactions ==> Touches(allTx, allAddrs, WithHeight(allTx[h], height, timestamp))
      modifies `allTx, `transactions
      ensures Valid(rank) && multiset(transactions) == multiset(old(transactions))
      ensures contains == Touches(old(allTx), allAddrs, WithHeight(old(allTx[h]), height, timestamp))
      ensures allTx == if contains || height == TX_UNCONFIRMED
        then old(allTx)[h := WithHeight(old(allTx[h]), height, timestamp)] else old(allTx) - {h}
      ensures contains ==> Moved(allTx, rank, old(transactions), h, transactions, internalChain, externalChain)
      ensures !contains ==> transactions == old(transactions)
      ensures height != TX_UNCONFIRMED ==> Waiting(allTx, transactions) == Waiting(allTx, old(transactions))
    {
      hide Touches, IsChain, Moved, Waiting;
      ghost var was := allTx;
      var tx := allTx[h].(timestamp := timestamp, blockHeight := height);
      allTx := allTx[h := tx];
      TouchesStays(was, allTx, allAddrs, tx, tx);
      contains := ContainsTx(tx);
      if contains {
        Reinsert(h, rank);
        if height != TX_UNCONFIRMED {
          WaitingMoved(allTx, rank, old(transactions), h, transactions, internalChain, externalChain);
        }
      } else if height != TX_UNCONFIRMED {
        allTx := allTx - {h};
      }
    }

    /** The loop of `BRWalletUpdateTransactions`; tells whether the ledger is to be recomputed. */
    method UpdateEach(txHashes: seq<Hash>, height: nat, timestamp: nat, ghost rank: Hash -> nat)
      returns (needsUpdate: bool)
      requires Valid(rank) && ChangedTouch(allTx, allAddrs, transactions, txHashes, height, timestamp)
      modifies `allTx, `transactions
      ensures Valid(rank)
      ensures AllTouch(old(allTx), allAddrs, old(transactions)) ==> AllTouch(allTx, allAddrs, transactions)
      ensures allTx == Updated(old(allTx), allAddrs, txHashes, height, timestamp)
      ensures multiset(transactions) == multiset(old(transactions))
      ensures needsUpdate == Reconsidered(old(allTx), allAddrs, txHashes, height, timestamp, pendingTx + invalidTx)
      ensures height != TX_UNCONFIRMED ==> SameQueue(allTx, old(transactions), transactions)
    {
      hide Touches, IsChain, Updated, Reconsidered, Moved, Waiting;
      needsUpdate := false;
      ghost var was, list, flagged := allTx, transactions, pendingTx + invalidTx;
      NothingUpdated(was, allAddrs, height, timestamp);
      NothingReconsidered(was, allAddrs, height, timestamp, flagged);
      for i := 0 to |txHashes|
        invariant Valid(rank) && allTx == Updated(was, allAddrs, txHashes[..i], height, timestamp)
        invariant multiset(transactions) == multiset(list)
        invariant needsUpdate == Reconsidered(was, allAddrs, txHashes[..i], height, timestamp, flagged)
        invariant height != TX_UNCONFIRMED ==> Waiting(allTx, transactions) == Waiting(allTx, list)
      {
        var h := txHashes[i];
        ghost var before, order := allTx, transactions;
        UpdatedStep(was, allAddrs, txHashes, i, height, timestamp);
        ReconsideredStep(was, allAddrs, txHashes, i, height, timestamp, flagged);
        if h in allTx && (allTx[h].blockHeight != height || allTx[h].timestamp != timestamp) {
          SameMembers(transactions, list);
          UpdatedTouches(was, allAddrs, txHashes[..i], height, timestamp, was[h], WithHeight(was[h], height, timestamp));
          var contains := UpdateOne(h, height, timestamp, rank);
          if contains && (h in pendingTx || h in invalidTx) { needsUpdate := true; }
          if height != TX_UNCONFIRMED { WaitingUpdated(before, allTx, list, order, transactions); }
        }
      }
      assert txHashes[..|txHashes|] == txHashes;
      SameMembers(transactions, list);
      if AllTouch(was, allAddrs, list) { UpdatedAllTouch(was, allAddrs, list, txHashes, height, timestamp); }
    }

    /** `BRWalletUpdateTransactions` */
    method UpdateTransactions(txHashes: seq<Hash>, height: nat, timestamp: nat, now: nat, ghost rank: Hash -> nat)
      requires Valid(rank) && ChangedTouch(allTx, allAddrs, transactions, txHashes, height, timestamp)
      modifies this
      ensures Valid(rank)
      ensures AllTouch(old(allTx), allAddrs, old(transactions)) ==> AllTouch(allTx, allAddrs, transactions)
      ensures allAddrs == old(allAddrs) && internalChain == old(internalChain) && externalChain == old(externalChain)
      ensures allTx == Updated(old(allTx), allAddrs, txHashes, height, timestamp)
      ensures multiset(transactions) == multiset(old(transactions))
      ensures blockHeight == if height > old(blockHeight) then height else old(blockHeight)
      ensures Current() ==
        if Reconsidered(old(allTx), allAddrs, txHashes, height, timestamp, old(pendingTx) + old(invalidTx))
        then Run(Environment(now), transactions) else old(Current())
      ensures old(Fresh(now)) && height < TX_UNCONFIRMED ==>
        (Fresh(now) <==>
          (|| Reconsidered(old(allTx), allAddrs, txHashes, height, timestamp, old(pendingTx) + old(invalidTx))
           || (&& PendingKept(old(Environment(now)), old(transactions), Environment(now))
               && SweepKept(old(Environment(now)), old(transactions), Environment(now)))))
      ensures old(NearlyFresh(now)) && height < TX_UNCONFIRMED ==>
        (|| Reconsidered(old(allTx), allAddrs, txHashes, height, timestamp, old(pendingTx) + old(invalidTx))
         || PendingKept(old(Environment(now)), old(transactions), Environment(now))) ==> NearlyFresh(now)
    {
      hide Touches, Run, IsChain, Updated, Reconsidered, SameQueue, PendingKept, SweepKept, IsFresh, IsNearlyFresh,
           ChangedTouch, AllTouch;
      ghost var current, env, list := Current(), Environment(now), transactions;
      if height > blockHeight { blockHeight := height; }
      var needsUpdate := UpdateEach(txHashes, height, timestamp, rank);
      if needsUpdate { UpdateBalance(now); }
      if IsFresh(current, env, list) && height < TX_UNCONFIRMED {
        FreshAfterUpdate(current, env, list, Current(), Environment(now), transactions, txHashes, height, timestamp);
      }
      if IsNearlyFresh(current, env, list) && height < TX_UNCONFIRMED &&
         (|| Reconsidered(env.allTx, allAddrs, txHashes, height, timestamp, current.pending + current.invalid)
          || PendingKept(env, list, Environment(now))) {
        NearlyAfterUpdate(current, env, list, Current(), Environment(now), transactions, txHashes, height, timestamp);
      }
    }

    method UnconfirmFrom(i: nat, count: nat)
      requires Known(allTx, transactions) && i + count == |transactions|
      modifies `allTx
      ensures allTx == UnconfirmedIn(old(allTx), transactions[i..])
    {
      ghost var was := allTx;
      for j := 0 to count
        invariant allTx == UnconfirmedIn(was, transactions[i..i + j])
      {
        UnconfirmedStep(was, transactions, i, i + j);
        allTx := allTx[transactions[i + j] := allTx[transactions[i + j]].(blockHeight := TX_UNCONFIRMED)];
      }
      assert transactions[i..i + count] == transactions[i..];
    }

    method FirstAbove(height: nat) returns (i: nat)
      requires Known(allTx, transactions) && Sorted(allTx, transactions)
      ensures i <= |transactions| && (AnyAbove(allTx, transactions, height) <==> i < |transactions|)
      ensures forall h :: h in transactions ==> (allTx[h].blockHeight > height <==> h in transactions[i..])
    {
      i := |transactions|;
      while i > 0 && allTx[transactions[i - 1]].blockHeight > height
        invariant 0 <= i <= |transactions|
        invariant forall k :: i <= k < |transactions| ==> allTx[transactions[k]].blockHeight > height
      {
        i := i - 1;
      }
      SuffixAbove(allTx, transactions, i, height);
    }

    /** `BRWalletSetTxUnconfirmedAfter` */
    method SetTxUnconfirmedAfter(height: nat, now: nat, ghost rank: Hash -> nat)
      requires Valid(rank)
      modifies this
      ensures allAddrs == old(allAddrs) && internalChain == old(internalChain) && externalChain == old(externalChain)
      ensures blockHeight == height && transactions == old(transactions)
      ensures allTx == Unconfirmed(old(allTx), transactions, height)
      ensures height <= TX_UNCONFIRMED ==> Valid(rank)
      ensures AllTouch(old(allTx), allAddrs, transactions) ==> AllTouch(allTx, allAddrs, transactions)
      ensures Current() ==
        if AnyAbove(old(allTx), transactions, height) then Run(Environment(now), transactions) else old(Current())
      ensures old(Fresh(now)) && height <= TX_UNCONFIRMED ==>
        (Fresh(now) <==>
          (|| AnyAbove(old(allTx), transactions, height)
           || PendingKept(old(Environment(now)), transactions, Environment(now))))
      ensures old(NearlyFresh(now)) && height <= TX_UNCONFIRMED ==>
        (|| AnyAbove(old(allTx), transactions, height)
         || PendingKept(old(Environment(now)), transactions, Environment(now))) ==> NearlyFresh(now)
    {
      hide Run, IsChain, AllTouch, UnconfirmedIn, Unconfirmed, AnyAbove, PendingKept, IsFresh, IsNearlyFresh;
      ghost var current, env := Current(), Environment(now);
      ghost var was := allTx;
      blockHeight := height;
      var i := FirstAbove(height);
      var count := |transactions| - i;
      UnconfirmFrom(i, count);
      UnconfirmedSuffix(was, transactions, i, height);
      UnconfirmedBodies(was, rank, transactions, height);
      if AllTouch(was, allAddrs, transactions) { UnconfirmedTouch(was, allAddrs, transactions, height); }
      if count > 0 { UpdateBalance(now); }
      if IsFresh(current, env, transactions) { FreshIsNearly(current, env, transactions); }
      if IsNearlyFresh(current, env, transactions) && height <= TX_UNCONFIRMED {
        FreshAfterUnconfirming(current, env, Current(), Environment(now), transactions, height);
      }
    }

    /** How many transactions at the end of the list are at or above the height. */
    method CountAtEnd(height: nat) returns (n: nat)
      requires Known(allTx, transactions) && Sorted(allTx, transactions)
      ensures n == Trailing(allTx, transactions, height) && SuffixFrom(allTx, transactions, n, height)
    {
      hide Trailing, Sorted, SuffixFrom;
      var total := |transactions|;
      n := 0;
      while n < total && allTx[transactions[total - n - 1]].blockHeight >= height
        invariant n <= total
        invariant forall k :: total - n <= k < total ==> allTx[transactions[k]].blockHeight >= height
      {
        n := n + 1;
      }
      ScanIsExact(allTx, transactions, n, height);
      TrailingIs(allTx, transactions, height, n);
    }

    /** `BRWalletTxUnconfirmedBefore`; `limit` is the room the caller offers, if it wants the transactions at all. */
    method TxUnconfirmedBefore(limit: Option<nat>, height: nat, ghost rank: Hash -> nat)
      returns (count: nat, txs: seq<Hash>)
      requires Valid(rank)
      ensures var all := Trailing(allTx, transactions, height);
        && SuffixFrom(allTx, transactions, all, height)
        && count == (if limit.Some? && limit.value < all then limit.value else all)
        && txs == if limit.Some? then transactions[|transactions| - all..|transactions| - all + count] else []
    {
      hide IsChain, Acyclic, Trailing, SuffixFrom, Elements;
      var n := CountAtEnd(height);
      count := if limit.None? || n < limit.value then n else limit.value;
      txs := [];
      if limit.Some? { txs := CopyTxs(|transactions| - n, count); }
    }

    method CopyTxs(start: nat, count: nat) returns (txs: seq<Hash>)
      requires start + count <= |transactions|
      ensures txs == transactions[start..start + count]
    {
      txs := [];
      for i := 0 to count
        invariant txs == transactions[start..start + i]
      {
        txs := txs + [transactions[start + i]];
      }
    }

    /** Adds a new transaction that touches the wallet, and recomputes the ledger. */
    method AddTx(tx: Tx, now: nat, ghost rank: Hash -> nat) returns (ghost at: nat)
      requires Valid(rank) && Acyclic(allTx[tx.hash := tx], rank) && tx.hash !in allTx
      modifies `allTx, `transactions, `balance, `totalSent, `totalReceived, `balanceHist, `utxos, `invalidTx, `pendingTx,
        `spentOutputs, `usedAddrs
      ensures Valid(rank) && allTx == old(allTx)[tx.hash := tx]
      ensures InsertionPoint(allTx, rank, old(transactions), tx.hash, at, internalChain, externalChain)
      ensures transactions == Inserted(old(transactions), tx.hash, at)
      ensures Current() == Run(Environment(now), transactions)
    {
      hide Run, IsChain, Compare;
      ghost var list := transactions;
      allTx := allTx[tx.hash := tx];
      at := InsertTx(tx.hash, rank);
      InsertSorted(allTx, rank, list, tx.hash, at, internalChain, externalChain);
      UpdateBalance(now);
    }

    /** New addresses replace the ones the transactions used. */
    method Replenish(moved0: bool, moved1: bool)
      requires AddressesValid() && Injective(derive)
      modifies `internalChain, `externalChain, `allAddrs
      ensures AddressesValid() && old(allAddrs) <= allAddrs
      ensures old(internalChain) <= internalChain && old(externalChain) <= externalChain
      ensures NeverFails(derive) ==> HasGap(internalChain, usedAddrs, GAP_LIMIT_INTERNAL) &&
                                     HasGap(externalChain, usedAddrs, GAP_LIMIT_EXTERNAL)
    {
      hide IsChain, Injective, NeverFails, HasGap, Derivable, Elements;
      var unused := UnusedAddrs(GAP_LIMIT_EXTERNAL, false, false, moved0);
      unused := UnusedAddrs(GAP_LIMIT_INTERNAL, true, false, moved1);
    }

    /** Adds a transaction, and then the addresses that replace the ones it used. */
    method AddAndReplenish(tx: Tx, now: nat, moved0: bool, moved1: bool, ghost rank: Hash -> nat) returns (ghost at: nat)
      requires Valid(rank) && Acyclic(allTx[tx.hash := tx], rank) && tx.hash !in allTx && Injective(derive)
      modifies this
      ensures Valid(rank) && blockHeight == old(blockHeight) && allTx == old(allTx)[tx.hash := tx]
      ensures InsertionPoint(allTx, rank, old(transactions), tx.hash, at, old(internalChain), old(externalChain))
      ensures transactions == Inserted(old(transactions), tx.hash, at)
      ensures Current() == Run(old(Environment(now)).(allTx := allTx), transactions)
      ensures LowHeights(allTx, transactions) ==>
        (Fresh(now) <==> forall o :: !NewlyPaid(old(Environment(now)).(allTx := allTx), transactions, allAddrs, o))
      ensures old(allAddrs) <= allAddrs
      ensures old(internalChain) <= internalChain && old(externalChain) <= externalChain
      ensures NeverFails(derive) ==> HasGap(internalChain, usedAddrs, GAP_LIMIT_INTERNAL) &&
                                     HasGap(externalChain, usedAddrs, GAP_LIMIT_EXTERNAL)
    {
      hide Run, IsChain, Injective, NeverFails, HasGap, Compare, NewlyPaid, IsFresh;
      at := AddTx(tx, now, rank);
      ghost var env := Environment(now);
      Replenish(moved0, moved1);
      if LowHeights(allTx, transactions) { FreshWithAddrs(Current(), env, transactions, allAddrs); }
    }

    /** What pays the wallet, or spends what it records as unspent, touches it. */
    lemma RelevantTouches(tx: Tx, now: nat)
      ensures PaysAny(tx, allAddrs) || (NearlyFresh(now) && SpendsUtxo(tx, utxos)) ==> Touches(allTx, allAddrs, tx)
    {
      hide Touches, PaysAny, SpendsUtxo, IsNearlyFresh;
      if PaysAny(tx, allAddrs) { PayerTouches(allTx, allAddrs, tx); }
      if NearlyFresh(now) && SpendsUtxo(tx, utxos) {
        NearlySpenderTouches(Current(), Environment(now), transactions, tx);
      }
    }

    /** `BRWalletRegisterTransaction` */
    method RegisterTransaction(tx: Tx, now: nat, moved0: bool, moved1: bool, ghost rank: Hash -> nat)
      returns (r: bool, ghost at: nat)
      requires Valid(rank) && Acyclic(allTx[tx.hash := tx], rank) && Injective(derive)
      modifies this
      ensures Valid(rank) && blockHeight == old(blockHeight)
      ensures AllTouch(old(allTx), old(allAddrs), old(transactions)) ==> AllTouch(allTx, allAddrs, transactions)
      ensures r == (IsSigned(tx) && (tx.hash in old(allTx) || Touches(old(allTx), old(allAddrs), tx)))
      ensures IsSigned(tx) && PaysAny(tx, old(allAddrs)) ==> r
      ensures IsSigned(tx) && old(NearlyFresh(now)) && SpendsUtxo(tx, old(utxos)) ==> r
      ensures
        if tx.hash !in old(allTx) && r then
          && allTx == old(allTx)[tx.hash := tx]
          && InsertionPoint(allTx, rank, old(transactions), tx.hash, at, old(internalChain), old(externalChain))
          && transactions == Inserted(old(transactions), tx.hash, at)
          && Current() == Run(old(Environment(now)).(allTx := allTx), transactions)
          && (LowHeights(allTx, transactions) ==>
               (Fresh(now) <==>
                 forall o :: !NewlyPaid(old(Environment(now)).(allTx := allTx), transactions, allAddrs, o)))
          && old(internalChain) <= internalChain && old(externalChain) <= externalChain
          && (NeverFails(derive) ==> HasGap(internalChain, usedAddrs, GAP_LIMIT_INTERNAL) &&
                                     HasGap(externalChain, usedAddrs, GAP_LIMIT_EXTERNAL))
        else
          && allTx == (if IsSigned(tx) && tx.hash !in old(allTx) && tx.blockHeight == TX_UNCONFIRMED
                       then old(allTx)[tx.hash := tx] else old(allTx))
          && transactions == old(transactions) && Current() == old(Current()) && allAddrs == old(allAddrs)
    {
      hide Run, IsChain, Touches, AllTouch, Injective, NeverFails, HasGap, Compare, NewlyPaid, IsFresh,
           NearlyFresh, PaysAny, SpendsUtxo;
      r, at := true, 0;
      ghost var was, addrs, list := allTx, allAddrs, transactions;
      RelevantTouches(tx, now);
      if !IsSigned(tx) { return false, 0; }
      if tx.hash in allTx { return; }
      var contains := ContainsTx(tx);
      if contains {
        at := AddAndReplenish(tx, now, moved0, moved1, rank);
        AllTouchInserted(was, allTx, addrs, allAddrs, list, tx.hash, at);
      } else {
        if tx.blockHeight == TX_UNCONFIRMED {
          if AllTouch(was, addrs, list) { AllTouchGrows(was, was[tx.hash := tx], addrs, addrs, list); }
          allTx := allTx[tx.hash := tx];
        }
        r := false;
      }
    }

    // ---------- A wallet for known transactions ----------

    method ListOne(tx: Tx, ghost rank: Hash -> nat)
      requires Valid(rank) && tx.hash !in allTx && Acyclic(allTx[tx.hash := tx], rank)
      modifies `allTx, `transactions, `usedAddrs
      ensures Valid(rank) && allTx == old(allTx)[tx.hash := tx]
      ensures forall h :: h in transactions <==> h in old(transactions) || h == tx.hash
      ensures usedAddrs == old(usedAddrs) + UsedAddrs(tx, |tx.outputs|)
    {
      hide Compare, AddressesValid, UsedAddrs;
      ghost var list := transactions;
      allTx := allTx[tx.hash := tx];
      ghost var at := InsertTx(tx.hash, rank);
      InsertSorted(allTx, rank, list, tx.hash, at, internalChain, externalChain);
      InsertedElements(list, tx.hash, at);
      SameMembers(transactions, list + [tx.hash]);
      usedAddrs := usedAddrs + UsedAddrs(tx, |tx.outputs|);
    }

    /** Lists the signed ones among the given transactions, each hash once. */
    method ListTransactions(txs: seq<Tx>, ghost rank: Hash -> nat)
      requires Valid(rank) && allTx == map[] && RankedBy(txs, rank)
      modifies `allTx, `transactions, `usedAddrs
      ensures Valid(rank)
      ensures forall h :: h in transactions <==> h in allTx
      ensures forall h :: h in allTx <==> exists i: nat :: i < |txs| && IsSigned(txs[i]) && txs[i].hash == h
      ensures forall h :: h in allTx ==> allTx[h] in txs && IsSigned(allTx[h])
      ensures AllUsed(allTx, usedAddrs)
    {
      hide AddressesValid, AllListed, Acyclic, Known, Sorted, RankedBy, UsedAddrs;
      NothingListed(transactions, txs);
      for n := 0 to |txs|
        invariant Valid(rank) && AllListed(allTx, transactions, txs, n) && AllUsed(allTx, usedAddrs)
      {
        var tx := txs[n];
        ghost var list, was := transactions, allTx;
        if IsSigned(tx) && tx.hash !in allTx {
          AddedBody(allTx, rank, txs, n);
          ListOne(tx, rank);
        }
        OneMoreListed(was, list, allTx, transactions, txs, n);
      }
      WhatIsListed(allTx, transactions, txs, |txs|);
    }

    /** `BRWalletNew`, which gives up the wallet if the first transaction does not touch it. */
    method Load(txs: seq<Tx>, now: nat, moved0: bool, moved1: bool, ghost rank: Hash -> nat) returns (kept: bool)
      requires Valid(rank) && allTx == map[] && RankedBy(txs, rank) && Injective(derive)
      modifies this
      ensures Valid(rank) && Current() == Run(Environment(now), transactions)
      ensures forall h :: h in transactions <==> h in allTx
      ensures forall h :: h in allTx <==> exists i: nat :: i < |txs| && IsSigned(txs[i]) && txs[i].hash == h
      ensures kept <==> (|txs| == 0 || Touches(allTx, allAddrs, txs[0]))
      ensures NeverFails(derive) ==> HasGap(internalChain, usedAddrs, GAP_LIMIT_INTERNAL) &&
                                     HasGap(externalChain, usedAddrs, GAP_LIMIT_EXTERNAL)
    {
      hide Run, AddressesValid, Injective, Touches, NeverFails, HasGap, Compare, AllUsed;
      ListTransactions(txs, rank);
      Replenish(moved0, moved1);
      ghost var used := usedAddrs;
      UpdateBalance(now);
      UsedByListed(Environment(now), transactions, used);
      if NeverFails(derive) {
        GapStays(internalChain, used, usedAddrs, GAP_LIMIT_INTERNAL);
        GapStays(externalChain, used, usedAddrs, GAP_LIMIT_EXTERNAL);
      }
      kept := true;
      if |txs| > 0 { kept := ContainsTx(txs[0]); }
    }

    // ---------- Removal ----------

    /** The listed transactions that spend an output of `h`, the latest first. */
    method FindDependents(h: Hash, ghost rank: Hash -> nat) returns (hashes: seq<Hash>)
      requires Valid(rank) && ParentsFirst(allTx, transactions) && h in allTx
      ensures forall d :: d in hashes <==> d in transactions && DependsOn(allTx[d], h)
    {
      hide AddressesValid;
      hashes := [];
      var i := |transactions|;
      while i > 0
        invariant 0 <= i <= |transactions|
        invariant forall d :: d in hashes <==> d in transactions[i..] && DependsOn(allTx[d], h)
      {
        var t := allTx[transactions[i - 1]];
        if t.blockHeight < allTx[h].blockHeight {
          NoneBelow(allTx, transactions, i, h);
          assert transactions == transactions[..i] + transactions[i..];
          return;
        }
        assert transactions[i - 1..] == [transactions[i - 1]] + transactions[i..];
        if transactions[i - 1] != h {
          for j := 0 to |t.inputs|
            invariant forall k: nat :: k < j ==> t.inputs[k].prev.hash != h
          {
            if t.inputs[j].prev.hash == h {
              hashes := hashes + [t.hash];
              break;
            }
          }
        }
        i := i - 1;
      }
      assert transactions[0..] == transactions;
    }

    method RemoveFromList(h: Hash)
      requires Known(allTx, transactions) && forall d :: d in transactions ==> !DependsOn(allTx[d], h)
      modifies `transactions
      ensures Shrunk(allTx, old(transactions), allTx - {h}, transactions)
    {
      hide Shrunk, DependsOn;
      ghost var list := transactions;
      var i := |transactions|;
      while i > 0 && transactions[i - 1] != h
        invariant 0 <= i <= |transactions| && h !in transactions[i..]
      {
        i := i - 1;
      }
      ShrunkByOne(allTx, list, h, if i > 0 then i - 1 else |list|);
      if i > 0 {
        transactions := transactions[..i - 1] + transactions[i..];
      }
    }

    /** Forgets a transaction that no listed one spends. */
    method RemoveOne(h: Hash, now: nat, ghost rank: Hash -> nat)
      requires Valid(rank) && ParentsFirst(allTx, transactions) && h in allTx
      requires forall d :: d in transactions ==> !DependsOn(allTx[d], h)
      modifies `allTx, `transactions, `balance, `totalSent, `totalReceived, `balanceHist, `utxos, `invalidTx, `pendingTx,
        `spentOutputs, `usedAddrs
      ensures Valid(rank) && ParentsFirst(allTx, transactions)
      ensures allTx == old(allTx) - {h} && Shrunk(old(allTx), old(transactions), allTx, transactions)
      ensures Current() == Run(Environment(now), transactions)
    {
      hide Run, AddressesValid, Shrunk, DependsOn, ParentsFirst;
      ghost var was, list := allTx, transactions;
      RemoveFromList(h);
      allTx := allTx - {h};
      ShrunkValid(was, list, allTx, transactions, rank);
      UpdateBalance(now);
    }

    /** `BRWalletRemoveTransaction`: removes the transaction and everything that depends on it. */
    method RemoveTransaction(h: Hash, now: nat, ghost rank: Hash -> nat)
      requires Valid(rank) && ParentsFirst(allTx, transactions)
      modifies `allTx, `transactions, `balance, `totalSent, `totalReceived, `balanceHist, `utxos, `invalidTx, `pendingTx,
        `spentOutputs, `usedAddrs
      ensures Valid(rank) && ParentsFirst(allTx, transactions) && h !in allTx
      ensures Shrunk(old(allTx), old(transactions), allTx, transactions)
      ensures OnlyDependents(old(allTx), rank, old(transactions), allTx, h)
      ensures h in old(allTx) ==> Current() == Run(Environment(now), transactions)
      ensures h !in old(allTx) ==> allTx == old(allTx) && transactions == old(transactions) && Current() == old(Current())
      decreases |Above(transactions, rank, h)|
    {
      hide Run, AddressesValid, Shrunk, DependsOn, OnlyDependents, Depends, Above;
      ghost var was, list := allTx, transactions;
      ShrunkSelf(was, list);
      NothingRemoved(was, rank, list, h);
      if h !in allTx { return; }
      var hashes := FindDependents(h, rank);
      if hashes == [] {
        RemoveOne(h, now, rank);
        RemovedAlone(was, rank, list, h);
      } else {
        var i := |hashes|;
        while i > 0
          invariant 0 <= i <= |hashes| && Valid(rank) && ParentsFirst(allTx, transactions)
          invariant Shrunk(was, list, allTx, transactions) && OnlyDependents(was, rank, list, allTx, h)
          invariant forall k :: i <= k < |hashes| ==> hashes[k] !in allTx
          invariant if i < |hashes| then Current() == Run(Environment(now), transactions)
                    else allTx == was && transactions == list
        {
          ghost var mid, midList, d := allTx, transactions, hashes[i - 1];
          assert d in hashes;
          DirectDependent(was, rank, list, h, d);
          ShrunkMembers(was, list, mid, midList);
          FewerAbove(list, rank, h, midList, d, d);
          RemoveTransaction(hashes[i - 1], now, rank);
          OnlyDependentsStep(was, list, mid, midList, allTx, rank, h, d);
          ShrunkTwice(was, list, mid, midList, allTx, transactions);
          ShrunkMembers(mid, midList, allTx, transactions);
          i := i - 1;
        }
        ghost var mid, midList := allTx, transactions;
        assert hashes[0] in hashes;
        DirectDependent(was, rank, list, h, hashes[0]);
        ShrunkMembers(was, list, mid, midList);
        FewerAbove(list, rank, h, midList, h, hashes[0]);
        RemoveTransaction(h, now, rank);
        DependsSelf(was, rank, list, h);
        OnlyDependentsStep(was, list, mid, midList, allTx, rank, h, h);
        ShrunkTwice(was, list, mid, midList, allTx, transactions);
      }
    }

    // ---------- New transactions ----------

    /** `BRWalletMaxOutputAmount` */
    method GetMaxOutputAmount() returns (max: nat)
      ensures max == MaxOutputAmount(Environment(0), utxos, feePerKb)
    {
      hide Sum, TxFee;
      ghost var env := Environment(0);
      var amount, inCount, i := 0, 0, |utxos|;
      assert utxos[..i] == utxos;
      while i > 0
        invariant 0 <= i <= |utxos|
        invariant amount + Sum(env, utxos[..i]) == Sum(env, utxos)
        invariant inCount + |InputsFor(env, utxos, i)| == |InputsFor(env, utxos, |utxos|)|
      {
        var o := utxos[i - 1];
        SumAppend(env, utxos[..i - 1], o);
        assert utxos[..i] == utxos[..i - 1] + [o];
        if o.hash in allTx && o.n < |allTx[o.hash].outputs| {
          inCount := inCount + 1;
          amount := amount + allTx[o.hash].outputs[o.n].amount;
        }
        i := i - 1;
      }
      NoInputs(env, utxos);
      var txSize := 8 + VarIntSize(inCount) + TX_INPUT_SIZE * inCount + VarIntSize(2) + TX_OUTPUT_SIZE * 2;
      var fee := TxFee(feePerKb, txSize);
      max := if amount > fee then amount - fee else 0;
    }

    /** Takes unspent outputs in order until they cover the amount and the fee, exactly or with room for change. */
    method ChooseInputs(outputs: seq<TxOutput>, amount: nat)
      returns (inputs: seq<TxInput>, sum: nat, fee: nat, tooLarge: bool, ghost n: nat)
      requires Distinct(utxos)
      ensures n <= |utxos| && inputs == InputsFor(Environment(0), utxos, n)
      ensures tooLarge ==> HitsLimit(Environment(0), utxos, n, feePerKb, outputs, amount, balance)
      ensures tooLarge || sum == InputAmounts(inputs)
      ensures tooLarge || fee == if inputs == [] then BaseFee(feePerKb, inputs, outputs)
                                 else FeeFor(feePerKb, inputs, outputs, amount, balance)
      ensures tooLarge ==>
        && n > 0 && sum == InputAmounts(InputsFor(Environment(0), utxos, n - 1))
        && fee == FeeAt(Environment(0), utxos, n - 1, feePerKb, outputs, amount, balance)
      ensures tooLarge || Chosen(Environment(0), utxos, n, feePerKb, outputs, amount, balance)
    {
      hide TxFee, Size, Sum, InputAmounts, MinOutputAmount, SpendsUtxos, Enough;
      ghost var env := Environment(0);
      inputs, sum, tooLarge, n := [], 0, false, 0;
      fee := TxFee(feePerKb, Size([], outputs) + TX_OUTPUT_SIZE);
      NoInputs(env, utxos);
      EnoughIs(env, utxos, 0, feePerKb, outputs, amount, balance);
      var i := 0;
      while i < |utxos|
        invariant n == i <= |utxos| && inputs == InputsFor(env, utxos, n) && sum == InputAmounts(inputs)
        invariant fee == FeeAt(env, utxos, n, feePerKb, outputs, amount, balance)
        invariant forall k: nat :: k <= n ==> !Enough(env, utxos, k, feePerKb, outputs, amount, balance)
        invariant !tooLarge && forall k: nat :: k <= n ==> !TooLargeFor(env, utxos, k, outputs)
      {
        var o := utxos[i];
        n, i := n + 1, i + 1;
        if o.hash !in allTx || o.n >= |allTx[o.hash].outputs| {
          SameInputsEnough(env, utxos, n, feePerKb, outputs, amount, balance);
          assert !TooLargeFor(env, utxos, n - 1, outputs);
          continue;
        }
        var output := allTx[o.hash].outputs[o.n];
        InputAppend(inputs, TxInput(o, output.amount, Some(output.script), None, UINT32_MAX));
        inputs := inputs + [TxInput(o, output.amount, Some(output.script), None, UINT32_MAX)];
        if Size(inputs, outputs) + TX_OUTPUT_SIZE > TX_MAX_SIZE {
          tooLarge := true;
          return;
        }
        sum := sum + output.amount;
        fee := FeeNow(inputs, outputs, amount);
        EnoughIs(env, utxos, n, feePerKb, outputs, amount, balance);
        var minAmount := MinOutputAmount(feePerKb);
        if sum == amount + fee || sum >= amount + fee + minAmount { break; }
      }
    }

    /** The fee after adding a change output, raised to round off the balance that remains. */
    method FeeNow(inputs: seq<TxInput>, outputs: seq<TxOutput>, amount: nat) returns (fee: nat)
      ensures fee == FeeFor(feePerKb, inputs, outputs, amount, balance)
    {
      hide TxFee, Size;
      fee := TxFee(feePerKb, Size(inputs, outputs) + TX_OUTPUT_SIZE);
      if balance > amount + fee {
        fee := fee + (balance - (amount + fee)) % 100;
      }
    }

    /** The requested outputs as a new transaction holds them, and their total. */
    method AddRequested(outputs: seq<TxOutput>) returns (outs: seq<TxOutput>, amount: nat)
      ensures outs == Addressed(addressOf, outputs) && amount == OutputAmounts(outputs)
    {
      outs, amount := [], 0;
      for i := 0 to |outputs|
        invariant outs == Addressed(addressOf, outputs[..i]) && amount == OutputAmounts(outputs[..i])
      {
        var o := outputs[i];
        assert outputs[..i + 1][..i] == outputs[..i];
        outs := outs + [TxOutput(addressOf(o.script), o.amount, o.script)];
        amount := amount + o.amount;
      }
      assert outputs[..|outputs|] == outputs;
    }

    /** The outputs of the next attempt when the inputs that fit are worth `sum` and cost `feeAmount`. */
    method SmallerOutputs(outputs: seq<TxOutput>, amount: nat, sum: nat, feeAmount: nat)
      returns (next: Option<seq<TxOutput>>)
      ensures outputs == [] ==> next.None?
      ensures outputs != [] ==> next == SmallerFor(utxos, feePerKb, outputs, amount, sum, amount + feeAmount, balance)
    {
      hide TxFee;
      var count := |outputs|;
      if count == 0 || balance < amount + TxFee(feePerKb, 10 + |utxos| * TX_INPUT_SIZE + (count + 1) * TX_OUTPUT_SIZE) {
        return None;
      }
      if outputs[count - 1].amount + sum > amount + feeAmount + MinOutputAmount(feePerKb) {
        var last := outputs[count - 1];
        last := last.(amount := last.amount + sum - (amount + feeAmount));
        next := Some(outputs[count - 1 := last]);
      } else {
        next := Some(outputs[..count - 1]);
      }
    }

    /** `o` pays the first internal address behind the last one in use. */
    ghost predicate PaysUnused(o: TxOutput)
      reads this
    {
      var start := AfterLastUsed(internalChain, usedAddrs);
      && start < |internalChain| && o.script == scriptOf(internalChain[start]) && o.address == addressOf(o.script)
    }

    /** The change goes to the first unused internal address. */
    method ChangeOutput(amount: nat, moved: bool) returns (o: TxOutput)
      requires AddressesValid() && Injective(derive)
      modifies `internalChain, `externalChain, `allAddrs
      ensures AddressesValid() && old(allAddrs) <= allAddrs
      ensures externalChain == old(externalChain) && old(internalChain) <= internalChain
      ensures o.amount == amount && o.address == addressOf(o.script)
      ensures NeverFails(derive) ==> PaysUnused(o)
    {
      hide IsChain, Injective, NeverFails, AfterLastUsed, Elements;
      var addrs := UnusedAddrs(1, true, true, moved);
      var script := scriptOf(if addrs != [] then addrs[0] else "");
      o := TxOutput(addressOf(script), amount, script);
    }

    /**
     One attempt of `BRWalletCreateTxForOutputs`. With `TooLarge` the program tries again with the smaller outputs, if
     there are any; `change` and `fee` tell what it decided.
    */
    method CreateTxForOutputs(outputs: seq<TxOutput>, moved: bool, random: nat -> nat)
      returns (result: Created, ghost change: Option<TxOutput>, ghost fee: nat, ghost n: nat)
      requires AddressesValid() && Injective(derive) && Distinct(utxos)
      modifies `internalChain, `externalChain, `allAddrs
      ensures AddressesValid() && old(allAddrs) <= allAddrs
      ensures var env, requested := old(Environment(0)), Addressed(addressOf, outputs);
        match result
        case Made(tx) =>
          && Sound(env, utxos, feePerKb, requested, tx, change, fee) && FeeCovers(feePerKb, requested, tx, change, fee)
          && fee == FeeFor(feePerKb, tx.inputs, requested, OutputAmounts(requested), balance)
          && Chosen(env, utxos, n, feePerKb, requested, OutputAmounts(requested), balance)
          && tx.inputs == InputsFor(env, utxos, n)
        case Insufficient =>
          && Chosen(env, utxos, n, feePerKb, requested, OutputAmounts(requested), balance)
          && (outputs != [] ==>
               Sum(env, utxos) < OutputAmounts(requested) +
                 FeeFor(feePerKb, InputsFor(env, utxos, |utxos|), requested, OutputAmounts(requested), balance))
        case TooLarge(next) =>
          && HitsLimit(env, utxos, n, feePerKb, requested, OutputAmounts(requested), balance) && n > 0
          && next == if outputs == [] then None else Smaller(env, utxos, n, feePerKb, outputs, balance)
      ensures var env := old(Environment(0));
        balance == Sum(env, utxos) && Payable(env, utxos, feePerKb, Addressed(addressOf, outputs)) ==>
        !result.Insufficient?
      ensures result.Made? && change.Some? ==>
        result.tx.outputs == ShuffledFrom(Addressed(addressOf, outputs) + [change.value], random, 0)
      ensures result.Made? && change.Some? && NeverFails(derive) ==> PaysUnused(change.value)
    {
      hide Sum, Sound, FeeCovers, FeeFor, BaseFee, MinOutputAmount, OutputAmounts, OutputsSize, InputAmounts, InputsFor,
           Chosen, HitsLimit, Distinct, IsChain, Injective, Elements, NeverFails, AfterLastUsed, Addressed, ShuffledFrom;
      ghost var env := Environment(0);
      change, fee, n := None, 0, 0;
      var outs, amount := AddRequested(outputs);
      AddressedKeeps(addressOf, outputs);
      var inputs, sum, feeAmount, tooLarge;
      inputs, sum, feeAmount, tooLarge, n := ChooseInputs(outs, amount);
      if tooLarge {
        var next := SmallerOutputs(outputs, amount, sum, feeAmount);
        SmallerAlike(env, utxos, n, feePerKb, outputs, outs, balance);
        return TooLarge(next), None, 0, n;
      }
      InputsForAmount(env, utxos, n);
      FeeForBounds(feePerKb, inputs, outs, amount, balance);
      ChosenCovers(env, utxos, n, feePerKb, outs, amount, balance);
      if outputs == [] || sum < amount + feeAmount {
        assert utxos[..|utxos|] == utxos;
        return Insufficient, None, 0, n;
      }
      NoInputs(env, utxos);
      fee := feeAmount;
      var tx := Tx(0, 1, inputs, outs, 0, TX_UNCONFIRMED, 0);
      if sum - (amount + feeAmount) > MinOutputAmount(feePerKb) {
        var o := ChangeOutput(sum - (amount + feeAmount), moved);
        var shuffled := ShuffleOutputs(outs + [o], random);
        tx := tx.(outputs := shuffled);
        change := Some(o);
        MadeWithChange(env, utxos, n, feePerKb, outs, tx, o, fee);
      } else {
        MadeWithoutChange(env, utxos, n, feePerKb, outs, tx, fee);
      }
      result := Made(tx);
    }

    /**
     `BRWalletCreateTransaction`: whatever the maximum allows can be sent to one standard address, unless the choice of
     inputs exceeds the size limit first.
    */
    method CreateTransaction(amount: nat, addr: Address, moved: bool, random: nat -> nat)
      returns (result: Created, ghost change: Option<TxOutput>, ghost fee: nat, ghost n: nat)
      requires AddressesValid() && Injective(derive) && Distinct(utxos)
      modifies `internalChain, `externalChain, `allAddrs
      ensures AddressesValid() && old(allAddrs) <= allAddrs
      ensures var env, requested := old(Environment(0)), [TxOutput(addressOf(scriptOf(addr)), amount, scriptOf(addr))];
        && (balance == Sum(env, utxos) && |scriptOf(addr)| <= 25 ==>
            0 < amount <= MaxOutputAmount(env, utxos, feePerKb) ==> !result.Insufficient?)
        && match result
           case Made(tx) =>
             && Sound(env, utxos, feePerKb, requested, tx, change, fee)
             && FeeCovers(feePerKb, requested, tx, change, fee)
             && Chosen(env, utxos, n, feePerKb, requested, amount, balance) && tx.inputs == InputsFor(env, utxos, n)
           case Insufficient => Chosen(env, utxos, n, feePerKb, requested, amount, balance)
           case TooLarge(_) => HitsLimit(env, utxos, n, feePerKb, requested, amount, balance)
      ensures result.Made? && change.Some? && NeverFails(derive) ==> PaysUnused(change.value)
    {
      hide Sum, Sound, FeeCovers, FeeFor, Distinct, IsChain, Injective, Elements, Chosen, HitsLimit, MaxOutputAmount,
           Payable;
      ghost var env := Environment(0);
      var o := TxOutput("", amount, scriptOf(addr));
      assert [o][..0] == [];
      ghost var requested := TxOutput(addressOf(scriptOf(addr)), amount, scriptOf(addr));
      assert Addressed(addressOf, [o]) == [requested];
      assert [requested][..0] == [] && OutputAmounts([requested]) == amount;
      if |scriptOf(addr)| <= 25 && 0 < amount <= MaxOutputAmount(env, utxos, feePerKb) {
        MaximumIsPayable(env, utxos, feePerKb, requested);
      }
      result, change, fee, n := CreateTxForOutputs([o], moved, random);
    }
  }
}
