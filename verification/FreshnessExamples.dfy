/** Two ways in which the recorded ledger ceases to be that of the list. */
module FreshnessExamples {
  import opened Freshness
  import opened Ledger
  import opened Lockstep
  import opened Transaction
  import opened TxOrder
  import opened Wrappers

  /** A payment of 1000, spending the first output of `from`. */
  function Payment(hash: Hash, from: Hash, sequence: nat, to: Address, lockTime: nat, blockHeight: nat): Tx {
    var input := TxInput(Outpoint(from, 0), 0, None, Some([]), sequence);
    Tx(hash, 1, [input], [TxOutput(to, 1000, [])], lockTime, blockHeight, 0)
  }

  lemma PaymentFacts(hash: Hash, from: Hash, sequence: nat, to: Address, lockTime: nat, blockHeight: nat)
    ensures var tx := Payment(hash, from, sequence, to, lockTime, blockHeight);
      && Size(tx.inputs, tx.outputs) == 60 && Spends(tx) == {Outpoint(from, 0)}
      && UsedAddrs(tx, 1) == if to != "" then {to} else {}
  {
    var tx := Payment(hash, from, sequence, to, lockTime, blockHeight);
    assert tx.inputs[..0] == [] && InputsSize([]) == 0 && InputSize(tx.inputs[0]) == 41;
    assert tx.outputs[..0] == [] && OutputsSize([]) == 0 && OutputSize(tx.outputs[0]) == 9;
    assert forall o :: o in Spends(tx) ==> o == Outpoint(from, 0);
    assert tx.inputs[0].prev in Spends(tx);
    if to != "" { assert tx.outputs[0].address in UsedAddrs(tx, 1); }
  }

  lemma PaymentPending(env: Env, s: State, hash: Hash, from: Hash, sequence: nat, to: Address, lockTime: nat,
                       blockHeight: nat)
    ensures var tx := Payment(hash, from, sequence, to, lockTime, blockHeight);
      IsPending(env, s, tx) <==> Postponed(env, s, tx, tx.inputs[0])
  {
    hide Postponed, Size;
    PaymentFacts(hash, from, sequence, to, lockTime, blockHeight);
  }

  lemma PaymentOutput(env: Env, hash: Hash, from: Hash, sequence: nat, to: Address, lockTime: nat, blockHeight: nat)
    ensures var tx := Payment(hash, from, sequence, to, lockTime, blockHeight);
      WalletOutputs(env, tx, 1) == if PaysWallet(env, tx.outputs[0]) then [Outpoint(hash, 0)] else []
  {
    assert WalletOutputs(env, Payment(hash, from, sequence, to, lockTime, blockHeight), 0) == [];
  }

  // ---------- Released by the height of the chain ----------

  /** A payment to the wallet, locked up to height 10. */
  const LOCKED := Payment(1, 9, UINT32_MAX - 1, "a", 10, TX_UNCONFIRMED)

  function LockedEnv(blockHeight: nat): Env {
    Env(map[1 := LOCKED], {"a"}, blockHeight, 1000000000)
  }

  lemma LockedOutput(blockHeight: nat)
    ensures var env := LockedEnv(blockHeight);
      var os := Unspent(EMPTY.utxos + WalletOutputs(env, LOCKED, 1), EMPTY.spent + Spends(LOCKED));
      Sum(env, os) == 1000
  {
    var env, os := LockedEnv(blockHeight), [Outpoint(1, 0)];
    PaymentOutput(env, 1, 9, UINT32_MAX - 1, "a", 10, TX_UNCONFIRMED);
    assert [] + os == os && os[..0] == [];
    assert Unspent(os, Spends(LOCKED)) == os && Sum(env, []) == 0;
  }

  lemma LockedLedger(blockHeight: nat)
    ensures var env := LockedEnv(blockHeight);
      && Listed(env, [1])
      && Run(env, [1]).pending == (if blockHeight < 9 then {1} else {})
      && Run(env, [1]).balance == (if blockHeight < 9 then 0 else 1000)
  {
    hide IsPending, Unspent, WalletOutputs, Sum, Spends, UsedAddrs;
    var env := LockedEnv(blockHeight);
    assert [1][..0] == [] && Run(env, []) == EMPTY && !Conflicts(EMPTY, LOCKED);
    PaymentPending(env, EMPTY, 1, 9, UINT32_MAX - 1, "a", 10, TX_UNCONFIRMED);
    LockedOutput(blockHeight);
  }

  /**
   The payment is pending until the chain reaches height 9. The update with a block of that height in which it is not
   recomputes nothing, and the recorded ledger is fresh before and not after.
  */
  lemma ReleasedByHeight(hashes: seq<Hash>, timestamp: nat)
    requires 1 !in hashes
    ensures var env, env', txs := LockedEnv(8), LockedEnv(9), [1];
      && Listed(env, txs) && Listed(env', txs)
      && var s := Run(env, txs);
         && Updated(env.allTx, env.allAddrs, hashes, 9, timestamp) == env'.allTx
         && !Reconsidered(env.allTx, env.allAddrs, hashes, 9, timestamp, s.pending + s.invalid)
         && IsFresh(s, env, txs) && !IsFresh(s, env', txs)
         && s.balance == 0 && Run(env', txs).balance == 1000
  {
    hide Run, NearlyAgrees;
    LockedLedger(8);
    LockedLedger(9);
    RecomputedFresh(Run(LockedEnv(8), [1]), LockedEnv(8), [1]);
  }

  // ---------- Held back by the order of the list ----------

  /** A confirmed payment to the wallet, a replaceable one that spends it, and one from elsewhere. */
  function HeldEnv(confirmed: bool): Env {
    Env(map[1 := Payment(1, 9, UINT32_MAX, "a", 0, 5), 2 := Payment(2, 1, 0, "b", 0, TX_UNCONFIRMED),
            3 := Payment(3, 8, UINT32_MAX, "a", 0, if confirmed then 10 else TX_UNCONFIRMED)],
        {"a"}, if confirmed then 10 else 9, 1000000000)
  }

  /** A payment to the wallet that is accepted leaves what was unspent, if it is, and its own output. */
  lemma AcceptedPayment(env: Env, s: State, hash: Hash, from: Hash, blockHeight: nat, kept: seq<Outpoint>)
    requires env.allAddrs == {"a"} && hash in env.allTx
    requires env.allTx[hash] == Payment(hash, from, UINT32_MAX, "a", 0, blockHeight)
    requires s.invalid == {} && Outpoint(from, 0) !in s.spent && Outpoint(hash, 0) !in s.spent
    requires from !in s.pending + {hash}
    requires kept == Unspent(s.utxos, s.spent + {Outpoint(from, 0)})
    ensures var s', o := Step(env, s, env.allTx[hash]), Outpoint(hash, 0);
      && s'.utxos == kept + [o] && s'.balance == Sum(env, kept) + 1000 && s'.spent == s.spent + {Outpoint(from, 0)}
      && s'.invalid == {} && s'.pending == s.pending
  {
    hide IsPending, Conflicts, Postponed, Spends, WalletOutputs, Sum, UsedAddrs, Classify;
    var o := Outpoint(hash, 0);
    PaymentFacts(hash, from, UINT32_MAX, "a", 0, blockHeight);
    PaymentOutput(env, hash, from, UINT32_MAX, "a", 0, blockHeight);
    PaymentAccepted(env, s, hash, from, blockHeight);
    assert (s.utxos + [o])[..|s.utxos|] == s.utxos;
    SumAppend(env, kept, o);
  }

  lemma PaymentAccepted(env: Env, s: State, hash: Hash, from: Hash, blockHeight: nat)
    requires s.invalid == {} && Outpoint(from, 0) !in s.spent && from !in s.pending
    ensures Classify(env, s, Payment(hash, from, UINT32_MAX, "a", 0, blockHeight)) == Accepted
  {
    var tx := Payment(hash, from, UINT32_MAX, "a", 0, blockHeight);
    PaymentPending(env, s, hash, from, UINT32_MAX, "a", 0, blockHeight);
    assert !Conflicts(s, tx) && !Postponed(env, s, tx, tx.inputs[0]);
    hide IsPending, Conflicts;
  }

  /** A replaceable payment is pending; it spends, but nothing is swept. */
  lemma PendingPayment(env: Env, s: State)
    requires s.invalid == {} && Outpoint(1, 0) !in s.spent
    ensures Step(env, s, Payment(2, 1, 0, "b", 0, TX_UNCONFIRMED)) ==
      s.(spent := s.spent + {Outpoint(1, 0)}, pending := s.pending + {2}, balanceHist := s.balanceHist + [s.balance])
  {
    var tx := Payment(2, 1, 0, "b", 0, TX_UNCONFIRMED);
    PaymentFacts(2, 1, 0, "b", 0, TX_UNCONFIRMED);
    PaymentPending(env, s, 2, 1, 0, "b", 0, TX_UNCONFIRMED);
    assert !Conflicts(s, tx) && Postponed(env, s, tx, tx.inputs[0]);
    hide IsPending, Conflicts, Spends, WalletOutputs, Sum;
  }

  lemma ListedThree(env: Env, a: Hash, b: Hash, c: Hash)
    requires a in env.allTx && env.allTx[a].hash == a && b in env.allTx && env.allTx[b].hash == b
    requires c in env.allTx && env.allTx[c].hash == c && a != b && a != c && b != c
    ensures Listed(env, [a]) && Listed(env, [a, b]) && Listed(env, [a, b, c])
    ensures Run(env, [a]) == Step(env, EMPTY, env.allTx[a])
    ensures Run(env, [a, b]) == Step(env, Run(env, [a]), env.allTx[b])
    ensures Run(env, [a, b, c]) == Step(env, Run(env, [a, b]), env.allTx[c])
  {
    hide Step;
    assert [a][..0] == [] && Run(env, []) == EMPTY;
    assert [a, b][..1] == [a] && [a, b, c][..2] == [a, b];
  }

  lemma FirstPayment(env: Env)
    requires env == HeldEnv(false) || env == HeldEnv(true)
    ensures var s := Step(env, EMPTY, env.allTx[1]);
      && s.utxos == [Outpoint(1, 0)] && s.balance == 1000 && s.spent == {Outpoint(9, 0)} && s.invalid == s.pending == {}
  {
    AcceptedPayment(env, EMPTY, 1, 9, 5, []);
    hide Step;
    assert Sum(env, []) == 0 && [] + [Outpoint(1, 0)] == [Outpoint(1, 0)];
  }

  lemma HeldTxs(confirmed: bool)
    ensures var env := HeldEnv(confirmed);
      && env.allAddrs == {"a"} && 1 in env.allTx && 2 in env.allTx && 3 in env.allTx
      && env.allTx[1] == Payment(1, 9, UINT32_MAX, "a", 0, 5) && env.allTx[2] == Payment(2, 1, 0, "b", 0, TX_UNCONFIRMED)
      && env.allTx[3] == Payment(3, 8, UINT32_MAX, "a", 0, if confirmed then 10 else TX_UNCONFIRMED)
      && env.allTx[1].hash == 1 && env.allTx[2].hash == 2 && env.allTx[3].hash == 3
  {}

  /** Before: what the pending payment spends has been swept. */
  lemma HeldBefore()
    ensures Listed(HeldEnv(false), [1, 2, 3])
    ensures var s := Run(HeldEnv(false), [1, 2, 3]);
      s.balance == 1000 && s.pending == {2} && s.invalid == {}
  {
    var env := HeldEnv(false);
    hide Run, Step, Payment, HeldEnv, Unspent, Sum, Listed;
    HeldTxs(false);
    ListedThree(env, 1, 2, 3);
    FirstPayment(env);
    PendingPayment(env, Run(env, [1]));
    FirstSwept(env);
    AcceptedPayment(env, Run(env, [1, 2]), 3, 8, TX_UNCONFIRMED, []);
  }

  lemma FirstSwept(env: Env)
    ensures Unspent([Outpoint(1, 0)], {Outpoint(9, 0)} + {Outpoint(1, 0)} + {Outpoint(8, 0)}) == [] && Sum(env, []) == 0
    ensures [] + [Outpoint(3, 0)] == [Outpoint(3, 0)]
  {
    assert [Outpoint(1, 0)][..0] == [];
  }

  /** After: it has not. */
  lemma HeldAfter()
    ensures Listed(HeldEnv(true), [1, 3, 2])
    ensures var s := Run(HeldEnv(true), [1, 3, 2]);
      s.balance == 2000 && s.pending == {2} && s.invalid == {}
  {
    hide Run, Step, Payment, HeldEnv, Listed;
    HeldTxs(true);
    ListedThree(HeldEnv(true), 1, 3, 2);
    StepsAfter(HeldEnv(true));
  }

  lemma StepsAfter(env: Env)
    requires env == HeldEnv(true)
    ensures var s := Step(env, EMPTY, env.allTx[1]);
      var s' := Step(env, Step(env, s, env.allTx[3]), env.allTx[2]);
      s'.balance == 2000 && s'.pending == {2} && s'.invalid == {}
  {
    hide Step, Payment, HeldEnv, Unspent, Sum;
    HeldTxs(true);
    FirstPayment(env);
    FirstKept(env);
    var s := Step(env, EMPTY, env.allTx[1]);
    AcceptedPayment(env, s, 3, 8, 10, [Outpoint(1, 0)]);
    PendingPayment(env, Step(env, s, env.allTx[3]));
  }

  lemma FirstKept(env: Env)
    requires env == HeldEnv(true)
    ensures var os := [Outpoint(1, 0)];
      && Unspent(os, {Outpoint(9, 0)} + {Outpoint(8, 0)}) == os && Sum(env, os) == 1000
  {
    var os := [Outpoint(1, 0)];
    assert os[..0] == [] && Unspent([], {Outpoint(9, 0)} + {Outpoint(8, 0)}) == [] && Sum(env, []) == 0;
  }

  lemma OrderThree(allTx: TxMap, a: Hash, b: Hash, c: Hash)
    requires a in allTx && b in allTx && c in allTx && a != b && a != c && b != c
    requires allTx[a].blockHeight <= allTx[b].blockHeight <= allTx[c].blockHeight <= TX_UNCONFIRMED
    requires allTx[a].hash == a && allTx[b].hash == b && allTx[c].hash == c
    ensures InOrder(allTx, [a, b, c])
  {}

  lemma WaitingThree(allTx: TxMap, a: Hash, b: Hash, c: Hash)
    requires !IsWaiting(allTx, a)
    ensures Waiting(allTx, [a, b, c]) ==
      (if IsWaiting(allTx, b) then [b] else []) + (if IsWaiting(allTx, c) then [c] else [])
  {
    assert [a, b, c][..2] == [a, b] && [a, b][..1] == [a] && [a][..0] == [];
    assert Waiting(allTx, [a]) == Waiting(allTx, []) == [];
    assert Waiting(allTx, [a, b]) == if IsWaiting(allTx, b) then [b] else [];
  }

  /** The update that confirms the third payment, and what it leads to. */
  lemma HeldUpdate()
    ensures var env, env' := HeldEnv(false), HeldEnv(true);
      && Updated(env.allTx, env.allAddrs, [3], 10, 0) == env'.allTx
      && InOrder(env.allTx, [1, 2, 3]) && InOrder(env'.allTx, [1, 3, 2])
      && Waiting(env'.allTx, [1, 3, 2]) == Waiting(env'.allTx, [1, 2, 3]) == [2]
      && AllUnlocked(env.allTx, [1, 2, 3])
      && ChangedTouch(env.allTx, env.allAddrs, [1, 2, 3], [3], 10, 0)
      && !Reconsidered(env.allTx, env.allAddrs, [3], 10, 0, {2})
  {
    var env, env' := HeldEnv(false), HeldEnv(true);
    OrderThree(env.allTx, 1, 2, 3);
    OrderThree(env'.allTx, 1, 3, 2);
    WaitingThree(env'.allTx, 1, 3, 2);
    WaitingThree(env'.allTx, 1, 2, 3);
    hide InOrder, Waiting;
    assert env.allTx[3].outputs[0].address in env.allAddrs;
  }

  /**
   Confirming the third payment recomputes nothing; no transaction that waits becomes pending or ceases to be; but the
   second one is no longer followed by an accepted transaction, and the recorded balance is 1000 where the ledger of the
   list has 2000.
  */
  lemma HeldBackByOrder()
    ensures var env, env', txs, txs' := HeldEnv(false), HeldEnv(true), [1, 2, 3], [1, 3, 2];
      && Listed(env, txs) && Listed(env', txs')
      && var s := Run(env, txs);
         && Updated(env.allTx, env.allAddrs, [3], 10, 0) == env'.allTx
         && !Reconsidered(env.allTx, env.allAddrs, [3], 10, 0, s.pending + s.invalid)
         && Confirming(env, txs, env', txs') && PendingKept(env, txs, env') && !SweepKept(env, txs, env')
         && IsFresh(s, env, txs) && !IsFresh(s, env', txs')
         && s.balance == 1000 && Run(env', txs').balance == 2000
  {
    hide Run, HeldEnv, InOrder, ChangedTouch, Reconsidered, Updated, Waiting, Listed, AllUnlocked, PendingKept, SweepKept,
         NearlyAgrees, Confirming, IsFresh;
    HeldBefore();
    HeldAfter();
    HeldUpdate();
    HeldClock();
    assert Run(HeldEnv(false), [1, 2, 3]).pending + Run(HeldEnv(false), [1, 2, 3]).invalid == {2};
    UpdateNotFresh(HeldEnv(false), [1, 2, 3], HeldEnv(true), [1, 3, 2], [3], 10, 0);
  }

  lemma HeldClock()
    ensures HeldEnv(true).now == HeldEnv(false).now && HeldEnv(true).allAddrs == HeldEnv(false).allAddrs
    ensures var env, env' := HeldEnv(false), HeldEnv(true);
      env' == Env(env'.allTx, env.allAddrs, env'.blockHeight, env.now)
    ensures multiset([1, 2, 3]) == multiset([1, 3, 2])
  {}

  /** An update without a recomputation after which the balance is another one. */
  lemma UpdateNotFresh(env: Env, txs: seq<Hash>, env': Env, txs': seq<Hash>, hashes: seq<Hash>, height: nat,
                       timestamp: nat)
    requires InOrder(env.allTx, txs) && InOrder(env'.allTx, txs') && Listed(env, txs) && Listed(env', txs')
    requires ChangedTouch(env.allTx, env.allAddrs, txs, hashes, height, timestamp) && AllUnlocked(env.allTx, txs)
    requires env' == Env(Updated(env.allTx, env.allAddrs, hashes, height, timestamp), env.allAddrs, env'.blockHeight,
                         env.now)
    requires height < TX_UNCONFIRMED && multiset(txs) == multiset(txs')
    requires Waiting(env'.allTx, txs') == Waiting(env'.allTx, txs)
    requires var s := Run(env, txs);
      && !Reconsidered(env.allTx, env.allAddrs, hashes, height, timestamp, s.pending + s.invalid)
      && s.balance != Run(env', txs').balance
    ensures Confirming(env, txs, env', txs') && PendingKept(env, txs, env') && !SweepKept(env, txs, env')
    ensures IsFresh(Run(env, txs), env, txs) && !IsFresh(Run(env, txs), env', txs')
  {
    hide Run, InOrder, ChangedTouch, Reconsidered, Updated, Waiting, AllUnlocked, PendingKept, SweepKept, Confirming,
         NearlyAgrees;
    UpdateConfirming(env, txs, env', txs', hashes, height, timestamp);
    UnlockedKept(env, txs, env');
    RecomputedFresh(Run(env, txs), env, txs);
    FreshUnlessChanged(Run(env, txs), env, txs, env', txs');
  }
}
