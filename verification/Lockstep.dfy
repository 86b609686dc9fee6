/**
 The flags of the ledger when transactions are confirmed: two lists, of which one comes from the other by confirmations,
 give the same flags exactly if no transaction that still waits becomes pending or ceases to be.
*/
module Lockstep {
  import opened Ledger
  import opened Transaction
  import opened TxOrder

  predicate IsWaiting(allTx: TxMap, h: Hash) {
    h in allTx && allTx[h].blockHeight == TX_UNCONFIRMED
  }

  /** The unconfirmed transactions of a list, in order. */
  function Waiting(allTx: TxMap, txs: seq<Hash>): seq<Hash> {
    if txs == [] then []
    else
      var n := |txs| - 1;
      Waiting(allTx, txs[..n]) + if IsWaiting(allTx, txs[n]) then [txs[n]] else []
  }

  predicate ConfirmedFirst(allTx: TxMap, txs: seq<Hash>) {
    forall i, j :: 0 <= i < j < |txs| && IsWaiting(allTx, txs[i]) ==> IsWaiting(allTx, txs[j])
  }

  /** The two ledgers agree on what is invalid, pending, spent and used. */
  predicate FlagsAgree(s: State, s': State) {
    s.invalid == s'.invalid && s.pending == s'.pending && s.spent == s'.spent && s.used == s'.used
  }

  /** Nothing but height and time differ. */
  predicate SameButHeight(tx: Tx, tx': Tx) {
    SameBody(tx, tx') && tx.lockTime == tx'.lockTime
  }

  /**
   The list of one ledger becomes that of the other: accepted transactions are confirmed, confirmed ones change their
   heights, the others keep their order, and the chain height may change.
  */
  ghost predicate Confirming(env: Env, txs: seq<Hash>, env': Env, txs': seq<Hash>) {
    && Listed(env, txs) && Listed(env', txs') && (forall h :: h in txs <==> h in txs')
    && env.now == env'.now && env.allAddrs == env'.allAddrs
    && ConfirmedFirst(env.allTx, txs) && ConfirmedFirst(env'.allTx, txs')
    && Waiting(env'.allTx, txs') == Waiting(env'.allTx, txs)
    && (forall i :: 0 <= i < |txs| ==>
         && txs[i] in env'.allTx && SameButHeight(env.allTx[txs[i]], env'.allTx[txs[i]])
         && (IsWaiting(env'.allTx, txs[i]) ==> IsWaiting(env.allTx, txs[i]))
         && (IsWaiting(env'.allTx, txs[i]) || StatusOf(env, txs, i) == Accepted))
  }

  /** The first transaction, if it still waits and is not invalid, is as pending as it was. */
  predicate Kept(env: Env, txs: seq<Hash>, env': Env, i: nat)
    requires Listed(env, txs) && i < |txs|
  {
    var s, tx := Run(env, txs[..i]), env.allTx[txs[i]];
    IsWaiting(env'.allTx, txs[i]) && !Conflicts(s, tx) ==> (IsPending(env, s, tx) <==> IsPending(env', s, tx))
  }

  /** No transaction that still waits becomes pending or ceases to be. */
  ghost predicate PendingKept(env: Env, txs: seq<Hash>, env': Env)
    requires Listed(env, txs)
  {
    forall i: nat :: i < |txs| ==> Kept(env, txs, env', i)
  }

  // ---------- Facts about one list ----------

  lemma {:induction false} WaitingPrefix(allTx: TxMap, txs: seq<Hash>, n: nat)
    requires n <= |txs|
    ensures Waiting(allTx, txs[..n]) <= Waiting(allTx, txs)
    ensures n < |txs| && IsWaiting(allTx, txs[n]) ==>
      var m := |Waiting(allTx, txs[..n])|;
      m < |Waiting(allTx, txs)| && Waiting(allTx, txs)[m] == txs[n]
  {
    if n < |txs| {
      var k := |txs| - 1;
      WaitingPrefix(allTx, txs[..k], n);
      assert txs[..k][..n] == txs[..n];
    } else {
      assert txs[..n] == txs;
    }
  }

  /** The waiting transactions are the end of the list. */
  lemma {:induction false} WaitingAtEnd(allTx: TxMap, txs: seq<Hash>) returns (c: nat)
    requires ConfirmedFirst(allTx, txs)
    ensures c <= |txs| && txs[c..] == Waiting(allTx, txs)
    ensures forall i :: 0 <= i < |txs| ==> (i >= c <==> IsWaiting(allTx, txs[i]))
  {
    var n := |txs| - 1;
    if txs != [] && IsWaiting(allTx, txs[n]) {
      c := WaitingAtEnd(allTx, txs[..n]);
      assert txs[c..] == txs[..n][c..] + [txs[n]];
    } else {
      c := |txs|;
      NoneWaiting(allTx, txs);
    }
  }

  lemma {:induction false} NoneWaiting(allTx: TxMap, txs: seq<Hash>)
    requires forall i :: 0 <= i < |txs| ==> !IsWaiting(allTx, txs[i])
    ensures Waiting(allTx, txs) == []
  {
    if txs != [] {
      NoneWaiting(allTx, txs[..|txs| - 1]);
    }
  }

  // ---------- The two ledgers in step ----------

  /** `s'` has the same flags, and `x` and `y` more of what is spent and used. */
  predicate InStep(s: State, s': State, x: set<Outpoint>, y: set<Address>) {
    s'.invalid == s.invalid && s'.pending == s.pending && s'.spent == s.spent + x && s'.used == s.used + y
  }

  lemma PendingAlike(env: Env, env': Env, s: State, s': State, tx: Tx, tx': Tx)
    requires SameButHeight(tx, tx') && s.pending == s'.pending
    requires env.now == env'.now && env.blockHeight == env'.blockHeight
    ensures IsPending(env, s, tx) == IsPending(env', s', tx')
  {
    forall j: nat | j < |tx.inputs|
      ensures Postponed(env, s, tx, tx.inputs[j]) == Postponed(env', s', tx', tx'.inputs[j])
    {}
  }

  lemma ConflictsAlike(s: State, s': State, x: set<Outpoint>, y: set<Address>, tx: Tx, tx': Tx)
    requires InStep(s, s', x, y) && SameButHeight(tx, tx') && (Conflicts(s, tx) || Spends(tx) !! x)
    ensures Conflicts(s, tx) == Conflicts(s', tx')
  {}

  /** A transaction that waits in both. */
  lemma StepInStep(env: Env, env': Env, s: State, s': State, x: set<Outpoint>, y: set<Address>, tx: Tx, tx': Tx)
    requires InStep(s, s', x, y) && SameButHeight(tx, tx') && env.now == env'.now
    requires tx.blockHeight == tx'.blockHeight == TX_UNCONFIRMED
    requires Conflicts(s, tx) || (Spends(tx) !! x && (IsPending(env, s, tx) <==> IsPending(env', s, tx)))
    ensures Classify(env, s, tx) == Classify(env', s', tx')
    ensures InStep(Step(env, s, tx), Step(env', s', tx'), x, y)
  {
    ConflictsAlike(s, s', x, y, tx, tx');
    PendingAlike(env', env', s, s', tx, tx');
    hide Conflicts, IsPending, Unspent, WalletOutputs, Sum;
    assert Spends(tx) == Spends(tx');
    assert UsedAddrs(tx, |tx.outputs|) == UsedAddrs(tx', |tx'.outputs|);
  }

  /** A transaction whose effects the second ledger has already. */
  lemma SkipInStep(env: Env, s: State, s': State, x: set<Outpoint>, y: set<Address>, tx: Tx)
    requires InStep(s, s', x, y) && Classify(env, s, tx) == Accepted
    requires Spends(tx) <= x && UsedAddrs(tx, |tx.outputs|) <= y
    ensures InStep(Step(env, s, tx), s', x, y)
  {
    hide Unspent, WalletOutputs, Sum, Classify;
  }

  /** The second list with its confirmed transactions only. */
  ghost predicate Base(env': Env, txs': seq<Hash>, c: nat) {
    && Listed(env', txs') && c <= |txs'| && txs'[c..] == Waiting(env'.allTx, txs')
    && forall i :: 0 <= i < |txs'| ==> (i >= c <==> IsWaiting(env'.allTx, txs'[i]))
  }

  lemma {:induction false} ConfirmedFlags(env: Env, txs: seq<Hash>)
    requires Listed(env, txs) && forall i :: 0 <= i < |txs| ==> !IsWaiting(env.allTx, txs[i])
    ensures Run(env, txs).invalid == {} && Run(env, txs).pending == {}
  {
    if txs != [] {
      ConfirmedFlags(env, txs[..|txs| - 1]);
    }
  }

  /** A transaction confirmed in the second list was accepted in the first, and its effects are in the base. */
  lemma BaseIncludes(env: Env, txs: seq<Hash>, env': Env, txs': seq<Hash>, c: nat, n: nat)
    requires Confirming(env, txs, env', txs') && Base(env', txs', c)
    requires n < |txs| && !IsWaiting(env'.allTx, txs[n])
    ensures StatusOf(env, txs, n) == Accepted
    ensures var tx, base := env.allTx[txs[n]], Run(env', txs'[..c]);
      Spends(tx) <= base.spent && UsedAddrs(tx, |tx.outputs|) <= base.used
  {
    assert txs[n] in txs';
    var k: nat :| k < |txs'| && txs'[k] == txs[n];
    var front := txs'[..c];
    assert front[k] == txs[n] && StatusOf(env', front, k) == Accepted;
    hide StatusOf, Run;
    SpentContains(env', front, k);
    UsedContains(env', front, k);
  }

  /** A transaction that still waits, and is not invalid, spends nothing that the base spends. */
  lemma BaseDisjoint(env: Env, txs: seq<Hash>, env': Env, txs': seq<Hash>, c: nat, n: nat)
    requires Confirming(env, txs, env', txs') && Base(env', txs', c)
    requires n < |txs| && IsWaiting(env'.allTx, txs[n]) && StatusOf(env, txs, n) != Invalid
    ensures Spends(env.allTx[txs[n]]) !! Run(env', txs'[..c]).spent
  {
    hide StatusOf, Run;
    forall o | o in Run(env', txs'[..c]).spent
      ensures o !in Spends(env.allTx[txs[n]])
    {
      var k := SpentOrigin(env', txs'[..c], o);
      assert txs'[..c][k] == txs'[k] && txs'[k] in txs;
      var j: nat :| j < |txs| && txs[j] == txs'[k];
      BaseIncludes(env, txs, env', txs', c, j);
      assert SameButHeight(env.allTx[txs[j]], env'.allTx[txs[j]]);
      if j < n {
        NoDoubleSpend(env, txs, j, n);
      } else {
        NoDoubleSpend(env, txs, n, j);
      }
    }
  }

  /** How much of the second list corresponds to the first `n` transactions of the first one. */
  function Reached(env': Env, txs: seq<Hash>, c: nat, n: nat): nat
    requires n <= |txs|
  {
    c + |Waiting(env'.allTx, txs[..n])|
  }

  lemma ReachedNext(env': Env, txs: seq<Hash>, txs': seq<Hash>, c: nat, n: nat)
    requires Base(env', txs', c) && Waiting(env'.allTx, txs') == Waiting(env'.allTx, txs) && n < |txs|
    ensures var m := Reached(env', txs, c, n);
      && m <= |txs'| && Reached(env', txs, c, n + 1) == (if IsWaiting(env'.allTx, txs[n]) then m + 1 else m)
      && (IsWaiting(env'.allTx, txs[n]) ==> m < |txs'| && txs'[m] == txs[n])
  {
    WaitingPrefix(env'.allTx, txs, n);
    assert txs[..n + 1][..n] == txs[..n];
    assert |Waiting(env'.allTx, txs[..n])| < |txs'[c..]| ==>
      txs'[c..][|Waiting(env'.allTx, txs[..n])|] == txs'[Reached(env', txs, c, n)];
  }

  ghost predicate KeptUpTo(env: Env, txs: seq<Hash>, env': Env, n: nat)
    requires Listed(env, txs) && n <= |txs|
  {
    forall i: nat :: i < n ==> Kept(env, txs, env', i)
  }

  lemma RunNext(env: Env, txs: seq<Hash>, n: nat)
    requires Listed(env, txs) && n < |txs|
    ensures Run(env, txs[..n + 1]) == Step(env, Run(env, txs[..n]), env.allTx[txs[n]])
  {
    assert txs[..n + 1][..n] == txs[..n];
  }

  /** After `n` transactions of the first list, the second ledger is ahead by the confirmed ones only. */
  ghost predicate Synchronous(env: Env, txs: seq<Hash>, env': Env, txs': seq<Hash>, c: nat, n: nat)
    requires Listed(env, txs) && Listed(env', txs') && c <= |txs'|
  {
    && n <= |txs| && Reached(env', txs, c, n) <= |txs'|
    && var base := Run(env', txs'[..c]);
       InStep(Run(env, txs[..n]), Run(env', txs'[..Reached(env', txs, c, n)]), base.spent, base.used)
  }

  lemma KeptIs(env: Env, txs: seq<Hash>, env': Env, n: nat)
    requires Listed(env, txs) && n < |txs| && IsWaiting(env'.allTx, txs[n]) && Kept(env, txs, env', n)
    ensures var s, tx := Run(env, txs[..n]), env.allTx[txs[n]];
      Conflicts(s, tx) || (IsPending(env, s, tx) <==> IsPending(env', s, tx))
  {}

  lemma InvalidIs(env: Env, txs: seq<Hash>, n: nat)
    requires Listed(env, txs) && n < |txs| && IsWaiting(env.allTx, txs[n])
    ensures StatusOf(env, txs, n) == Invalid <==> Conflicts(Run(env, txs[..n]), env.allTx[txs[n]])
  {}

  predicate SameConflict(env: Env, txs: seq<Hash>, n: nat, env': Env, txs': seq<Hash>, m: nat)
    requires Listed(env, txs) && n < |txs| && Listed(env', txs')
  {
    && m < |txs'| && txs'[m] == txs[n]
    && Conflicts(Run(env, txs[..n]), env.allTx[txs[n]]) == Conflicts(Run(env', txs'[..m]), env'.allTx[txs'[m]])
  }

  lemma WaitingStep(env: Env, txs: seq<Hash>, env': Env, txs': seq<Hash>, c: nat, n: nat)
    requires Confirming(env, txs, env', txs') && Base(env', txs', c) && n < |txs|
    requires Synchronous(env, txs, env', txs', c, n) && IsWaiting(env'.allTx, txs[n])
    ensures SameConflict(env, txs, n, env', txs', Reached(env', txs, c, n))
    ensures Kept(env, txs, env', n) ==> Synchronous(env, txs, env', txs', c, n + 1)
  {
    hide Run, Step, Conflicts, IsPending, Spends, UsedAddrs, StatusOf, Waiting, Kept, ConfirmedFirst;
    var m, base := Reached(env', txs, c, n), Run(env', txs'[..c]);
    ReachedNext(env', txs, txs', c, n);
    RunNext(env, txs, n);
    RunNext(env', txs', m);
    InvalidIs(env, txs, n);
    if StatusOf(env, txs, n) != Invalid { BaseDisjoint(env, txs, env', txs', c, n); }
    var s, s', tx, tx' := Run(env, txs[..n]), Run(env', txs'[..m]), env.allTx[txs[n]], env'.allTx[txs'[m]];
    ConflictsAlike(s, s', base.spent, base.used, tx, tx');
    if Kept(env, txs, env', n) {
      KeptIs(env, txs, env', n);
      StepInStep(env, env', s, s', base.spent, base.used, tx, tx');
    }
  }

  lemma ConfirmedStep(env: Env, txs: seq<Hash>, env': Env, txs': seq<Hash>, c: nat, n: nat)
    requires Confirming(env, txs, env', txs') && Base(env', txs', c) && n < |txs|
    requires Synchronous(env, txs, env', txs', c, n) && !IsWaiting(env'.allTx, txs[n])
    ensures Synchronous(env, txs, env', txs', c, n + 1)
  {
    hide Run, Step, Spends, UsedAddrs, Waiting, ConfirmedFirst;
    var m, base := Reached(env', txs, c, n), Run(env', txs'[..c]);
    ReachedNext(env', txs, txs', c, n);
    RunNext(env, txs, n);
    BaseIncludes(env, txs, env', txs', c, n);
    SkipInStep(env, Run(env, txs[..n]), Run(env', txs'[..m]), base.spent, base.used, env.allTx[txs[n]]);
  }

  lemma SynchronousStart(env: Env, txs: seq<Hash>, env': Env, txs': seq<Hash>, c: nat)
    requires Listed(env, txs) && Base(env', txs', c)
    ensures Synchronous(env, txs, env', txs', c, 0)
  {
    hide Step;
    assert txs[..0] == [] && Reached(env', txs, c, 0) == c;
    ConfirmedFlags(env', txs'[..c]);
  }

  /** The ledgers stay in step as long as no pending transaction is released. */
  lemma {:induction false} StaySynchronous(env: Env, txs: seq<Hash>, env': Env, txs': seq<Hash>, c: nat, n: nat)
    requires Listed(env, txs) && Listed(env', txs') && c <= |txs'| && n <= |txs|
    requires Confirming(env, txs, env', txs') && Base(env', txs', c)
    requires KeptUpTo(env, txs, env', n)
    ensures Synchronous(env, txs, env', txs', c, n)
  {
    hide Run, Synchronous, Kept, Confirming, Base, IsWaiting, Listed;
    if n == 0 {
      SynchronousStart(env, txs, env', txs', c);
    } else {
      StaySynchronous(env, txs, env', txs', c, n - 1);
      if IsWaiting(env'.allTx, txs[n - 1]) {
        WaitingStep(env, txs, env', txs', c, n - 1);
      } else {
        ConfirmedStep(env, txs, env', txs', c, n - 1);
      }
    }
  }

  // ---------- The two ledgers at the end ----------

  lemma SynchronousEnd(env: Env, txs: seq<Hash>, env': Env, txs': seq<Hash>, c: nat)
    requires Confirming(env, txs, env', txs') && Base(env', txs', c)
    requires Synchronous(env, txs, env', txs', c, |txs|)
    ensures var base := Run(env', txs'[..c]);
      InStep(Run(env, txs), Run(env', txs'), base.spent, base.used)
  {
    hide Run, StatusOf, Waiting, ConfirmedFirst, IsWaiting, InStep;
    assert txs[..|txs|] == txs && txs'[..|txs'|] == txs';
    assert Reached(env', txs, c, |txs|) == c + |txs'[c..]| == |txs'|;
  }

  /** What the base spends and uses, the first ledger does too. */
  lemma BaseIncluded(env: Env, txs: seq<Hash>, env': Env, txs': seq<Hash>, c: nat)
    requires Confirming(env, txs, env', txs') && Base(env', txs', c)
    ensures var s, base := Run(env, txs), Run(env', txs'[..c]); base.spent <= s.spent && base.used <= s.used
  {
    hide Run, StatusOf, Spends, UsedAddrs;
    forall o | o in Run(env', txs'[..c]).spent
      ensures o in Run(env, txs).spent
    {
      var k := SpentOrigin(env', txs'[..c], o);
      var j := Counterpart(env, txs, env', txs', c, k);
      SpentContains(env, txs, j);
    }
    forall a | a in Run(env', txs'[..c]).used
      ensures a in Run(env, txs).used
    {
      var k := UsedOrigin(env', txs'[..c], a);
      var j := Counterpart(env, txs, env', txs', c, k);
      UsedContains(env, txs, j);
    }
  }

  /** The place in the first list of a transaction of the base. */
  lemma Counterpart(env: Env, txs: seq<Hash>, env': Env, txs': seq<Hash>, c: nat, k: nat) returns (j: nat)
    requires Confirming(env, txs, env', txs') && Base(env', txs', c) && k < c
    ensures j < |txs| && txs[j] == txs'[k] == txs'[..c][k] && StatusOf(env, txs, j) == Accepted
    ensures var tx, tx' := env.allTx[txs[j]], env'.allTx[txs'[k]];
      Spends(tx) == Spends(tx') && UsedAddrs(tx, |tx.outputs|) == UsedAddrs(tx', |tx'.outputs|)
  {
    assert txs'[k] in txs;
    j :| 0 <= j < |txs| && txs[j] == txs'[k];
    BaseIncludes(env, txs, env', txs', c, j);
    assert SameButHeight(env.allTx[txs[j]], env'.allTx[txs'[k]]);
  }

  /** If every pending transaction stays pending, the flags agree. */
  lemma KeptAgrees(env: Env, txs: seq<Hash>, env': Env, txs': seq<Hash>)
    requires Confirming(env, txs, env', txs') && PendingKept(env, txs, env')
    ensures FlagsAgree(Run(env, txs), Run(env', txs'))
  {
    var c := WaitingAtEnd(env'.allTx, txs');
    hide Run, StatusOf, Kept, Waiting, ConfirmedFirst;
    StaySynchronous(env, txs, env', txs', c, |txs|);
    SynchronousEnd(env, txs, env', txs', c);
    BaseIncluded(env, txs, env', txs', c);
  }

  /** A transaction that is released is in only one of the two sets of pending ones. */
  lemma ReleasedDisagrees(env: Env, txs: seq<Hash>, env': Env, txs': seq<Hash>, c: nat, n: nat)
    requires Confirming(env, txs, env', txs') && Base(env', txs', c) && n < |txs|
    requires Synchronous(env, txs, env', txs', c, n) && !Kept(env, txs, env', n)
    ensures Run(env, txs).pending != Run(env', txs').pending
  {
    hide Run, Conflicts, IsPending, Spends, UsedAddrs, Waiting, ConfirmedFirst;
    WaitingStep(env, txs, env', txs', c, n);
    var m := Reached(env', txs, c, n);
    var s, s', tx, tx' := Run(env, txs[..n]), Run(env', txs'[..m]), env.allTx[txs[n]], env'.allTx[txs'[m]];
    PendingAlike(env', env', s, s', tx, tx');
    FlagsAre(env, txs, n);
    FlagsAre(env', txs', m);
  }

  lemma {:induction false} LostAgreement(env: Env, txs: seq<Hash>, env': Env, txs': seq<Hash>, c: nat, n: nat)
    requires Listed(env, txs) && Listed(env', txs') && c <= |txs'| && n <= |txs|
    requires Confirming(env, txs, env', txs') && Base(env', txs', c) && !KeptUpTo(env, txs, env', n)
    ensures Run(env, txs).pending != Run(env', txs').pending
  {
    hide Run, Synchronous, Kept, Confirming, Base, Listed;
    if KeptUpTo(env, txs, env', n - 1) {
      StaySynchronous(env, txs, env', txs', c, n - 1);
      ReleasedDisagrees(env, txs, env', txs', c, n - 1);
    } else {
      LostAgreement(env, txs, env', txs', c, n - 1);
    }
  }

  /** The flags agree exactly if no transaction that still waits becomes pending or ceases to be. */
  lemma FlagsStay(env: Env, txs: seq<Hash>, env': Env, txs': seq<Hash>)
    requires Confirming(env, txs, env', txs')
    ensures FlagsAgree(Run(env, txs), Run(env', txs')) <==> PendingKept(env, txs, env')
  {
    if PendingKept(env, txs, env') {
      KeptAgrees(env, txs, env', txs');
    } else {
      var c := WaitingAtEnd(env'.allTx, txs');
      hide Run, Kept, Waiting, ConfirmedFirst, StatusOf;
      LostAgreement(env, txs, env', txs', c, |txs|);
    }
  }

  /** Without anything pending a higher chain changes nothing. */
  lemma NothingPendingKept(env: Env, txs: seq<Hash>, env': Env)
    requires Listed(env, txs) && env.now == env'.now && env.blockHeight <= env'.blockHeight
    requires forall h :: h in txs && IsWaiting(env'.allTx, h) ==> IsWaiting(env.allTx, h)
    requires Run(env, txs).pending == {}
    ensures PendingKept(env, txs, env')
  {
    forall i: nat | i < |txs|
      ensures Kept(env, txs, env', i)
    {
      FlagsAre(env, txs, i);
      LessPending(env, env', Run(env, txs[..i]), env.allTx[txs[i]]);
    }
  }

  lemma LessPending(env: Env, env': Env, s: State, tx: Tx)
    requires env.now == env'.now && env.blockHeight <= env'.blockHeight
    ensures IsPending(env', s, tx) ==> IsPending(env, s, tx)
  {
    forall j: nat | j < |tx.inputs|
      ensures Postponed(env', s, tx, tx.inputs[j]) ==> Postponed(env, s, tx, tx.inputs[j])
    {}
  }

  /** No input waits for a block height. */
  predicate NoHeightLock(tx: Tx) {
    forall j: nat :: j < |tx.inputs| ==>
      tx.inputs[j].sequence == UINT32_MAX || tx.lockTime == 0 || tx.lockTime >= TX_MAX_LOCK_HEIGHT
  }

  predicate AllUnlocked(allTx: TxMap, txs: seq<Hash>) {
    forall h :: h in txs && h in allTx ==> NoHeightLock(allTx[h])
  }

  /** Without such locks the chain height does not matter. */
  lemma UnlockedKept(env: Env, txs: seq<Hash>, env': Env)
    requires Listed(env, txs) && env.now == env'.now
    requires AllUnlocked(env.allTx, txs)
    ensures PendingKept(env, txs, env')
  {
    forall i: nat | i < |txs|
      ensures Kept(env, txs, env', i)
    {
      assert txs[i] in txs;
      SamePending(env, env', Run(env, txs[..i]), env.allTx[txs[i]]);
    }
  }

  lemma SamePending(env: Env, env': Env, s: State, tx: Tx)
    requires env.now == env'.now && NoHeightLock(tx)
    ensures IsPending(env', s, tx) == IsPending(env, s, tx)
  {
    forall j: nat | j < |tx.inputs|
      ensures Postponed(env', s, tx, tx.inputs[j]) == Postponed(env, s, tx, tx.inputs[j])
    {}
  }
}
