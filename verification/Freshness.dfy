/**
 When the recorded ledger is still the ledger of the list: confirmations change heights and the order of the list, and
 the program does not always recompute the ledger then. What a pending transaction spends is taken out of the unspent
 outputs by the next accepted transaction only, so that the order matters to them as well.
*/
module Freshness {
  import opened Ledger
  import opened Lockstep
  import opened Transaction
  import opened TxOrder

  predicate SameElements(a: seq<Outpoint>, b: seq<Outpoint>) {
    (forall o :: o in a ==> o in b) && (forall o :: o in b ==> o in a)
  }

  /** The two ledgers agree on all flags, on the unspent outputs and on the balance. */
  predicate Agree(s: State, s': State) {
    FlagsAgree(s, s') && s.balance == s'.balance && SameElements(s.utxos, s'.utxos)
  }

  // ---------- What has been swept ----------

  /** The transaction at position `i` is accepted, or an accepted one comes after it. */
  ghost predicate Followed(env: Env, txs: seq<Hash>, i: nat)
    requires Listed(env, txs)
  {
    exists j: nat :: IsFollower(env, txs, i, j)
  }

  predicate IsFollower(env: Env, txs: seq<Hash>, i: nat, j: nat)
    requires Listed(env, txs)
  {
    i <= j < |txs| && StatusOf(env, txs, j) == Accepted
  }

  /** The transaction at position `i` is not invalid and spends `o`. */
  predicate SpendsAt(env: Env, txs: seq<Hash>, o: Outpoint, i: nat)
    requires Listed(env, txs)
  {
    i < |txs| && StatusOf(env, txs, i) != Invalid && o in Spends(env.allTx[txs[i]])
  }

  lemma {:induction false} SweptContains(env: Env, txs: seq<Hash>, o: Outpoint, i: nat, j: nat)
    requires Listed(env, txs) && SpendsAt(env, txs, o, i) && IsFollower(env, txs, i, j)
    ensures o in Swept(env, txs)
  {
    var n := |txs| - 1;
    if StatusOf(env, txs, n) == Accepted {
      SpentContains(env, txs, i);
    } else {
      StatusInPrefix(env, txs, n, i);
      StatusInPrefix(env, txs, n, j);
      SweptContains(env, txs[..n], o, i, j);
    }
  }

  lemma {:induction false} SweptOrigin(env: Env, txs: seq<Hash>, o: Outpoint) returns (i: nat)
    requires Listed(env, txs) && o in Swept(env, txs)
    ensures SpendsAt(env, txs, o, i) && Followed(env, txs, i)
  {
    var n := |txs| - 1;
    if StatusOf(env, txs, n) == Accepted {
      i := SpentOrigin(env, txs, o);
      assert IsFollower(env, txs, i, n);
    } else {
      i := SweptOrigin(env, txs[..n], o);
      StatusInPrefix(env, txs, n, i);
      var j: nat :| IsFollower(env, txs[..n], i, j);
      StatusInPrefix(env, txs, n, j);
      assert IsFollower(env, txs, i, j);
    }
  }

  /** What a waiting transaction spends, no other transaction that is not invalid does. */
  lemma OnlySpender(env: Env, txs: seq<Hash>, o: Outpoint, i: nat, k: nat)
    requires Listed(env, txs) && ConfirmedFirst(env.allTx, txs)
    requires SpendsAt(env, txs, o, i) && SpendsAt(env, txs, o, k) && IsWaiting(env.allTx, txs[i])
    ensures i == k
  {
    hide Run, StatusOf;
    if i < k {
      NoDoubleSpend(env, txs, i, k);
    } else if k < i {
      NoDoubleSpend(env, txs, k, i);
    }
  }

  // ---------- Two lists with the same flags ----------

  /** The same transactions, all with the same status. */
  ghost predicate Twins(env: Env, txs: seq<Hash>, env': Env, txs': seq<Hash>) {
    && Listed(env, txs) && Listed(env', txs') && env.allAddrs == env'.allAddrs
    && (forall h :: h in txs <==> h in txs')
    && (forall h :: h in txs ==> SameButHeight(env.allTx[h], env'.allTx[h]))
    && FlagsAgree(Run(env, txs), Run(env', txs'))
  }

  lemma TwinsBack(env: Env, txs: seq<Hash>, env': Env, txs': seq<Hash>)
    requires Twins(env, txs, env', txs')
    ensures Twins(env', txs', env, txs)
  {
    hide Run;
  }

  /** Where the transaction at `i` stands in the other list. */
  lemma Place(env: Env, txs: seq<Hash>, env': Env, txs': seq<Hash>, i: nat) returns (k: nat)
    requires Twins(env, txs, env', txs') && i < |txs|
    ensures k < |txs'| && txs'[k] == txs[i] && StatusOf(env, txs, i) == StatusOf(env', txs', k)
    ensures SameButHeight(env.allTx[txs[i]], env'.allTx[txs'[k]])
    ensures Spends(env.allTx[txs[i]]) == Spends(env'.allTx[txs'[k]])
  {
    hide Run, StatusOf;
    assert txs[i] in txs && txs[i] in txs';
    k :| 0 <= k < |txs'| && txs'[k] == txs[i];
    FlagsAre(env, txs, i);
    FlagsAre(env', txs', k);
  }

  lemma TwinOutput(env: Env, txs: seq<Hash>, env': Env, txs': seq<Hash>, o: Outpoint)
    requires Twins(env, txs, env', txs') && IsWalletOutput(env, txs, o)
    ensures IsWalletOutput(env', txs', o)
  {
    hide Run, StatusOf;
    var i: nat :| WalletOutput(env, txs, o, i);
    var k := Place(env, txs, env', txs', i);
    assert WalletOutput(env', txs', o, k);
  }

  lemma {:induction false} SumAlike(env: Env, env': Env, os: seq<Outpoint>)
    requires forall o :: o in os ==> Amount(env, o) == Amount(env', o)
    ensures Sum(env, os) == Sum(env', os)
  {
    if os != [] {
      SumAlike(env, env', os[..|os| - 1]);
    }
  }

  lemma BalancesAgree(env: Env, txs: seq<Hash>, env': Env, txs': seq<Hash>)
    requires Listed(env, txs) && Listed(env', txs')
    requires forall h :: h in txs ==> h in txs' && SameButHeight(env.allTx[h], env'.allTx[h])
    requires SameElements(Run(env, txs).utxos, Run(env', txs').utxos)
    ensures Run(env, txs).balance == Run(env', txs').balance
  {
    Conservation(env, txs);
    Conservation(env', txs');
    UtxosDistinct(env, txs);
    UtxosDistinct(env', txs');
    hide Run;
    var os, os' := Run(env, txs).utxos, Run(env', txs').utxos;
    SumOfSame(env, os, os');
    forall o | o in os'
      ensures Amount(env, o) == Amount(env', o)
    {
      assert o.hash in txs;
    }
    SumAlike(env, env', os');
  }

  // ---------- The order of those that wait ----------

  lemma {:induction false} ReachedGrows(env': Env, txs: seq<Hash>, c: nat, i: nat, j: nat)
    requires i <= j <= |txs|
    ensures Reached(env', txs, c, i) <= Reached(env', txs, c, j)
    ensures i < j && IsWaiting(env'.allTx, txs[i]) ==> Reached(env', txs, c, i) < Reached(env', txs, c, j)
  {
    if i < j {
      ReachedGrows(env', txs, c, i, j - 1);
      assert txs[..j][..j - 1] == txs[..j - 1];
    }
  }

  /** A transaction that waits stands where the list has got to when it comes. */
  lemma PlaceReached(env: Env, txs: seq<Hash>, env': Env, txs': seq<Hash>, c: nat, i: nat, k: nat)
    requires Confirming(env, txs, env', txs') && Base(env', txs', c)
    requires i < |txs| && k < |txs'| && txs'[k] == txs[i] && IsWaiting(env'.allTx, txs[i])
    ensures k == Reached(env', txs, c, i)
  {
    hide Run, StatusOf, Waiting, ConfirmedFirst;
    ReachedNext(env', txs, txs', c, i);
  }

  /** Those that wait follow each other in both lists alike. */
  lemma SameQueueOrder(env: Env, txs: seq<Hash>, env': Env, txs': seq<Hash>, i: nat, j: nat, k: nat, m: nat)
    requires Confirming(env, txs, env', txs') && i < |txs| && j < |txs| && k < |txs'| && m < |txs'|
    requires txs'[k] == txs[i] && txs'[m] == txs[j] && IsWaiting(env'.allTx, txs[i]) && IsWaiting(env'.allTx, txs[j])
    ensures i <= j <==> k <= m
  {
    hide Run, StatusOf, Waiting;
    var c := WaitingAtEnd(env'.allTx, txs');
    PlaceReached(env, txs, env', txs', c, i, k);
    PlaceReached(env, txs, env', txs', c, j, m);
    if i <= j { ReachedGrows(env', txs, c, i, j); } else { ReachedGrows(env', txs, c, j, i); }
  }

  // ---------- The exact condition ----------

  /** An accepted transaction that still waits comes after position `i`. */
  ghost predicate StillFollowed(env: Env, txs: seq<Hash>, env': Env, i: nat)
    requires Listed(env, txs)
  {
    exists j: nat :: IsFollower(env, txs, i, j) && IsWaiting(env'.allTx, txs[j])
  }

  /** The transaction at position `i` is pending and spends `o`, an output of an accepted transaction to the wallet. */
  ghost predicate HoldsBack(env: Env, txs: seq<Hash>, i: nat, o: Outpoint)
    requires Listed(env, txs)
  {
    SpendsAt(env, txs, o, i) && StatusOf(env, txs, i) == Pending && IsWalletOutput(env, txs, o)
  }

  /**
   Every pending transaction that spends an accepted output of the wallet, if it is followed by an accepted one, is
   followed by one that still waits.
  */
  ghost predicate SweepKept(env: Env, txs: seq<Hash>, env': Env)
    requires Listed(env, txs)
  {
    forall i: nat, o :: HoldsBack(env, txs, i, o) && Followed(env, txs, i) ==> StillFollowed(env, txs, env', i)
  }

  /** In the new list, a pending transaction is followed by those that still wait. */
  lemma FollowedInNew(env: Env, txs: seq<Hash>, env': Env, txs': seq<Hash>, i: nat, k: nat)
    requires Confirming(env, txs, env', txs') && Twins(env, txs, env', txs')
    requires i < |txs| && k < |txs'| && txs'[k] == txs[i] && IsWaiting(env'.allTx, txs[i])
    ensures Followed(env', txs', k) <==> StillFollowed(env, txs, env', i)
  {
    hide Run, StatusOf, Waiting;
    if Followed(env', txs', k) {
      var m: nat :| IsFollower(env', txs', k, m);
      TwinsBack(env, txs, env', txs');
      var j := Place(env', txs', env, txs, m);
      assert IsWaiting(env'.allTx, txs'[m]);
      SameQueueOrder(env, txs, env', txs', i, j, k, m);
      assert IsFollower(env, txs, i, j) && IsWaiting(env'.allTx, txs[j]);
    }
    if StillFollowed(env, txs, env', i) {
      var j: nat :| IsFollower(env, txs, i, j) && IsWaiting(env'.allTx, txs[j]);
      var m := Place(env, txs, env', txs', j);
      SameQueueOrder(env, txs, env', txs', i, j, k, m);
      assert IsFollower(env', txs', k, m);
    }
  }

  /** A pending transaction still waits. */
  lemma PendingWaits(env: Env, txs: seq<Hash>, env': Env, txs': seq<Hash>, i: nat)
    requires Confirming(env, txs, env', txs') && i < |txs| && StatusOf(env, txs, i) == Pending
    ensures IsWaiting(env'.allTx, txs[i]) && IsWaiting(env.allTx, txs[i])
  {
    hide Run, Waiting;
  }

  /** With the sweep kept, what was swept before of the wallet's outputs is swept after. */
  lemma SweptStays(env: Env, txs: seq<Hash>, env': Env, txs': seq<Hash>, o: Outpoint)
    requires Confirming(env, txs, env', txs') && Twins(env, txs, env', txs') && SweepKept(env, txs, env')
    requires IsWalletOutput(env, txs, o) && o in Swept(env, txs)
    ensures o in Swept(env', txs')
  {
    hide Run, StatusOf, Waiting, Swept, Confirming, Twins, IsWalletOutput;
    TwinsListed(env, txs, env', txs');
    var i := SweptOrigin(env, txs, o);
    var k := Place(env, txs, env', txs', i);
    if StatusOf(env, txs, i) == Accepted {
      SweptContains(env', txs', o, k, k);
    } else {
      PendingWaits(env, txs, env', txs', i);
      assert HoldsBack(env, txs, i, o);
      FollowedInNew(env, txs, env', txs', i, k);
      var m: nat :| IsFollower(env', txs', k, m);
      SweptContains(env', txs', o, k, m);
    }
  }

  lemma TwinsListed(env: Env, txs: seq<Hash>, env': Env, txs': seq<Hash>)
    requires Twins(env, txs, env', txs')
    ensures Listed(env, txs) && Listed(env', txs')
  {}

  /** Nothing more is swept after than before. */
  lemma SweptNoMore(env: Env, txs: seq<Hash>, env': Env, txs': seq<Hash>, o: Outpoint)
    requires Confirming(env, txs, env', txs') && Twins(env, txs, env', txs') && o in Swept(env', txs')
    ensures o in Swept(env, txs)
  {
    hide Run, StatusOf, Waiting, Swept, Confirming, Twins;
    TwinsListed(env, txs, env', txs');
    TwinsBack(env, txs, env', txs');
    var k := SweptOrigin(env', txs', o);
    var i := Place(env', txs', env, txs, k);
    if StatusOf(env, txs, i) == Accepted {
      SweptContains(env, txs, o, i, i);
    } else {
      PendingWaits(env, txs, env', txs', i);
      FollowedInNew(env, txs, env', txs', i, k);
      var j: nat :| IsFollower(env, txs, i, j) && IsWaiting(env'.allTx, txs[j]);
      SweptContains(env, txs, o, i, j);
    }
  }

  /** What is held back only by transactions that do not follow any more is unspent again. */
  lemma SweepLost(env: Env, txs: seq<Hash>, env': Env, txs': seq<Hash>, i: nat, o: Outpoint)
    requires Confirming(env, txs, env', txs') && Twins(env, txs, env', txs')
    requires HoldsBack(env, txs, i, o) && Followed(env, txs, i) && !StillFollowed(env, txs, env', i)
    ensures o in Run(env', txs').utxos && o !in Run(env, txs).utxos
  {
    hide Run, StatusOf, Waiting, Swept, Twins;
    TwinsListed(env, txs, env', txs');
    var j: nat :| IsFollower(env, txs, i, j);
    SweptContains(env, txs, o, i, j);
    UtxosAre(env, txs, o);
    UtxosAre(env', txs', o);
    TwinOutput(env, txs, env', txs', o);
    if o in Swept(env', txs') {
      var k := SweptOrigin(env', txs', o);
      TwinsBack(env, txs, env', txs');
      var i' := Place(env', txs', env, txs, k);
      PendingWaits(env, txs, env', txs', i);
      OnlySpender(env, txs, o, i, i');
      FollowedInNew(env, txs, env', txs', i, k);
    }
  }

  lemma TwinsAgree(env: Env, txs: seq<Hash>, env': Env, txs': seq<Hash>)
    requires Confirming(env, txs, env', txs') && Twins(env, txs, env', txs') && SweepKept(env, txs, env')
    ensures SameElements(Run(env, txs).utxos, Run(env', txs').utxos)
  {
    hide Run, StatusOf, Waiting, Swept, Confirming, Twins, IsWalletOutput, SweepKept;
    TwinsListed(env, txs, env', txs');
    TwinsBack(env, txs, env', txs');
    forall o
      ensures o in Run(env, txs).utxos <==> o in Run(env', txs').utxos
    {
      UtxosAre(env, txs, o);
      UtxosAre(env', txs', o);
      if IsWalletOutput(env, txs, o) {
        TwinOutput(env, txs, env', txs', o);
        if o in Swept(env, txs) { SweptStays(env, txs, env', txs', o); }
        if o in Swept(env', txs') { SweptNoMore(env, txs, env', txs', o); }
      } else if IsWalletOutput(env', txs', o) {
        TwinOutput(env', txs', env, txs, o);
      }
    }
  }

  /**
   The recorded ledger agrees with the one of the new list exactly if no transaction that still waits becomes pending or
   ceases to be, and every pending one that spends an accepted output of the wallet and is followed by an accepted
   transaction is followed by one that still waits.
  */
  lemma StaysFresh(env: Env, txs: seq<Hash>, env': Env, txs': seq<Hash>)
    requires Confirming(env, txs, env', txs')
    ensures Agree(Run(env, txs), Run(env', txs')) <==> PendingKept(env, txs, env') && SweepKept(env, txs, env')
  {
    FlagsStay(env, txs, env', txs');
    hide Run, StatusOf, Waiting, ConfirmedFirst, PendingKept;
    if PendingKept(env, txs, env') {
      assert Twins(env, txs, env', txs') by {
        forall h | h in txs
          ensures SameButHeight(env.allTx[h], env'.allTx[h])
        {}
      }
      hide Twins;
      if SweepKept(env, txs, env') {
        TwinsAgree(env, txs, env', txs');
        TwinsBalances(env, txs, env', txs');
      } else {
        var i: nat, o :| HoldsBack(env, txs, i, o) && Followed(env, txs, i) && !StillFollowed(env, txs, env', i);
        SweepLost(env, txs, env', txs', i, o);
      }
    }
  }

  lemma TwinsBalances(env: Env, txs: seq<Hash>, env': Env, txs': seq<Hash>)
    requires Twins(env, txs, env', txs') && Listed(env, txs) && Listed(env', txs')
    requires SameElements(Run(env, txs).utxos, Run(env', txs').utxos)
    ensures Run(env, txs).balance == Run(env', txs').balance
  {
    hide Run;
    BalancesAgree(env, txs, env', txs');
  }

  /** With nothing pending and a higher chain both conditions hold. */
  lemma NothingPendingStays(env: Env, txs: seq<Hash>, env': Env)
    requires Listed(env, txs) && env.now == env'.now && env.blockHeight <= env'.blockHeight
    requires forall h :: h in txs && IsWaiting(env'.allTx, h) ==> IsWaiting(env.allTx, h)
    requires Run(env, txs).pending == {}
    ensures PendingKept(env, txs, env') && SweepKept(env, txs, env')
  {
    NothingPendingKept(env, txs, env');
    hide Run, StatusOf, IsWalletOutput, PendingKept;
    forall i: nat, o
      ensures !HoldsBack(env, txs, i, o)
    {
      if i < |txs| { FlagsAre(env, txs, i); }
    }
  }

  // ---------- Ledgers that are right but for what pending transactions spend ----------

  ghost predicate SpentByAccepted(env: Env, txs: seq<Hash>, o: Outpoint)
    requires Listed(env, txs)
  {
    exists i: nat :: SpendsAt(env, txs, o, i) && StatusOf(env, txs, i) == Accepted
  }

  /**
   The flags are right, and so are the unspent outputs but for those that only pending transactions spend; the balance
   is that of the recorded outputs.
  */
  ghost predicate NearlyAgrees(current: State, env: Env, txs: seq<Hash>)
    requires Listed(env, txs)
  {
    && FlagsAgree(current, Run(env, txs))
    && Distinct(current.utxos) && current.balance == Sum(env, current.utxos)
    && (forall o :: o in current.utxos ==> IsWalletOutput(env, txs, o) && !SpentByAccepted(env, txs, o))
    && (forall o :: IsWalletOutput(env, txs, o) && o !in Run(env, txs).spent ==> o in current.utxos)
  }

  /** An output that a pending transaction spends is recorded exactly if no accepted transaction follows. */
  ghost predicate SweptRight(current: State, env: Env, txs: seq<Hash>)
    requires Listed(env, txs)
  {
    forall i: nat, o :: HoldsBack(env, txs, i, o) ==> (o in current.utxos <==> !Followed(env, txs, i))
  }

  /** What is swept, for an output that no accepted transaction spends. */
  lemma SweptIs(env: Env, txs: seq<Hash>, o: Outpoint, i: nat)
    requires Listed(env, txs) && ConfirmedFirst(env.allTx, txs) && HoldsBack(env, txs, i, o)
    ensures o in Swept(env, txs) <==> Followed(env, txs, i)
  {
    if Followed(env, txs, i) {
      var j: nat :| IsFollower(env, txs, i, j);
      SweptContains(env, txs, o, i, j);
    }
    if o in Swept(env, txs) {
      var k := SweptOrigin(env, txs, o);
      OnlySpender(env, txs, o, i, k);
    }
  }

  /** Every recomputed ledger is such a one, and what it records of held-back outputs is right. */
  lemma RunNearlyAgrees(env: Env, txs: seq<Hash>)
    requires Listed(env, txs) && ConfirmedFirst(env.allTx, txs)
    ensures NearlyAgrees(Run(env, txs), env, txs) && SweptRight(Run(env, txs), env, txs)
  {
    Conservation(env, txs);
    UtxosDistinct(env, txs);
    SweptWasSpent(env, txs);
    hide Run, StatusOf, Swept, IsWalletOutput;
    forall o
      ensures o in Run(env, txs).utxos <==> o !in Swept(env, txs) && IsWalletOutput(env, txs, o)
      ensures o in Run(env, txs).utxos ==> !SpentByAccepted(env, txs, o)
    {
      UtxosAre(env, txs, o);
      if SpentByAccepted(env, txs, o) {
        var i: nat :| SpendsAt(env, txs, o, i) && StatusOf(env, txs, i) == Accepted;
        SweptContains(env, txs, o, i, i);
      }
    }
    forall i: nat, o | HoldsBack(env, txs, i, o)
      ensures o in Run(env, txs).utxos <==> !Followed(env, txs, i)
    {
      SweptIs(env, txs, o, i);
    }
  }

  /** The outputs such a ledger records. */
  lemma RecordedIs(current: State, env: Env, txs: seq<Hash>, o: Outpoint)
    requires Listed(env, txs) && ConfirmedFirst(env.allTx, txs)
    requires NearlyAgrees(current, env, txs) && SweptRight(current, env, txs)
    ensures o in current.utxos <==> o !in Swept(env, txs) && IsWalletOutput(env, txs, o)
  {
    hide Run, StatusOf, Swept, IsWalletOutput;
    if IsWalletOutput(env, txs, o) {
      if o in Run(env, txs).spent {
        var i := SpentOrigin(env, txs, o);
        if StatusOf(env, txs, i) == Accepted {
          SweptContains(env, txs, o, i, i);
        } else {
          assert HoldsBack(env, txs, i, o);
          SweptIs(env, txs, o, i);
        }
      } else {
        SweptWasSpent(env, txs);
      }
    }
  }

  /** A nearly right ledger is right exactly if it is right about the outputs that pending transactions spend. */
  lemma NearlyIsRight(current: State, env: Env, txs: seq<Hash>)
    requires Listed(env, txs) && ConfirmedFirst(env.allTx, txs) && NearlyAgrees(current, env, txs)
    ensures Agree(current, Run(env, txs)) <==> SweptRight(current, env, txs)
  {
    Conservation(env, txs);
    UtxosDistinct(env, txs);
    RunNearlyAgrees(env, txs);
    hide Run, StatusOf, Swept, IsWalletOutput;
    if SweptRight(current, env, txs) {
      forall o
        ensures o in current.utxos <==> o in Run(env, txs).utxos
      {
        RecordedIs(current, env, txs, o);
        UtxosAre(env, txs, o);
      }
      SumOfSame(env, current.utxos, Run(env, txs).utxos);
    }
  }

  lemma TwinAccepted(env: Env, txs: seq<Hash>, env': Env, txs': seq<Hash>, o: Outpoint)
    requires Twins(env, txs, env', txs') && SpentByAccepted(env, txs, o)
    ensures SpentByAccepted(env', txs', o)
  {
    hide Run, StatusOf;
    var i: nat :| SpendsAt(env, txs, o, i) && StatusOf(env, txs, i) == Accepted;
    var k := Place(env, txs, env', txs', i);
    assert SpendsAt(env', txs', o, k);
  }

  /** With the same flags a nearly right ledger stays one. */
  lemma NearlyStays(current: State, env: Env, txs: seq<Hash>, env': Env, txs': seq<Hash>)
    requires Twins(env, txs, env', txs') && Listed(env, txs) && Listed(env', txs') && NearlyAgrees(current, env, txs)
    ensures NearlyAgrees(current, env', txs')
  {
    hide Run, StatusOf, Spends;
    TwinsBack(env, txs, env', txs');
    forall o
      ensures IsWalletOutput(env, txs, o) == IsWalletOutput(env', txs', o)
      ensures SpentByAccepted(env, txs, o) == SpentByAccepted(env', txs', o)
    {
      if IsWalletOutput(env, txs, o) { TwinOutput(env, txs, env', txs', o); }
      if IsWalletOutput(env', txs', o) { TwinOutput(env', txs', env, txs, o); }
      if SpentByAccepted(env, txs, o) { TwinAccepted(env, txs, env', txs', o); }
      if SpentByAccepted(env', txs', o) { TwinAccepted(env', txs', env, txs, o); }
    }
    forall o | o in current.utxos
      ensures Amount(env, o) == Amount(env', o)
    {
      var i: nat :| WalletOutput(env, txs, o, i);
      assert txs[i] in txs;
    }
    SumAlike(env, env', current.utxos);
  }

  // ---------- What the wallet does ----------

  predicate LowHeights(allTx: TxMap, txs: seq<Hash>) {
    forall h :: h in txs && h in allTx ==> allTx[h].blockHeight <= TX_UNCONFIRMED
  }

  ghost predicate InOrder(allTx: TxMap, txs: seq<Hash>) {
    Known(allTx, txs) && Sorted(allTx, txs) && LowHeights(allTx, txs) && forall h :: h in txs ==> allTx[h].hash == h
  }

  lemma InOrderFacts(env: Env, txs: seq<Hash>)
    requires InOrder(env.allTx, txs)
    ensures Listed(env, txs) && ConfirmedFirst(env.allTx, txs)
  {
    forall i, j | 0 <= i < j < |txs| && IsWaiting(env.allTx, txs[i])
      ensures IsWaiting(env.allTx, txs[j])
    {
      assert txs[j] in txs && env.allTx[txs[i]].blockHeight <= env.allTx[txs[j]].blockHeight;
    }
  }

  /** The recorded ledger `current` agrees with the ledger of the list. */
  ghost predicate IsFresh(current: State, env: Env, txs: seq<Hash>) {
    InOrder(env.allTx, txs) && Listed(env, txs) && Distinct(current.utxos) && Agree(current, Run(env, txs))
  }

  /** It does but for the outputs that only pending transactions spend. */
  ghost predicate IsNearlyFresh(current: State, env: Env, txs: seq<Hash>) {
    InOrder(env.allTx, txs) && Listed(env, txs) && NearlyAgrees(current, env, txs)
  }

  /** What is missing to a nearly fresh ledger. */
  lemma NearlyFreshIs(current: State, env: Env, txs: seq<Hash>)
    requires IsNearlyFresh(current, env, txs)
    ensures IsFresh(current, env, txs) <==> SweptRight(current, env, txs)
  {
    InOrderFacts(env, txs);
    hide Run, InOrder, SweptRight;
    NearlyIsRight(current, env, txs);
  }

  lemma FreshIsNearly(current: State, env: Env, txs: seq<Hash>)
    requires IsFresh(current, env, txs)
    ensures IsNearlyFresh(current, env, txs)
  {
    hide Run, InOrder, SweptRight, IsWalletOutput, SpentByAccepted, Sum, ConfirmedFirst, Listed, Swept;
    InOrderFacts(env, txs);
    RunNearlyAgrees(env, txs);
    UtxosDistinct(env, txs);
    Conservation(env, txs);
    SumOfSame(env, current.utxos, Run(env, txs).utxos);
  }

  lemma AgreeShared(current: State, s: State, s': State)
    requires Agree(current, s)
    ensures Agree(current, s') <==> Agree(s, s')
  {}

  /** If the list changes as above and the ledger is not recomputed, when it is still fresh. */
  lemma FreshUnlessChanged(current: State, env: Env, txs: seq<Hash>, env': Env, txs': seq<Hash>)
    requires IsFresh(current, env, txs) && InOrder(env'.allTx, txs') && Confirming(env, txs, env', txs')
    ensures IsFresh(current, env', txs') <==> PendingKept(env, txs, env') && SweepKept(env, txs, env')
  {
    hide Run, Confirming, Agree, PendingKept, SweepKept;
    InOrderFacts(env', txs');
    AgreeShared(current, Run(env, txs), Run(env', txs'));
    StaysFresh(env, txs, env', txs');
  }

  /** It stays nearly fresh if no transaction is released. */
  lemma NearlyUnlessReleased(current: State, env: Env, txs: seq<Hash>, env': Env, txs': seq<Hash>)
    requires IsNearlyFresh(current, env, txs) && InOrder(env'.allTx, txs') && Confirming(env, txs, env', txs')
    requires PendingKept(env, txs, env')
    ensures IsNearlyFresh(current, env', txs')
  {
    InOrderFacts(env', txs');
    KeptAgrees(env, txs, env', txs');
    hide Run, StatusOf, Waiting, ConfirmedFirst, PendingKept, NearlyAgrees;
    assert Twins(env, txs, env', txs') by {
      forall h | h in txs
        ensures SameButHeight(env.allTx[h], env'.allTx[h])
      {}
    }
    hide Twins, InOrder;
    NearlyStays(current, env, txs, env', txs');
  }

  /** Only the chain height changes. */
  lemma SameListConfirming(env: Env, txs: seq<Hash>, env': Env)
    requires InOrder(env.allTx, txs) && env' == env.(blockHeight := env'.blockHeight)
    ensures Confirming(env, txs, env', txs)
  {
    InOrderFacts(env, txs);
    InOrderFacts(env', txs);
    forall i | 0 <= i < |txs|
      ensures IsWaiting(env'.allTx, txs[i]) || StatusOf(env, txs, i) == Accepted
    {}
  }

  lemma SameListSweep(env: Env, txs: seq<Hash>, env': Env)
    requires Listed(env, txs) && ConfirmedFirst(env.allTx, txs) && env'.allTx == env.allTx
    ensures SweepKept(env, txs, env')
  {
    hide Run, IsWalletOutput;
    forall i: nat, o | HoldsBack(env, txs, i, o) && Followed(env, txs, i)
      ensures StillFollowed(env, txs, env', i)
    {
      var j: nat :| IsFollower(env, txs, i, j);
      assert i != j && IsWaiting(env.allTx, txs[i]);
      assert IsFollower(env, txs, i, j) && IsWaiting(env'.allTx, txs[j]);
    }
  }

  /** Transactions get a block height, none of them pending or invalid, and keep the order of those that wait. */
  lemma UpdateConfirming(env: Env, txs: seq<Hash>, env': Env, txs': seq<Hash>, hashes: seq<Hash>, height: nat,
                         timestamp: nat)
    requires InOrder(env.allTx, txs) && InOrder(env'.allTx, txs')
    requires ChangedTouch(env.allTx, env.allAddrs, txs, hashes, height, timestamp)
    requires env' == Env(Updated(env.allTx, env.allAddrs, hashes, height, timestamp), env.allAddrs, env'.blockHeight,
                         env.now)
    requires height < TX_UNCONFIRMED && multiset(txs) == multiset(txs')
    requires Waiting(env'.allTx, txs') == Waiting(env'.allTx, txs)
    requires Listed(env, txs)
    requires var s := Run(env, txs);
      !Reconsidered(env.allTx, env.allAddrs, hashes, height, timestamp, s.pending + s.invalid)
    ensures Confirming(env, txs, env', txs')
  {
    hide Run, Waiting, Touches;
    InOrderFacts(env, txs);
    InOrderFacts(env', txs');
    SameMembers(txs, txs');
    forall i | 0 <= i < |txs|
      ensures txs[i] in env'.allTx && SameButHeight(env.allTx[txs[i]], env'.allTx[txs[i]])
      ensures IsWaiting(env'.allTx, txs[i]) ==> IsWaiting(env.allTx, txs[i])
      ensures IsWaiting(env'.allTx, txs[i]) || StatusOf(env, txs, i) == Accepted
    {
      assert txs[i] in txs && txs[i] in txs';
      FlagsAre(env, txs, i);
      if !IsWaiting(env'.allTx, txs[i]) && IsWaiting(env.allTx, txs[i]) {
        var s := Run(env, txs);
        assert !IsReconsidered(env.allTx, env.allAddrs, txs[i], height, timestamp, s.pending + s.invalid);
      }
    }
  }

  lemma {:induction false} WaitingTwice(before: TxMap, after: TxMap, txs: seq<Hash>)
    requires forall h :: IsWaiting(after, h) ==> IsWaiting(before, h)
    ensures Waiting(after, Waiting(before, txs)) == Waiting(after, txs)
  {
    if txs != [] {
      var n := |txs| - 1;
      var init := Waiting(before, txs[..n]);
      WaitingTwice(before, after, txs[..n]);
      if IsWaiting(before, txs[n]) {
        assert (init + [txs[n]])[..|init|] == init;
      } else {
        assert Waiting(before, txs) == init;
      }
    }
  }

  lemma {:induction false} WaitingConcat(allTx: TxMap, a: seq<Hash>, b: seq<Hash>)
    ensures Waiting(allTx, a + b) == Waiting(allTx, a) + Waiting(allTx, b)
  {
    if b == [] {
      assert a + b == a;
    } else {
      WaitingConcat(allTx, a, b[..|b| - 1]);
      assert (a + b)[..|a + b| - 1] == a + b[..|b| - 1];
    }
  }

  /** Where a confirmed transaction stands does not matter to those that wait. */
  lemma WaitingInserted(allTx: TxMap, txs: seq<Hash>, h: Hash, at: nat)
    requires at <= |txs| && !IsWaiting(allTx, h)
    ensures Waiting(allTx, Inserted(txs, h, at)) == Waiting(allTx, txs)
  {
    hide Waiting, IsWaiting;
    NoneWaiting(allTx, [h]);
    WaitingConcat(allTx, txs[..at] + [h], txs[at..]);
    WaitingConcat(allTx, txs[..at], [h]);
    WaitingConcat(allTx, txs[..at], txs[at..]);
    assert txs == txs[..at] + txs[at..];
  }

  lemma PutBack(txs: seq<Hash>, k: nat)
    requires k < |txs|
    ensures k <= |Without(txs, k)| && Inserted(Without(txs, k), txs[k], k) == txs
  {}

  lemma WaitingMoved(allTx: TxMap, rank: Hash -> nat, before: seq<Hash>, h: Hash, after: seq<Hash>,
                     internalChain: seq<Address>, externalChain: seq<Address>)
    requires Acyclic(allTx, rank) && h in allTx && !IsWaiting(allTx, h)
    requires Moved(allTx, rank, before, h, after, internalChain, externalChain)
    ensures Waiting(allTx, after) == Waiting(allTx, before)
  {
    hide Waiting, Compare, Acyclic;
    if h in before {
      var k: nat, at: nat :|
        && k < |before| && before[k] == h && Known(allTx, Without(before, k))
        && InsertionPoint(allTx, rank, Without(before, k), h, at, internalChain, externalChain)
        && after == Inserted(Without(before, k), h, at);
      hide Inserted, Without, Known;
      PutBack(before, k);
      WaitingInserted(allTx, Without(before, k), h, at);
      WaitingInserted(allTx, Without(before, k), h, k);
    }
  }

  /** One confirmation keeps the order of those that wait. */
  lemma WaitingUpdated(before: TxMap, after: TxMap, list: seq<Hash>, txs: seq<Hash>, txs': seq<Hash>)
    requires Waiting(before, txs) == Waiting(before, list)
    requires (forall k :: IsWaiting(after, k) ==> IsWaiting(before, k)) && Waiting(after, txs') == Waiting(after, txs)
    ensures Waiting(after, txs') == Waiting(after, list)
  {
    hide Waiting;
    WaitingTwice(before, after, txs);
    WaitingTwice(before, after, list);
  }

  /** A recomputed ledger is fresh. */
  lemma RecomputedFresh(current: State, env: Env, txs: seq<Hash>)
    requires InOrder(env.allTx, txs)
    ensures Listed(env, txs)
    ensures current == Run(env, txs) ==> IsFresh(current, env, txs) && IsNearlyFresh(current, env, txs)
  {
    InOrderFacts(env, txs);
    UtxosDistinct(env, txs);
    hide Run, InOrder, NearlyAgrees;
    if current == Run(env, txs) { FreshIsNearly(current, env, txs); }
  }

  /** The list holds the same transactions, and those that wait in the same order. */
  ghost predicate SameQueue(allTx: TxMap, list: seq<Hash>, txs: seq<Hash>) {
    multiset(txs) == multiset(list) && Waiting(allTx, txs) == Waiting(allTx, list)
  }

  lemma UpdatedInOrder(env: Env, list: seq<Hash>, txs: seq<Hash>, hashes: seq<Hash>, height: nat, timestamp: nat)
    requires InOrder(env.allTx, list) && height < TX_UNCONFIRMED && multiset(txs) == multiset(list)
    requires var after := Updated(env.allTx, env.allAddrs, hashes, height, timestamp);
      Known(after, txs) && Sorted(after, txs)
    ensures InOrder(Updated(env.allTx, env.allAddrs, hashes, height, timestamp), txs)
  {
    hide Sorted, Touches;
    SameMembers(txs, list);
    forall h | h in txs
      ensures var after := Updated(env.allTx, env.allAddrs, hashes, height, timestamp);
        h in after && after[h].hash == h && after[h].blockHeight <= TX_UNCONFIRMED
    {
      assert h in list;
    }
  }

  /** How the ledger is after transactions got a block height: `was` before, `now` after. */
  ghost predicate UpdateDone(was: State, env: Env, list: seq<Hash>, now: State, env': Env, txs: seq<Hash>,
                             hashes: seq<Hash>, height: nat, timestamp: nat)
  {
    && height < TX_UNCONFIRMED && ChangedTouch(env.allTx, env.allAddrs, list, hashes, height, timestamp)
    && env' == Env(Updated(env.allTx, env.allAddrs, hashes, height, timestamp), env.allAddrs, env'.blockHeight, env.now)
    && Known(env'.allTx, txs) && Sorted(env'.allTx, txs) && SameQueue(env'.allTx, list, txs) && Listed(env', txs)
    && var again := Reconsidered(env.allTx, env.allAddrs, hashes, height, timestamp, was.pending + was.invalid);
       now == if again then Run(env', txs) else was
  }

  /** When the ledger is fresh after transactions got a block height. */
  lemma FreshAfterUpdate(was: State, env: Env, list: seq<Hash>, now: State, env': Env, txs: seq<Hash>, hashes: seq<Hash>,
                         height: nat, timestamp: nat)
    requires IsFresh(was, env, list) && UpdateDone(was, env, list, now, env', txs, hashes, height, timestamp)
    ensures Listed(env, list)
    ensures IsFresh(now, env', txs) <==>
            (|| Reconsidered(env.allTx, env.allAddrs, hashes, height, timestamp, was.pending + was.invalid)
             || (PendingKept(env, list, env') && SweepKept(env, list, env')))
  {
    hide Run, Waiting, ChangedTouch, PendingKept, SweepKept, Reconsidered, Sorted, Updated, InOrder;
    UpdatedInOrder(env, list, txs, hashes, height, timestamp);
    if Reconsidered(env.allTx, env.allAddrs, hashes, height, timestamp, was.pending + was.invalid) {
      RecomputedFresh(now, env', txs);
    } else {
      UpdateConfirming(env, list, env', txs, hashes, height, timestamp);
      FreshUnlessChanged(was, env, list, env', txs);
    }
  }

  /** When it stays nearly fresh. */
  lemma NearlyAfterUpdate(was: State, env: Env, list: seq<Hash>, now: State, env': Env, txs: seq<Hash>,
                          hashes: seq<Hash>, height: nat, timestamp: nat)
    requires IsNearlyFresh(was, env, list) && UpdateDone(was, env, list, now, env', txs, hashes, height, timestamp)
    requires || Reconsidered(env.allTx, env.allAddrs, hashes, height, timestamp, was.pending + was.invalid)
             || PendingKept(env, list, env')
    ensures IsNearlyFresh(now, env', txs)
  {
    hide Run, Waiting, ChangedTouch, PendingKept, Reconsidered, Sorted, Updated, InOrder;
    UpdatedInOrder(env, list, txs, hashes, height, timestamp);
    if Reconsidered(env.allTx, env.allAddrs, hashes, height, timestamp, was.pending + was.invalid) {
      RecomputedFresh(now, env', txs);
    } else {
      UpdateConfirming(env, list, env', txs, hashes, height, timestamp);
      NearlyUnlessReleased(was, env, list, env', txs);
    }
  }

  /** How the ledger is after transactions above a height lost their confirmation. */
  ghost predicate UnconfirmingDone(was: State, env: Env, now: State, env': Env, txs: seq<Hash>, height: nat) {
    && height <= TX_UNCONFIRMED
    && env' == Env(Unconfirmed(env.allTx, txs, height), env.allAddrs, height, env.now)
    && Listed(env', txs) && now == (if AnyAbove(env.allTx, txs, height) then Run(env', txs) else was)
    && Known(env'.allTx, txs) && Sorted(env'.allTx, txs)
  }

  /** When the ledger is fresh, and when nearly fresh, after transactions above a height lost their confirmation. */
  lemma FreshAfterUnconfirming(was: State, env: Env, now: State, env': Env, txs: seq<Hash>, height: nat)
    requires IsNearlyFresh(was, env, txs) && UnconfirmingDone(was, env, now, env', txs, height)
    ensures Listed(env, txs)
    ensures IsFresh(was, env, txs) ==>
            (IsFresh(now, env', txs) <==> AnyAbove(env.allTx, txs, height) || PendingKept(env, txs, env'))
    ensures AnyAbove(env.allTx, txs, height) || PendingKept(env, txs, env') ==> IsNearlyFresh(now, env', txs)
  {
    hide Run, PendingKept, Sorted, SweepKept, NearlyAgrees, Agree, Waiting;
    if AnyAbove(env.allTx, txs, height) {
      RecomputedFresh(now, env', txs);
    } else {
      assert env'.allTx == env.allTx;
      InOrderFacts(env, txs);
      SameListConfirming(env, txs, env');
      SameListSweep(env, txs, env');
      hide Confirming, InOrder, AnyAbove;
      if IsFresh(was, env, txs) { FreshUnlessChanged(was, env, txs, env', txs); }
      if PendingKept(env, txs, env') { NearlyUnlessReleased(was, env, txs, env', txs); }
    }
  }

  lemma UpdatedUnlocked(allTx: TxMap, allAddrs: set<Address>, hashes: seq<Hash>, height: nat, timestamp: nat,
                        list: seq<Hash>, txs: seq<Hash>)
    requires AllUnlocked(allTx, list) && multiset(list) == multiset(txs)
    ensures AllUnlocked(Updated(allTx, allAddrs, hashes, height, timestamp), txs)
  {
    hide Touches, NoHeightLock;
    SameMembers(list, txs);
    forall h | h in txs && h in Updated(allTx, allAddrs, hashes, height, timestamp)
      ensures NoHeightLock(Updated(allTx, allAddrs, hashes, height, timestamp)[h])
    {
      HeightUnlocked(allTx[h], height, timestamp);
    }
  }

  lemma UnconfirmedUnlocked(allTx: TxMap, txs: seq<Hash>, height: nat)
    requires AllUnlocked(allTx, txs)
    ensures AllUnlocked(Unconfirmed(allTx, txs, height), txs)
  {}

  lemma HeightUnlocked(tx: Tx, height: nat, timestamp: nat)
    requires NoHeightLock(tx)
    ensures NoHeightLock(WithHeight(tx, height, timestamp))
  {}

  // ---------- Transactions that are never pending ----------

  /** Neither its size, its outputs nor its inputs postpone the transaction. */
  predicate Prompt(tx: Tx) {
    && Size(tx.inputs, tx.outputs) <= TX_MAX_SIZE
    && (forall j: nat :: j < |tx.outputs| ==> tx.outputs[j].amount >= TX_MIN_OUTPUT_AMOUNT)
    && (forall j: nat :: j < |tx.inputs| ==>
         tx.inputs[j].sequence >= UINT32_MAX || (tx.inputs[j].sequence == UINT32_MAX - 1 && tx.lockTime == 0))
  }

  predicate AllPrompt(allTx: TxMap, txs: seq<Hash>) {
    forall h :: h in txs && h in allTx ==> Prompt(allTx[h])
  }

  lemma {:induction false} PromptNotPending(env: Env, txs: seq<Hash>)
    requires Listed(env, txs) && AllPrompt(env.allTx, txs)
    ensures Run(env, txs).pending == {}
  {
    if txs != [] {
      var n := |txs| - 1;
      PromptNotPending(env, txs[..n]);
      var tx := env.allTx[txs[n]];
      assert txs[n] in txs && Prompt(tx);
      assert !IsPending(env, Run(env, txs[..n]), tx);
      hide IsPending, Conflicts, Unspent, Sum, WalletOutputs, UsedAddrs, Spends;
    }
  }

  lemma PromptRight(current: State, env: Env, txs: seq<Hash>)
    requires Listed(env, txs) && AllPrompt(env.allTx, txs)
    ensures SweptRight(current, env, txs)
  {
    PromptNotPending(env, txs);
    hide Run, StatusOf, IsWalletOutput;
    forall i: nat, o
      ensures !HoldsBack(env, txs, i, o)
    {
      if i < |txs| { FlagsAre(env, txs, i); }
    }
  }

  // ---------- More addresses ----------

  function WithAddrs(env: Env, addrs: set<Address>): Env {
    env.(allAddrs := addrs)
  }

  lemma PendingAnyAddrs(env: Env, addrs: set<Address>, s: State, s': State, tx: Tx)
    requires FlagsAgree(s, s')
    ensures Classify(env, s, tx) == Classify(WithAddrs(env, addrs), s', tx)
  {
    PendingAlike(env, WithAddrs(env, addrs), s, s', tx, tx);
    assert Conflicts(s, tx) == Conflicts(s', tx);
    hide IsPending, Conflicts;
  }

  /** The flags do not depend on the addresses of the wallet. */
  lemma {:induction false} FlagsAnyAddrs(env: Env, txs: seq<Hash>, addrs: set<Address>)
    requires Listed(env, txs)
    ensures Listed(WithAddrs(env, addrs), txs)
    ensures FlagsAgree(Run(env, txs), Run(WithAddrs(env, addrs), txs))
    ensures Swept(env, txs) == Swept(WithAddrs(env, addrs), txs)
  {
    if txs != [] {
      var n := |txs| - 1;
      FlagsAnyAddrs(env, txs[..n], addrs);
      PendingAnyAddrs(env, addrs, Run(env, txs[..n]), Run(WithAddrs(env, addrs), txs[..n]), env.allTx[txs[n]]);
      hide Classify, Unspent, WalletOutputs, Sum, Spends, UsedAddrs;
    }
  }

  lemma StatusAnyAddrs(env: Env, txs: seq<Hash>, addrs: set<Address>, i: nat)
    requires Listed(env, txs) && i < |txs|
    ensures Listed(WithAddrs(env, addrs), txs) && StatusOf(env, txs, i) == StatusOf(WithAddrs(env, addrs), txs, i)
  {
    FlagsAnyAddrs(env, txs[..i], addrs);
    PendingAnyAddrs(env, addrs, Run(env, txs[..i]), Run(WithAddrs(env, addrs), txs[..i]), env.allTx[txs[i]]);
  }

  /** `o` is an output of an accepted listed transaction that pays a new address, and it has not been swept. */
  ghost predicate NewlyPaid(env: Env, txs: seq<Hash>, addrs: set<Address>, o: Outpoint)
    requires Listed(env, txs)
  {
    && o !in Swept(env, txs)
    && exists i: nat :: PaysNew(env, txs, addrs, o, i)
  }

  predicate PaysNew(env: Env, txs: seq<Hash>, addrs: set<Address>, o: Outpoint, i: nat)
    requires Listed(env, txs)
  {
    && i < |txs| && o.hash == txs[i] && StatusOf(env, txs, i) == Accepted && o.n < |env.allTx[txs[i]].outputs|
    && var address := env.allTx[txs[i]].outputs[o.n].address;
       address != "" && address in addrs && address !in env.allAddrs
  }

  lemma WalletOutputAnyAddrs(env: Env, txs: seq<Hash>, addrs: set<Address>, o: Outpoint)
    requires Listed(env, txs) && env.allAddrs <= addrs && Listed(WithAddrs(env, addrs), txs)
    ensures IsWalletOutput(WithAddrs(env, addrs), txs, o) <==>
            IsWalletOutput(env, txs, o) || exists i: nat :: PaysNew(env, txs, addrs, o, i)
    ensures !(IsWalletOutput(env, txs, o) && exists i: nat :: PaysNew(env, txs, addrs, o, i))
  {
    var env' := WithAddrs(env, addrs);
    hide Run, StatusOf;
    forall i: nat | i < |txs|
      ensures StatusOf(env, txs, i) == StatusOf(env', txs, i)
      ensures WalletOutput(env', txs, o, i) <==> WalletOutput(env, txs, o, i) || PaysNew(env, txs, addrs, o, i)
    {
      StatusAnyAddrs(env, txs, addrs, i);
    }
    if IsWalletOutput(env', txs, o) {
      var i: nat :| WalletOutput(env', txs, o, i);
      assert WalletOutput(env, txs, o, i) || PaysNew(env, txs, addrs, o, i);
    }
    if IsWalletOutput(env, txs, o) {
      var i: nat :| WalletOutput(env, txs, o, i);
      assert WalletOutput(env', txs, o, i);
    }
    if exists i: nat :: PaysNew(env, txs, addrs, o, i) {
      var i: nat :| PaysNew(env, txs, addrs, o, i);
      assert WalletOutput(env', txs, o, i);
    }
  }

  /** With more addresses the ledger is the same exactly if no output of an accepted transaction is newly paid. */
  lemma MoreAddresses(env: Env, txs: seq<Hash>, addrs: set<Address>)
    requires Listed(env, txs) && env.allAddrs <= addrs
    ensures Listed(WithAddrs(env, addrs), txs)
    ensures Agree(Run(env, txs), Run(WithAddrs(env, addrs), txs)) <==> forall o :: !NewlyPaid(env, txs, addrs, o)
  {
    var env' := WithAddrs(env, addrs);
    FlagsAnyAddrs(env, txs, addrs);
    hide Run, StatusOf, Swept, IsWalletOutput;
    forall o
      ensures o in Run(env', txs).utxos <==> o in Run(env, txs).utxos || NewlyPaid(env, txs, addrs, o)
      ensures !(o in Run(env, txs).utxos && NewlyPaid(env, txs, addrs, o))
    {
      UtxosAre(env, txs, o);
      UtxosAre(env', txs, o);
      WalletOutputAnyAddrs(env, txs, addrs, o);
    }
    if forall o :: !NewlyPaid(env, txs, addrs, o) {
      BalancesAgree(env, txs, env', txs);
    }
  }

  /** The ledger of a list, recorded before addresses were added. */
  lemma FreshWithAddrs(current: State, env: Env, txs: seq<Hash>, addrs: set<Address>)
    requires Listed(env, txs) && current == Run(env, txs) && env.allAddrs <= addrs && InOrder(env.allTx, txs)
    ensures IsFresh(current, WithAddrs(env, addrs), txs) <==> forall o :: !NewlyPaid(env, txs, addrs, o)
  {
    MoreAddresses(env, txs, addrs);
    UtxosDistinct(env, txs);
    hide Run, InOrder;
  }
}
