/** What sending does to the balance: from the choice of inputs to the recomputed ledger. */
module Sending {
  import opened CoinSelection
  import opened Ledger
  import opened Transaction
  import opened TxOrder
  import opened Wrappers

  // ---------- The ledger before ----------

  /** If everything is confirmed, nothing is invalid or pending, and all that is spent has been swept. */
  lemma {:induction false} NothingWaits(env: Env, txs: seq<Hash>)
    requires Listed(env, txs) && AllConfirmed(env, txs)
    ensures Run(env, txs).invalid == {} && Run(env, txs).pending == {} && Swept(env, txs) == Run(env, txs).spent
  {
    hide Unspent, WalletOutputs, Sum, UsedAddrs, Spends;
    if txs != [] { NothingWaits(env, txs[..|txs| - 1]); }
  }

  /** More is known than before. */
  predicate Extends(env: Env, env': Env) {
    && env'.allAddrs == env.allAddrs && env'.blockHeight == env.blockHeight && env'.now == env.now
    && forall h :: h in env.allTx ==> h in env'.allTx && env'.allTx[h] == env.allTx[h]
  }

  lemma {:induction false} ExtendedSum(env: Env, env': Env, os: seq<Outpoint>)
    requires Extends(env, env') && forall o :: o in os ==> o.hash in env.allTx
    ensures Sum(env', os) == Sum(env, os)
  {
    if os != [] { ExtendedSum(env, env', os[..|os| - 1]); }
  }

  lemma {:induction false} ExtendedOutputs(env: Env, env': Env, tx: Tx, n: nat)
    requires Extends(env, env') && n <= |tx.outputs|
    ensures WalletOutputs(env', tx, n) == WalletOutputs(env, tx, n)
  {
    if n > 0 { ExtendedOutputs(env, env', tx, n - 1); }
  }

  lemma ExtendedStatus(env: Env, env': Env, s: State, tx: Tx)
    requires Extends(env, env')
    ensures Classify(env', s, tx) == Classify(env, s, tx)
  {
    hide Conflicts, Size;
    assert forall i :: 0 <= i < |tx.inputs| ==> Postponed(env', s, tx, tx.inputs[i]) == Postponed(env, s, tx, tx.inputs[i]);
  }

  /** The ledger of a list does not depend on what else is known. */
  lemma {:induction false} ExtendedRun(env: Env, env': Env, txs: seq<Hash>)
    requires Listed(env, txs) && Extends(env, env')
    ensures Listed(env', txs) && Run(env', txs) == Run(env, txs)
  {
    hide Classify, WalletOutputs, Sum, UsedAddrs, Spends, Unspent;
    if txs != [] {
      var n := |txs| - 1;
      var s, tx := Run(env, txs[..n]), env.allTx[txs[n]];
      ExtendedRun(env, env', txs[..n]);
      ExtendedStatus(env, env', s, tx);
      ExtendedOutputs(env, env', tx, |tx.outputs|);
      UtxosKnown(env, txs);
      ExtendedSum(env, env', Run(env, txs).utxos);
    }
  }

  // ---------- What is taken and what comes back ----------

  function Prevs(inputs: seq<TxInput>): (os: seq<Outpoint>)
    ensures |os| == |inputs| && forall i :: 0 <= i < |os| ==> os[i] == inputs[i].prev
  {
    seq(|inputs|, i requires 0 <= i < |inputs| => inputs[i].prev)
  }

  lemma {:induction false} PrevsSum(env: Env, inputs: seq<TxInput>)
    requires forall i :: 0 <= i < |inputs| ==> inputs[i].amount == Amount(env, inputs[i].prev)
    ensures Sum(env, Prevs(inputs)) == InputAmounts(inputs)
  {
    if inputs != [] {
      PrevsSum(env, inputs[..|inputs| - 1]);
      assert Prevs(inputs)[..|inputs| - 1] == Prevs(inputs[..|inputs| - 1]);
    }
  }

  lemma DistinctConcat(a: seq<Outpoint>, b: seq<Outpoint>)
    requires Distinct(a) && Distinct(b) && forall o :: o in a ==> o !in b
    ensures Distinct(a + b)
  {
    forall i, j | 0 <= i < j < |a + b|
      ensures (a + b)[i] != (a + b)[j]
    {
      if i < |a| <= j { assert a[i] in a; }
    }
  }

  /** Taking distinct outputs out takes their value. */
  lemma TakenOut(env: Env, os: seq<Outpoint>, spent: set<Outpoint>, taken: seq<Outpoint>)
    requires Distinct(os) && Distinct(taken) && forall o :: o in taken <==> o in os && o in spent
    ensures Sum(env, Unspent(os, spent)) + Sum(env, taken) == Sum(env, os)
  {
    UnspentMembers(os, spent);
    UnspentDistinct(os, spent);
    var rest := Unspent(os, spent);
    SumConcat(env, rest, taken);
    hide Sum, Unspent;
    assert forall o :: o in rest + taken <==> o in os;
    DistinctConcat(rest, taken);
    SumOfSame(env, rest + taken, os);
  }

  lemma SameOthers<T>(a: seq<T>, b: seq<T>, x: T)
    requires multiset(a) + multiset{x} == multiset(b) + multiset{x}
    ensures forall y :: y in a ==> y in b
  {
    assert multiset(a) == multiset(a) + multiset{x} - multiset{x} == multiset(b) + multiset{x} - multiset{x} == multiset(b);
    assert forall y :: y in a ==> y in multiset(b);
  }

  /** Only one output pays the wallet: the change. */
  lemma OneChange(env: Env, tx: Tx, requested: seq<TxOutput>, o: TxOutput) returns (k: nat)
    requires multiset(tx.outputs) == multiset(requested) + multiset{o} && PaysWallet(env, o)
    requires forall i :: 0 <= i < |requested| ==> !PaysWallet(env, requested[i])
    ensures k < |tx.outputs| && tx.outputs[k] == o
    ensures WalletOutputs(env, tx, |tx.outputs|) == [Outpoint(tx.hash, k)]
  {
    assert o in multiset(tx.outputs);
    k :| 0 <= k < |tx.outputs| && tx.outputs[k] == o;
    var rest := tx.outputs[..k] + tx.outputs[k + 1..];
    assert tx.outputs == tx.outputs[..k] + [o] + tx.outputs[k + 1..];
    assert multiset(tx.outputs) == multiset(rest) + multiset{o};
    SameOthers(rest, requested, o);
    forall i | 0 <= i < |tx.outputs| && i != k
      ensures !PaysWallet(env, tx.outputs[i])
    {
      assert tx.outputs[i] == rest[if i < k then i else i - 1];
      assert tx.outputs[i] in rest;
    }
    OnlyOutput(env, tx, k, |tx.outputs|);
  }

  lemma {:induction false} OnlyOutput(env: Env, tx: Tx, k: nat, n: nat)
    requires n <= |tx.outputs|
    requires forall i :: 0 <= i < n ==> (PaysWallet(env, tx.outputs[i]) <==> i == k)
    ensures WalletOutputs(env, tx, n) == if k < n then [Outpoint(tx.hash, k)] else []
  {
    if n > 0 { OnlyOutput(env, tx, k, n - 1); }
  }

  // ---------- Sending ----------

  /** `tx` is what signing and sending makes of `made`. */
  predicate IsSent(made: Tx, tx: Tx) {
    && |tx.inputs| == |made.inputs| && tx.outputs == made.outputs && tx.lockTime == made.lockTime
    && tx.blockHeight == made.blockHeight
    && forall i :: 0 <= i < |tx.inputs| ==> tx.inputs[i] == made.inputs[i].(signature := tx.inputs[i].signature)
  }

  /** The transaction is not too large once it is signed, pays no dust, and pays the wallet nothing but the change. */
  predicate PaysStrangers(env: Env, requested: seq<TxOutput>, tx: Tx, change: Option<TxOutput>) {
    && Size(tx.inputs, tx.outputs) <= TX_MAX_SIZE
    && (forall i :: 0 <= i < |requested| ==>
         requested[i].amount >= TX_MIN_OUTPUT_AMOUNT && !PaysWallet(env, requested[i]))
    && (change.Some? ==> PaysWallet(env, change.value))
  }

  lemma NoDust(env: Env, utxos: seq<Outpoint>, feePerKb: nat, requested: seq<TxOutput>, made: Tx,
               change: Option<TxOutput>, fee: nat)
    requires Sound(env, utxos, feePerKb, requested, made, change, fee)
    requires forall i :: 0 <= i < |requested| ==> requested[i].amount >= TX_MIN_OUTPUT_AMOUNT
    ensures forall i :: 0 <= i < |made.outputs| ==> made.outputs[i].amount >= TX_MIN_OUTPUT_AMOUNT
  {
    hide InputAmounts, OutputAmounts, SpendsUtxos, Unsigned;
    if change.Some? {
      forall i | 0 <= i < |made.outputs|
        ensures made.outputs[i].amount >= TX_MIN_OUTPUT_AMOUNT
      {
        assert made.outputs[i] in multiset(made.outputs);
        assert made.outputs[i] in requested || made.outputs[i] == change.value;
      }
    }
  }

  /** A wallet whose transactions are all confirmed accepts what it made from its unspent outputs. */
  lemma SentIsAccepted(env: Env, txs: seq<Hash>, feePerKb: nat, requested: seq<TxOutput>, made: Tx,
                       change: Option<TxOutput>, fee: nat, tx: Tx)
    requires Listed(env, txs) && AllConfirmed(env, txs)
    requires Sound(env, Run(env, txs).utxos, feePerKb, requested, made, change, fee)
    requires IsSent(made, tx) && PaysStrangers(env, requested, tx, change)
    ensures Classify(env, Run(env, txs), tx) == Accepted
    ensures Spends(tx) !! Run(env, txs).spent
  {
    hide Run, InputAmounts, OutputAmounts, Size, Swept, IsWalletOutput;
    NothingWaits(env, txs);
    NoDust(env, Run(env, txs).utxos, feePerKb, requested, made, change, fee);
    forall i | 0 <= i < |tx.inputs|
      ensures tx.inputs[i].prev !in Run(env, txs).spent && tx.inputs[i].sequence == UINT32_MAX
    {
      UtxosAre(env, txs, tx.inputs[i].prev);
    }
  }

  /** Nobody listed spends an output of `h`. */
  predicate Childless(env: Env, txs: seq<Hash>, h: Hash)
    requires Listed(env, txs)
  {
    forall i :: 0 <= i < |txs| ==> !DependsOn(env.allTx[txs[i]], h)
  }

  lemma ChildlessUnspent(env: Env, txs: seq<Hash>, h: Hash)
    requires Listed(env, txs) && Childless(env, txs, h)
    ensures forall o :: o in Run(env, txs).spent ==> o.hash != h
  {
    hide Run, StatusOf;
    forall o | o in Run(env, txs).spent
      ensures o.hash != h
    {
      var i := SpentOrigin(env, txs, o);
      var k: nat :| k < |env.allTx[txs[i]].inputs| && env.allTx[txs[i]].inputs[k].prev == o;
    }
  }

  /** The wallet with the sent transaction at the end of its list. */
  function After(env: Env, tx: Tx): Env {
    env.(allTx := env.allTx[tx.hash := tx])
  }

  lemma ListedAfter(env: Env, txs: seq<Hash>, tx: Tx)
    requires Listed(env, txs) && tx.hash !in env.allTx
    ensures Listed(After(env, tx), txs) && Listed(After(env, tx), txs + [tx.hash])
    ensures Run(After(env, tx), txs) == Run(env, txs)
    ensures Run(After(env, tx), txs + [tx.hash]) == Step(After(env, tx), Run(env, txs), tx)
    ensures StatusOf(After(env, tx), txs + [tx.hash], |txs|) == Classify(env, Run(env, txs), tx)
  {
    hide Step, Classify;
    var env' := After(env, tx);
    ExtendedRun(env, env', txs);
    ExtendedStatus(env, env', Run(env, txs), tx);
    assert (txs + [tx.hash])[..|txs|] == txs;
  }

  /** What the sent transaction pays back to the wallet. */
  lemma BroughtBack(env: Env, utxos: seq<Outpoint>, feePerKb: nat, requested: seq<TxOutput>, made: Tx,
                    change: Option<TxOutput>, fee: nat, tx: Tx)
    requires Sound(env, utxos, feePerKb, requested, made, change, fee)
    requires IsSent(made, tx) && PaysStrangers(env, requested, tx, change)
    ensures var env' := After(env, tx);
      var added := WalletOutputs(env', tx, |tx.outputs|);
      && Sum(env', added) + OutputAmounts(requested) == OutputAmounts(made.outputs)
      && Distinct(added) && forall o :: o in added ==> o.hash == tx.hash
  {
    hide InputAmounts, OutputAmounts, SpendsUtxos, Unsigned, Size, PaysWallet;
    var env' := After(env, tx);
    SamePayments(env, env');
    if change.Some? {
      var k := OneChange(env', tx, requested, change.value);
      SumAppend(env', [], Outpoint(tx.hash, k));
    } else {
      OnlyOutput(env', tx, |tx.outputs|, |tx.outputs|);
    }
  }

  lemma SamePayments(env: Env, env': Env)
    requires env'.allAddrs == env.allAddrs
    ensures forall o :: PaysWallet(env', o) <==> PaysWallet(env, o)
  {}

  /** What of the unspent outputs and the change is spent is what the transaction spends. */
  lemma TakenAre(env: Env, txs: seq<Hash>, made: Tx, tx: Tx, added: seq<Outpoint>)
    requires Listed(env, txs) && AllConfirmed(env, txs) && tx.hash !in env.allTx && Childless(env, txs, tx.hash)
    requires SpendsUtxos(env, Run(env, txs).utxos, made.inputs) && IsSent(made, tx)
    requires Distinct(added) && forall o :: o in added ==> o.hash == tx.hash
    ensures var s, taken := Run(env, txs), Prevs(made.inputs);
      && Distinct(s.utxos + added) && Distinct(taken)
      && forall o :: o in taken <==> o in s.utxos + added && o in s.spent + Spends(tx)
  {
    hide Run, Swept, IsWalletOutput;
    var s := Run(env, txs);
    UtxosDistinct(env, txs);
    UtxosKnown(env, txs);
    ChildlessUnspent(env, txs, tx.hash);
    NothingWaits(env, txs);
    forall o | o in s.utxos
      ensures o !in s.spent
    {
      UtxosAre(env, txs, o);
    }
    PrevsAre(made, tx);
  }

  lemma PrevsAre(made: Tx, tx: Tx)
    requires IsSent(made, tx)
    ensures forall o :: o in Prevs(made.inputs) <==> o in Spends(tx)
  {
    forall o | o in Spends(tx)
      ensures o in Prevs(made.inputs)
    {
      var i: nat :| i < |tx.inputs| && tx.inputs[i].prev == o;
      assert Prevs(made.inputs)[i] == o;
    }
  }

  /**
   Once it is sent, the balance of a wallet whose transactions are all confirmed has fallen by the requested amounts and
   what the transaction leaves for the miner.
  */
  lemma BalanceAfterSending(env: Env, txs: seq<Hash>, feePerKb: nat, requested: seq<TxOutput>, made: Tx,
                            change: Option<TxOutput>, fee: nat, tx: Tx)
    requires Listed(env, txs) && AllConfirmed(env, txs) && tx.hash !in env.allTx && Childless(env, txs, tx.hash)
    requires Sound(env, Run(env, txs).utxos, feePerKb, requested, made, change, fee)
    requires IsSent(made, tx) && PaysStrangers(env, requested, tx, change)
    ensures Listed(After(env, tx), txs + [tx.hash])
    ensures StatusOf(After(env, tx), txs + [tx.hash], |txs|) == Accepted
    ensures Run(After(env, tx), txs + [tx.hash]).balance + OutputAmounts(requested) +
              (InputAmounts(made.inputs) - OutputAmounts(made.outputs)) == Run(env, txs).balance
  {
    hide Run, StatusOf, Sum, WalletOutputs, Unspent, Classify, InputAmounts, OutputAmounts, Unsigned, Size;
    var s, env' := Run(env, txs), After(env, tx);
    ListedAfter(env, txs, tx);
    SentIsAccepted(env, txs, feePerKb, requested, made, change, fee, tx);
    ExtendedStatus(env, env', s, tx);
    BroughtBack(env, s.utxos, feePerKb, requested, made, change, fee, tx);
    var added := WalletOutputs(env', tx, |tx.outputs|);
    TakenAre(env, txs, made, tx, added);
    TakenOut(env', s.utxos + added, s.spent + Spends(tx), Prevs(made.inputs));
    SumConcat(env', s.utxos, added);
    Conservation(env, txs);
    UtxosKnown(env, txs);
    ExtendedSum(env, env', s.utxos);
    PrevsSum(env', made.inputs);
  }

  /** And it is sent to the end of the list. */
  lemma SentToTheEnd(allTx: TxMap, rank: Hash -> nat, txs: seq<Hash>, h: Hash, at: nat, internalChain: seq<Address>,
                     externalChain: seq<Address>)
    requires Acyclic(allTx, rank) && Known(allTx, txs) && h in allTx && allTx[h].blockHeight == TX_UNCONFIRMED
    requires forall i :: 0 <= i < |txs| ==> allTx[txs[i]].blockHeight < TX_UNCONFIRMED
    requires InsertionPoint(allTx, rank, txs, h, at, internalChain, externalChain)
    ensures Inserted(txs, h, at) == txs + [h]
  {
    if at < |txs| {
      CompareHeights(allTx, rank, allTx[txs[at]], allTx[h], internalChain, externalChain);
      assert false;
    }
  }
}
