/** What the wallet watches for: the transactions that can change its unspent outputs touch it. */
module Relevance {
  import opened Transaction
  import opened Freshness
  import opened Ledger
  import opened Lockstep
  import opened TxOrder

  /** Some input spends an unspent output of the ledger. */
  predicate SpendsUtxo(tx: Tx, utxos: seq<Outpoint>) {
    exists i: nat :: i < |tx.inputs| && tx.inputs[i].prev in utxos
  }

  /** Some output pays an address of the wallet. */
  predicate PaysAny(tx: Tx, allAddrs: set<Address>) {
    exists j: nat :: j < |tx.outputs| && tx.outputs[j].address in allAddrs
  }

  /** A transaction that spends a recorded output of the wallet touches it. */
  lemma OwnerTouches(env: Env, txs: seq<Hash>, utxos: seq<Outpoint>, tx: Tx)
    requires Listed(env, txs) && (forall o :: o in utxos ==> IsWalletOutput(env, txs, o)) && SpendsUtxo(tx, utxos)
    ensures Touches(env.allTx, env.allAddrs, tx)
  {
    hide StatusOf;
    var i: nat :| i < |tx.inputs| && tx.inputs[i].prev in utxos;
    var k: nat :| WalletOutput(env, txs, tx.inputs[i].prev, k);
    assert SpendsWallet(env.allTx, env.allAddrs, tx.inputs[i]);
  }

  /** So does one that spends an unspent output of the ledger. */
  lemma SpenderTouches(env: Env, txs: seq<Hash>, tx: Tx)
    requires Listed(env, txs) && SpendsUtxo(tx, Run(env, txs).utxos)
    ensures Touches(env.allTx, env.allAddrs, tx)
  {
    hide Run, IsWalletOutput, SpendsUtxo, Touches;
    forall o | o in Run(env, txs).utxos
      ensures IsWalletOutput(env, txs, o)
    {
      UtxosAre(env, txs, o);
    }
    OwnerTouches(env, txs, Run(env, txs).utxos, tx);
  }

  /** And with a ledger that is nearly fresh, one that spends what it records as unspent. */
  lemma NearlySpenderTouches(current: State, env: Env, txs: seq<Hash>, tx: Tx)
    requires IsNearlyFresh(current, env, txs) && SpendsUtxo(tx, current.utxos)
    ensures Touches(env.allTx, env.allAddrs, tx)
  {
    hide Run, IsWalletOutput, SpendsUtxo, Touches, InOrder, FlagsAgree, SpentByAccepted;
    OwnerTouches(env, txs, current.utxos, tx);
  }

  /** A transaction that does not touch the wallet neither adds an unspent output nor spends one. */
  lemma StrangerChangesNothing(env: Env, txs: seq<Hash>, tx: Tx)
    requires Listed(env, txs) && !Touches(env.allTx, env.allAddrs, tx)
    ensures WalletOutputs(env, tx, |tx.outputs|) == []
    ensures forall o :: o in Run(env, txs).utxos ==> o !in Spends(tx)
  {
    hide Run, Touches;
    assert forall j: nat :: j < |tx.outputs| ==> !PaysWallet(env, tx.outputs[j]) by {
      if j: nat :| j < |tx.outputs| && PaysWallet(env, tx.outputs[j]) {
        PayerTouches(env.allTx, env.allAddrs, tx);
      }
    }
    WalletOutputsMembers(env, tx, |tx.outputs|);
    SameEmptiness(WalletOutputs(env, tx, |tx.outputs|), []);
    if o :| o in Run(env, txs).utxos && o in Spends(tx) {
      assert SpendsUtxo(tx, Run(env, txs).utxos);
      SpenderTouches(env, txs, tx);
    }
  }

  lemma PayerTouches(allTx: TxMap, allAddrs: set<Address>, tx: Tx)
    requires PaysAny(tx, allAddrs)
    ensures Touches(allTx, allAddrs, tx)
  {}
}
