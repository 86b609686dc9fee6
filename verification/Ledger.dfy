/**
 The wallet's ledger as a function of its list of transactions: which are invalid or pending, which outputs are
 unspent, and the balance. One `Step` is one round of the loop of `_BRWalletUpdateBalance`, stated without loops.
*/
module Ledger {
  import opened Transaction

  /** What the recomputation reads: known transactions, the wallet's addresses, the chain height and the clock. */
  datatype Env = Env(allTx: map<Hash, Tx>, allAddrs: set<Address>, blockHeight: nat, now: nat)

  datatype State = State(
    utxos: seq<Outpoint>, balance: nat, totalSent: nat, totalReceived: nat, balanceHist: seq<nat>,
    spent: set<Outpoint>, invalid: set<Hash>, pending: set<Hash>, used: set<Address>)

  datatype Status = Invalid | Pending | Accepted

  const EMPTY := State([], 0, 0, 0, [], {}, {}, {}, {})

  /** The listed transactions are distinct and known under their own hashes. */
  predicate Listed(env: Env, txs: seq<Hash>) {
    && (forall i :: 0 <= i < |txs| ==> txs[i] in env.allTx && env.allTx[txs[i]].hash == txs[i])
    && (forall i, j :: 0 <= i < j < |txs| ==> txs[i] != txs[j])
  }

  function Spends(tx: Tx): (s: set<Outpoint>)
    ensures forall i :: 0 <= i < |tx.inputs| ==> tx.inputs[i].prev in s
  {
    set i: nat | i < |tx.inputs| :: tx.inputs[i].prev
  }

  predicate Conflicts(s: State, tx: Tx) {
    exists i: nat :: i < |tx.inputs| && (tx.inputs[i].prev in s.spent || tx.inputs[i].prev.hash in s.invalid)
  }

  predicate Postponed(env: Env, s: State, tx: Tx, input: TxInput) {
    || input.sequence < UINT32_MAX - 1
    || (input.sequence < UINT32_MAX && tx.lockTime < TX_MAX_LOCK_HEIGHT && tx.lockTime > env.blockHeight + 1)
    || (input.sequence < UINT32_MAX && tx.lockTime > env.now)
    || input.prev.hash in s.pending
  }

  predicate IsPending(env: Env, s: State, tx: Tx) {
    || Size(tx.inputs, tx.outputs) > TX_MAX_SIZE
    || (exists j: nat :: j < |tx.outputs| && tx.outputs[j].amount < TX_MIN_OUTPUT_AMOUNT)
    || (exists j: nat :: j < |tx.inputs| && Postponed(env, s, tx, tx.inputs[j]))
  }

  function Classify(env: Env, s: State, tx: Tx): Status {
    if tx.blockHeight != TX_UNCONFIRMED then Accepted
    else if Conflicts(s, tx) then Invalid
    else if IsPending(env, s, tx) then Pending
    else Accepted
  }

  predicate PaysWallet(env: Env, output: TxOutput) {
    output.address != "" && output.address in env.allAddrs
  }

  /** The first `n` outputs of `tx` that pay to the wallet. */
  function WalletOutputs(env: Env, tx: Tx, n: nat): seq<Outpoint>
    requires n <= |tx.outputs|
  {
    if n == 0 then []
    else WalletOutputs(env, tx, n - 1) + if PaysWallet(env, tx.outputs[n - 1]) then [Outpoint(tx.hash, n - 1)] else []
  }

  function UsedAddrs(tx: Tx, n: nat): set<Address>
    requires n <= |tx.outputs|
  {
    set j: nat | j < n && tx.outputs[j].address != "" :: tx.outputs[j].address
  }

  function Amount(env: Env, o: Outpoint): nat {
    if o.hash in env.allTx && o.n < |env.allTx[o.hash].outputs| then env.allTx[o.hash].outputs[o.n].amount else 0
  }

  function Sum(env: Env, os: seq<Outpoint>): nat {
    if os == [] then 0 else Sum(env, os[..|os| - 1]) + Amount(env, os[|os| - 1])
  }

  function Unspent(os: seq<Outpoint>, spent: set<Outpoint>): seq<Outpoint> {
    if os == [] then []
    else Unspent(os[..|os| - 1], spent) + if os[|os| - 1] in spent then [] else [os[|os| - 1]]
  }

  function Step(env: Env, s: State, tx: Tx): State {
    match Classify(env, s, tx)
    case Invalid => s.(invalid := s.invalid + {tx.hash}, balanceHist := s.balanceHist + [s.balance])
    case Pending => s.(spent := s.spent + Spends(tx), pending := s.pending + {tx.hash},
                       balanceHist := s.balanceHist + [s.balance])
    case Accepted =>
      var spent := s.spent + Spends(tx);
      var utxos := Unspent(s.utxos + WalletOutputs(env, tx, |tx.outputs|), spent);
      var balance := Sum(env, utxos);
      State(utxos, balance,
            s.totalSent + if balance < s.balance then s.balance - balance else 0,
            s.totalReceived + if s.balance < balance then balance - s.balance else 0,
            s.balanceHist + [balance], spent, s.invalid, s.pending, s.used + UsedAddrs(tx, |tx.outputs|))
  }

  function Run(env: Env, txs: seq<Hash>): State
    requires Listed(env, txs)
  {
    if txs == [] then EMPTY else Step(env, Run(env, txs[..|txs| - 1]), env.allTx[txs[|txs| - 1]])
  }

  function StatusOf(env: Env, txs: seq<Hash>, i: nat): Status
    requires Listed(env, txs) && i < |txs|
  {
    Classify(env, Run(env, txs[..i]), env.allTx[txs[i]])
  }

  // ---------- Sums and selections ----------

  lemma {:induction false} SumConcat(env: Env, a: seq<Outpoint>, b: seq<Outpoint>)
    ensures Sum(env, a + b) == Sum(env, a) + Sum(env, b)
  {
    if b == [] {
      assert a + b == a;
    } else {
      SumConcat(env, a, b[..|b| - 1]);
      assert (a + b)[..|a + b| - 1] == a + b[..|b| - 1];
    }
  }

  lemma SumAppend(env: Env, os: seq<Outpoint>, o: Outpoint)
    ensures Sum(env, os + [o]) == Sum(env, os) + Amount(env, o)
  {
    assert (os + [o])[..|os|] == os;
  }

  lemma SumRemove(env: Env, os: seq<Outpoint>, k: nat)
    requires k < |os|
    ensures Sum(env, os[..k] + os[k + 1..]) + Amount(env, os[k]) == Sum(env, os)
  {
    assert os == os[..k] + [os[k]] + os[k + 1..];
    SumConcat(env, os[..k], os[k + 1..]);
    SumConcat(env, os[..k] + [os[k]], os[k + 1..]);
    SumConcat(env, os[..k], [os[k]]);
    assert [os[k]][..0] == [];
  }

  lemma {:induction false} UnspentMembers(os: seq<Outpoint>, spent: set<Outpoint>)
    ensures forall o :: o in Unspent(os, spent) <==> o in os && o !in spent
  {
    if os != [] {
      UnspentMembers(os[..|os| - 1], spent);
      assert os == os[..|os| - 1] + [os[|os| - 1]];
    }
  }

  predicate Distinct(os: seq<Outpoint>) {
    forall i, j :: 0 <= i < j < |os| ==> os[i] != os[j]
  }

  lemma {:induction false} UnspentDistinct(os: seq<Outpoint>, spent: set<Outpoint>)
    requires Distinct(os)
    ensures Distinct(Unspent(os, spent))
  {
    if os != [] {
      var init := os[..|os| - 1];
      UnspentDistinct(init, spent);
      UnspentMembers(init, spent);
      assert os[|os| - 1] !in init;
    }
  }

  lemma {:induction false} WalletOutputsMembers(env: Env, tx: Tx, n: nat)
    requires n <= |tx.outputs|
    ensures forall o :: o in WalletOutputs(env, tx, n) <==>
                        o.hash == tx.hash && o.n < n && PaysWallet(env, tx.outputs[o.n])
    ensures Distinct(WalletOutputs(env, tx, n))
  {
    if n > 0 {
      WalletOutputsMembers(env, tx, n - 1);
    }
  }

  // ---------- Conservation ----------

  /** The balance is the value of the unspent outputs, and what was received less what was sent. */
  lemma {:induction false} Conservation(env: Env, txs: seq<Hash>)
    requires Listed(env, txs)
    ensures var s := Run(env, txs);
      && s.balance == Sum(env, s.utxos)
      && s.balance + s.totalSent == s.totalReceived
      && |s.balanceHist| == |txs|
  {
    if txs != [] {
      Conservation(env, txs[..|txs| - 1]);
    }
  }

  function OutputTotal(outputs: seq<TxOutput>, n: nat): nat
    requires n <= |outputs|
  {
    if n == 0 then 0 else OutputTotal(outputs, n - 1) + outputs[n - 1].amount
  }

  /** The value of all outputs of the listed transactions. */
  function ListTotal(env: Env, txs: seq<Hash>): nat
    requires Listed(env, txs)
  {
    if txs == [] then 0
    else
      var tx := env.allTx[txs[|txs| - 1]];
      ListTotal(env, txs[..|txs| - 1]) + OutputTotal(tx.outputs, |tx.outputs|)
  }

  lemma {:induction false} WalletOutputsTotal(env: Env, tx: Tx, n: nat)
    requires n <= |tx.outputs| && tx.hash in env.allTx && env.allTx[tx.hash] == tx
    ensures Sum(env, WalletOutputs(env, tx, n)) <= OutputTotal(tx.outputs, n)
  {
    if n > 0 {
      WalletOutputsTotal(env, tx, n - 1);
      var before, o := WalletOutputs(env, tx, n - 1), Outpoint(tx.hash, n - 1);
      if PaysWallet(env, tx.outputs[n - 1]) {
        SumAppend(env, before, o);
      } else {
        assert WalletOutputs(env, tx, n) == before;
      }
    }
  }

  lemma {:induction false} UnspentTotal(env: Env, os: seq<Outpoint>, spent: set<Outpoint>)
    ensures Sum(env, Unspent(os, spent)) <= Sum(env, os)
  {
    if os != [] {
      var init, last := os[..|os| - 1], os[|os| - 1];
      UnspentTotal(env, init, spent);
      if last in spent {
        assert Unspent(os, spent) == Unspent(init, spent);
      } else {
        SumAppend(env, Unspent(init, spent), last);
      }
    }
  }

  /** No total exceeds the value of all outputs, so none wraps around while that value fits in 64 bits. */
  lemma {:induction false} TotalsBounded(env: Env, txs: seq<Hash>)
    requires Listed(env, txs)
    ensures var s, total := Run(env, txs), ListTotal(env, txs);
      s.balance <= s.totalReceived <= total && s.totalSent <= total
  {
    Conservation(env, txs);
    if txs != [] {
      var n := |txs| - 1;
      var tx, s := env.allTx[txs[n]], Run(env, txs[..n]);
      TotalsBounded(env, txs[..n]);
      Conservation(env, txs[..n]);
      var added := WalletOutputs(env, tx, |tx.outputs|);
      WalletOutputsTotal(env, tx, |tx.outputs|);
      SumConcat(env, s.utxos, added);
      UnspentTotal(env, s.utxos + added, s.spent + Spends(tx));
    }
  }

  lemma StatusInPrefix(env: Env, txs: seq<Hash>, n: nat, i: nat)
    requires Listed(env, txs) && i < n <= |txs|
    ensures StatusOf(env, txs[..n], i) == StatusOf(env, txs, i)
  {
    assert txs[..n][..i] == txs[..i];
  }

  /** The inputs of every transaction that is not invalid are in the spent set. */
  lemma {:induction false} SpentContains(env: Env, txs: seq<Hash>, i: nat)
    requires Listed(env, txs) && i < |txs| && StatusOf(env, txs, i) != Invalid
    ensures Spends(env.allTx[txs[i]]) <= Run(env, txs).spent
  {
    var n := |txs| - 1;
    if i < n {
      StatusInPrefix(env, txs, n, i);
      SpentContains(env, txs[..n], i);
    }
  }

  /** Nothing else is in the spent set. */
  lemma {:induction false} SpentOrigin(env: Env, txs: seq<Hash>, o: Outpoint) returns (i: nat)
    requires Listed(env, txs) && o in Run(env, txs).spent
    ensures i < |txs| && StatusOf(env, txs, i) != Invalid && o in Spends(env.allTx[txs[i]])
  {
    var n := |txs| - 1;
    if o in Run(env, txs[..n]).spent {
      i := SpentOrigin(env, txs[..n], o);
      StatusInPrefix(env, txs, n, i);
    } else {
      i := n;
    }
  }

  /** Two transactions that are not invalid share no input if the later one is unconfirmed. */
  lemma NoDoubleSpend(env: Env, txs: seq<Hash>, i: nat, j: nat)
    requires Listed(env, txs) && i < j < |txs|
    requires StatusOf(env, txs, i) != Invalid && StatusOf(env, txs, j) != Invalid
    requires env.allTx[txs[j]].blockHeight == TX_UNCONFIRMED
    ensures Spends(env.allTx[txs[i]]) !! Spends(env.allTx[txs[j]])
  {
    StatusInPrefix(env, txs, j, i);
    SpentContains(env, txs[..j], i);
  }

  // ---------- Status ----------

  /** The sets of the ledger tell the status of every listed transaction. */
  lemma {:induction false} FlagsAre(env: Env, txs: seq<Hash>, i: nat)
    requires Listed(env, txs) && i < |txs|
    ensures txs[i] in Run(env, txs).invalid <==> StatusOf(env, txs, i) == Invalid
    ensures txs[i] in Run(env, txs).pending <==> StatusOf(env, txs, i) == Pending
  {
    hide Conflicts, IsPending, Unspent, Sum, WalletOutputs, UsedAddrs, Spends;
    var n := |txs| - 1;
    if i < n {
      StatusInPrefix(env, txs, n, i);
      FlagsAre(env, txs[..n], i);
    } else {
      FlagsListed(env, txs[..n]);
      assert txs[n] !in txs[..n];
    }
  }

  lemma {:induction false} FlagsListed(env: Env, txs: seq<Hash>)
    requires Listed(env, txs)
    ensures forall h :: h in Run(env, txs).invalid + Run(env, txs).pending ==> h in txs
  {
    if txs != [] {
      FlagsListed(env, txs[..|txs| - 1]);
      assert txs == txs[..|txs| - 1] + [txs[|txs| - 1]];
    }
  }

  /** The transactions at two positions have an input in common. */
  predicate ShareInput(env: Env, txs: seq<Hash>, i: nat, j: nat)
    requires Listed(env, txs) && i < |txs| && j < |txs|
  {
    Spends(env.allTx[txs[i]]) * Spends(env.allTx[txs[j]]) != {}
  }

  /** An earlier transaction, not invalid, has an input in common, or an invalid one is spent. */
  ghost predicate HasConflict(env: Env, txs: seq<Hash>, j: nat)
    requires Listed(env, txs) && j < |txs|
  {
    exists i: nat :: i < j && ConflictsWith(env, txs, i, j)
  }

  predicate ConflictsWith(env: Env, txs: seq<Hash>, i: nat, j: nat)
    requires Listed(env, txs) && i < |txs| && j < |txs|
  {
    if StatusOf(env, txs, i) == Invalid then DependsOn(env.allTx[txs[j]], txs[i]) else ShareInput(env, txs, i, j)
  }

  lemma ConflictFound(env: Env, txs: seq<Hash>, i: nat, j: nat)
    requires Listed(env, txs) && i < j < |txs| && ConflictsWith(env, txs, i, j)
    ensures Conflicts(Run(env, txs[..j]), env.allTx[txs[j]])
  {
    StatusInPrefix(env, txs, j, i);
    var tx := env.allTx[txs[j]];
    if StatusOf(env, txs, i) == Invalid {
      FlagsAre(env, txs[..j], i);
      var k: nat :| k < |tx.inputs| && tx.inputs[k].prev.hash == txs[i];
    } else {
      SpentContains(env, txs[..j], i);
      var o :| o in Spends(env.allTx[txs[i]]) * Spends(tx);
      var k: nat :| k < |tx.inputs| && tx.inputs[k].prev == o;
    }
  }

  /** A transaction is invalid exactly if it is unconfirmed and such a conflict exists. */
  lemma InvalidExactly(env: Env, txs: seq<Hash>, j: nat)
    requires Listed(env, txs) && j < |txs|
    ensures StatusOf(env, txs, j) == Invalid <==>
            env.allTx[txs[j]].blockHeight == TX_UNCONFIRMED && HasConflict(env, txs, j)
  {
    var tx, s := env.allTx[txs[j]], Run(env, txs[..j]);
    if HasConflict(env, txs, j) {
      var i: nat :| i < j && ConflictsWith(env, txs, i, j);
      ConflictFound(env, txs, i, j);
    }
    if Conflicts(s, tx) {
      var k: nat :| k < |tx.inputs| && (tx.inputs[k].prev in s.spent || tx.inputs[k].prev.hash in s.invalid);
      var i := ConflictOrigin(env, txs, j, k);
    }
  }

  lemma ConflictOrigin(env: Env, txs: seq<Hash>, j: nat, k: nat) returns (i: nat)
    requires Listed(env, txs) && j < |txs| && k < |env.allTx[txs[j]].inputs|
    requires var s, prev := Run(env, txs[..j]), env.allTx[txs[j]].inputs[k].prev;
      prev in s.spent || prev.hash in s.invalid
    ensures i < j && ConflictsWith(env, txs, i, j)
  {
    hide Run, StatusOf;
    var init, tx := txs[..j], env.allTx[txs[j]];
    var prev := tx.inputs[k].prev;
    if prev in Run(env, init).spent {
      i := SpentOrigin(env, init, prev);
      assert prev in Spends(env.allTx[txs[i]]) * Spends(tx);
    } else {
      FlagsListed(env, init);
      assert prev.hash in init;
      i :| 0 <= i < j && init[i] == prev.hash;
      FlagsAre(env, init, i);
    }
    StatusInPrefix(env, txs, j, i);
  }

  /** What spends an invalid transaction listed before is invalid, if it is unconfirmed. */
  lemma ChildOfInvalid(env: Env, txs: seq<Hash>, i: nat, j: nat)
    requires Listed(env, txs) && i < j < |txs| && StatusOf(env, txs, i) == Invalid
    requires env.allTx[txs[j]].blockHeight == TX_UNCONFIRMED && DependsOn(env.allTx[txs[j]], txs[i])
    ensures StatusOf(env, txs, j) == Invalid
  {
    hide StatusOf;
    assert ConflictsWith(env, txs, i, j);
    InvalidExactly(env, txs, j);
  }

  /** Some input signals that the transaction may be replaced (BIP 125). */
  predicate Replaceable(tx: Tx) {
    exists k: nat :: k < |tx.inputs| && tx.inputs[k].sequence < 0xffff_fffe
  }

  /** A block at this height and time may include the transaction: the rule for lock times. */
  predicate IsFinal(tx: Tx, height: nat, time: nat) {
    || tx.lockTime < (if tx.lockTime < 500000000 then height else time)
    || forall k: nat :: k < |tx.inputs| ==> tx.inputs[k].sequence >= 0xffff_ffff
  }

  /** An earlier transaction that is pending is spent. */
  ghost predicate SpendsPending(env: Env, txs: seq<Hash>, j: nat)
    requires Listed(env, txs) && j < |txs|
  {
    exists i: nat :: i < j && StatusOf(env, txs, i) == Pending && DependsOn(env.allTx[txs[j]], txs[i])
  }

  lemma PendingOrigin(env: Env, txs: seq<Hash>, j: nat)
    requires Listed(env, txs) && j < |txs|
    ensures SpendsPending(env, txs, j) <==>
            exists k: nat :: k < |env.allTx[txs[j]].inputs|
                             && env.allTx[txs[j]].inputs[k].prev.hash in Run(env, txs[..j]).pending
  {
    hide Run, StatusOf;
    var init, tx := txs[..j], env.allTx[txs[j]];
    forall i: nat | i < j
      ensures StatusOf(env, txs, i) == StatusOf(env, init, i)
      ensures txs[i] in Run(env, init).pending <==> StatusOf(env, txs, i) == Pending
    {
      StatusInPrefix(env, txs, j, i);
      FlagsAre(env, init, i);
    }
    if SpendsPending(env, txs, j) {
      var i: nat :| i < j && StatusOf(env, txs, i) == Pending && DependsOn(tx, txs[i]);
      var k: nat :| k < |tx.inputs| && tx.inputs[k].prev.hash == txs[i];
    }
    if k: nat :| k < |tx.inputs| && tx.inputs[k].prev.hash in Run(env, init).pending {
      FlagsListed(env, init);
      assert tx.inputs[k].prev.hash in init;
      var i: nat :| i < j && init[i] == tx.inputs[k].prev.hash;
      assert DependsOn(tx, txs[i]);
    }
  }

  /**
   Not final for the block after the next one. A lock time is held against the clock even if it is a height, which
   matters only to a clock before 1985.
  */
  predicate IsLocked(env: Env, tx: Tx) {
    || !IsFinal(tx, env.blockHeight + 2, env.now + 1)
    || (env.now < 500000000 && !IsFinal(tx, env.now + 1, env.now + 1))
  }

  lemma PostponedExactly(env: Env, s: State, tx: Tx)
    ensures (exists k: nat :: k < |tx.inputs| && Postponed(env, s, tx, tx.inputs[k])) <==>
            (|| Replaceable(tx) || IsLocked(env, tx)
             || exists k: nat :: k < |tx.inputs| && tx.inputs[k].prev.hash in s.pending)
  {
    if IsLocked(env, tx) {
      var k: nat :| k < |tx.inputs| && tx.inputs[k].sequence < 0xffff_ffff;
      assert Postponed(env, s, tx, tx.inputs[k]);
    }
    if Replaceable(tx) {
      var k: nat :| k < |tx.inputs| && tx.inputs[k].sequence < 0xffff_fffe;
      assert Postponed(env, s, tx, tx.inputs[k]);
    }
    if k: nat :| k < |tx.inputs| && tx.inputs[k].prev.hash in s.pending {
      assert Postponed(env, s, tx, tx.inputs[k]);
    }
  }

  /**
   An unconfirmed transaction that is not invalid is pending exactly if it is too large, pays dust, may be replaced, is
   not final for the block after the next one, or spends a pending transaction listed before.
  */
  lemma PendingExactly(env: Env, txs: seq<Hash>, j: nat)
    requires Listed(env, txs) && j < |txs|
    ensures var tx := env.allTx[txs[j]];
      StatusOf(env, txs, j) == Pending <==>
      && tx.blockHeight == TX_UNCONFIRMED && StatusOf(env, txs, j) != Invalid
      && (|| Size(tx.inputs, tx.outputs) > 100000 || (exists k: nat :: k < |tx.outputs| && tx.outputs[k].amount < 546)
          || Replaceable(tx) || IsLocked(env, tx) || SpendsPending(env, txs, j))
  {
    hide Postponed, Run, Conflicts, Replaceable, IsLocked, Size, SpendsPending;
    PostponedExactly(env, Run(env, txs[..j]), env.allTx[txs[j]]);
    PendingOrigin(env, txs, j);
    StatusIs(env, Run(env, txs[..j]), env.allTx[txs[j]]);
    hide Classify, IsPending;
  }

  lemma StatusIs(env: Env, s: State, tx: Tx)
    ensures Classify(env, s, tx) == Pending <==>
            tx.blockHeight == TX_UNCONFIRMED && Classify(env, s, tx) != Invalid && IsPending(env, s, tx)
    ensures IsPending(env, s, tx) <==>
            (|| Size(tx.inputs, tx.outputs) > 100000 || (exists k: nat :: k < |tx.outputs| && tx.outputs[k].amount < 546)
             || exists k: nat :: k < |tx.inputs| && Postponed(env, s, tx, tx.inputs[k]))
  {
    hide Postponed, Conflicts, Size;
  }

  lemma {:induction false} UsedContains(env: Env, txs: seq<Hash>, i: nat)
    requires Listed(env, txs) && i < |txs| && StatusOf(env, txs, i) == Accepted
    ensures var tx := env.allTx[txs[i]]; UsedAddrs(tx, |tx.outputs|) <= Run(env, txs).used
  {
    hide UsedAddrs;
    var n := |txs| - 1;
    if i < n {
      StatusInPrefix(env, txs, n, i);
      UsedContains(env, txs[..n], i);
    }
  }

  lemma {:induction false} UsedOrigin(env: Env, txs: seq<Hash>, a: Address) returns (i: nat)
    requires Listed(env, txs) && a in Run(env, txs).used
    ensures i < |txs| && StatusOf(env, txs, i) == Accepted
    ensures var tx := env.allTx[txs[i]]; a in UsedAddrs(tx, |tx.outputs|)
  {
    hide UsedAddrs;
    var n := |txs| - 1;
    if a in Run(env, txs[..n]).used {
      i := UsedOrigin(env, txs[..n], a);
      StatusInPrefix(env, txs, n, i);
    } else {
      i := n;
    }
  }

  /** The addresses in use are those that outputs of accepted transactions pay. */
  lemma UsedAre(env: Env, txs: seq<Hash>, a: Address)
    requires Listed(env, txs)
    ensures a in Run(env, txs).used <==>
            a != "" && exists i: nat, j: nat :: PaidAt(env, txs, a, i, j)
  {
    hide Run, StatusOf;
    if a in Run(env, txs).used {
      var i := UsedOrigin(env, txs, a);
      var j: nat :| j < |env.allTx[txs[i]].outputs| && env.allTx[txs[i]].outputs[j].address == a;
      assert PaidAt(env, txs, a, i, j);
    }
    if a != "" && exists i: nat, j: nat :: PaidAt(env, txs, a, i, j) {
      var i: nat, j: nat :| PaidAt(env, txs, a, i, j);
      UsedContains(env, txs, i);
    }
  }

  /** Output `j` of the accepted transaction at position `i` pays `a`. */
  predicate PaidAt(env: Env, txs: seq<Hash>, a: Address, i: nat, j: nat)
    requires Listed(env, txs)
  {
    && i < |txs| && StatusOf(env, txs, i) == Accepted
    && j < |env.allTx[txs[i]].outputs| && env.allTx[txs[i]].outputs[j].address == a
  }

  /** What the balances rise by in all, and what they fall by. */
  function Rises(balances: seq<nat>): nat {
    if balances == [] then 0
    else
      var n := |balances| - 1;
      var before := if n > 0 then balances[n - 1] else 0;
      Rises(balances[..n]) + if balances[n] > before then balances[n] - before else 0
  }

  function Falls(balances: seq<nat>): nat {
    if balances == [] then 0
    else
      var n := |balances| - 1;
      var before := if n > 0 then balances[n - 1] else 0;
      Falls(balances[..n]) + if balances[n] < before then before - balances[n] else 0
  }

  /** The totals are what the balances of the history rise and fall by, and its last entry is the balance. */
  lemma {:induction false} TotalsAre(env: Env, txs: seq<Hash>)
    requires Listed(env, txs)
    ensures var s := Run(env, txs);
      && |s.balanceHist| == |txs| && s.totalReceived == Rises(s.balanceHist) && s.totalSent == Falls(s.balanceHist)
      && s.balance == if txs == [] then 0 else s.balanceHist[|txs| - 1]
  {
    if txs != [] {
      var n := |txs| - 1;
      TotalsAre(env, txs[..n]);
      HistoryStep(env, Run(env, txs[..n]), env.allTx[txs[n]]);
      hide Step, Rises, Falls;
    }
  }

  /** Entry `i` of the history is the balance after transaction `i`. */
  lemma {:induction false} HistoryIs(env: Env, txs: seq<Hash>, i: nat)
    requires Listed(env, txs) && i < |txs|
    ensures |Run(env, txs).balanceHist| == |txs| && Run(env, txs).balanceHist[i] == Run(env, txs[..i + 1]).balance
  {
    var n := |txs| - 1;
    TotalsAre(env, txs);
    TotalsAre(env, txs[..n]);
    HistoryStep(env, Run(env, txs[..n]), env.allTx[txs[n]]);
    hide Step, Rises, Falls;
    if i < n {
      HistoryIs(env, txs[..n], i);
      assert txs[..n][..i + 1] == txs[..i + 1];
    } else {
      assert txs[..i + 1] == txs;
    }
  }

  lemma HistoryStep(env: Env, s: State, tx: Tx)
    requires s.totalReceived == Rises(s.balanceHist) && s.totalSent == Falls(s.balanceHist)
    requires s.balance == if s.balanceHist == [] then 0 else s.balanceHist[|s.balanceHist| - 1]
    ensures var s' := Step(env, s, tx);
      && s'.balanceHist == s.balanceHist + [s'.balance]
      && s'.totalReceived == Rises(s'.balanceHist) && s'.totalSent == Falls(s'.balanceHist)
  {
    hide Classify, Unspent, WalletOutputs, Sum, Spends, UsedAddrs;
    var s' := Step(env, s, tx);
    assert (s.balanceHist + [s'.balance])[..|s.balanceHist|] == s.balanceHist;
  }

  // ---------- The unspent outputs ----------

  /** What had been spent when the unspent outputs were last swept, by the last accepted transaction. */
  function Swept(env: Env, txs: seq<Hash>): set<Outpoint>
    requires Listed(env, txs)
  {
    if txs == [] then {}
    else if StatusOf(env, txs, |txs| - 1) == Accepted then Run(env, txs).spent
    else Swept(env, txs[..|txs| - 1])
  }

  /** `o` is an output, paying the wallet, of the accepted transaction at position `i`. */
  predicate WalletOutput(env: Env, txs: seq<Hash>, o: Outpoint, i: nat)
    requires Listed(env, txs)
  {
    && i < |txs| && o.hash == txs[i] && StatusOf(env, txs, i) == Accepted
    && o.n < |env.allTx[txs[i]].outputs| && PaysWallet(env, env.allTx[txs[i]].outputs[o.n])
  }

  lemma {:induction false} SweptWasSpent(env: Env, txs: seq<Hash>)
    requires Listed(env, txs)
    ensures Swept(env, txs) <= Run(env, txs).spent
  {
    if txs != [] {
      SweptWasSpent(env, txs[..|txs| - 1]);
    }
  }

  /** Every unspent output is an output of a known transaction. */
  lemma {:induction false} UtxosKnown(env: Env, txs: seq<Hash>)
    requires Listed(env, txs)
    ensures forall o :: o in Run(env, txs).utxos ==> o.hash in env.allTx && o.n < |env.allTx[o.hash].outputs|
  {
    if txs != [] {
      var n := |txs| - 1;
      var tx, s := env.allTx[txs[n]], Run(env, txs[..n]);
      UtxosKnown(env, txs[..n]);
      WalletOutputsMembers(env, tx, |tx.outputs|);
      UnspentMembers(s.utxos + WalletOutputs(env, tx, |tx.outputs|), s.spent + Spends(tx));
    }
  }

  /** The unspent outputs are distinct. */
  lemma {:induction false} UtxosDistinct(env: Env, txs: seq<Hash>)
    requires Listed(env, txs)
    ensures Distinct(Run(env, txs).utxos)
    ensures forall o :: o in Run(env, txs).utxos ==> o.hash in txs
  {
    if txs != [] {
      var n := |txs| - 1;
      var init, tx := txs[..n], env.allTx[txs[n]];
      UtxosDistinct(env, init);
      var os, added := Run(env, init).utxos, WalletOutputs(env, tx, |tx.outputs|);
      WalletOutputsMembers(env, tx, |tx.outputs|);
      assert forall o :: o in os ==> o.hash in init && o.hash != tx.hash;
      assert Distinct(os + added);
      UnspentDistinct(os + added, Run(env, init).spent + Spends(tx));
      UnspentMembers(os + added, Run(env, init).spent + Spends(tx));
    }
  }

  ghost predicate IsWalletOutput(env: Env, txs: seq<Hash>, o: Outpoint)
    requires Listed(env, txs)
  {
    exists i: nat :: WalletOutput(env, txs, o, i)
  }

  lemma WalletOutputsGrow(env: Env, txs: seq<Hash>, o: Outpoint)
    requires Listed(env, txs) && txs != []
    ensures var n := |txs| - 1;
      IsWalletOutput(env, txs, o) <==> IsWalletOutput(env, txs[..n], o) || WalletOutput(env, txs, o, n)
  {
    var n := |txs| - 1;
    forall i: nat | i < n
      ensures WalletOutput(env, txs[..n], o, i) <==> WalletOutput(env, txs, o, i)
    {
      StatusInPrefix(env, txs, n, i);
    }
    hide Run, Classify, StatusOf;
    if IsWalletOutput(env, txs, o) {
      var i: nat :| WalletOutput(env, txs, o, i);
      assert i < n ==> WalletOutput(env, txs[..n], o, i);
    }
    if IsWalletOutput(env, txs[..n], o) {
      var i: nat :| WalletOutput(env, txs[..n], o, i);
      assert WalletOutput(env, txs, o, i);
    }
  }

  /** They are exactly the outputs of accepted transactions that pay the wallet and were not spent at the last sweep. */
  lemma {:induction false} UtxosAre(env: Env, txs: seq<Hash>, o: Outpoint)
    requires Listed(env, txs)
    ensures o in Run(env, txs).utxos <==> o !in Swept(env, txs) && IsWalletOutput(env, txs, o)
  {
    if txs != [] {
      var n := |txs| - 1;
      var init, tx := txs[..n], env.allTx[txs[n]];
      UtxosAre(env, init, o);
      SweptWasSpent(env, init);
      WalletOutputsGrow(env, txs, o);
      hide IsWalletOutput;
      if StatusOf(env, txs, n) == Accepted {
        var os, added := Run(env, init).utxos, WalletOutputs(env, tx, |tx.outputs|);
        WalletOutputsMembers(env, tx, |tx.outputs|);
        UnspentMembers(os + added, Run(env, init).spent + Spends(tx));
        assert o in added <==> WalletOutput(env, txs, o, n);
      }
    }
  }

  // ---------- Order ----------

  predicate AllConfirmed(env: Env, txs: seq<Hash>)
    requires Listed(env, txs)
  {
    forall i :: 0 <= i < |txs| ==> env.allTx[txs[i]].blockHeight != TX_UNCONFIRMED
  }

  lemma SameEmptiness<T>(a: seq<T>, b: seq<T>)
    requires forall o :: o in a <==> o in b
    ensures a == [] <==> b == []
  {
    assert a != [] ==> a[0] in b;
    assert b != [] ==> b[0] in a;
  }

  lemma {:induction false} SumOfSame(env: Env, a: seq<Outpoint>, b: seq<Outpoint>)
    requires Distinct(a) && Distinct(b) && forall o :: o in a <==> o in b
    ensures Sum(env, a) == Sum(env, b)
  {
    SameEmptiness(a, b);
    if a != [] {
      var n := |a| - 1;
      assert a[n] in b;
      var k: nat :| k < |b| && b[k] == a[n];
      var rest := b[..k] + b[k + 1..];
      forall o
        ensures o in a[..n] <==> o in rest
      {
        assert o in a <==> o in a[..n] || o == a[n];
        assert o in b <==> o in rest || o == b[k];
      }
      SumOfSame(env, a[..n], rest);
      SumRemove(env, b, k);
    }
  }

  /** If everything is confirmed, what is spent does not depend on the order of the list. */
  lemma SpentInAnyOrder(env: Env, a: seq<Hash>, b: seq<Hash>)
    requires Listed(env, a) && Listed(env, b) && AllConfirmed(env, b) && forall h :: h in a ==> h in b
    ensures Run(env, a).spent <= Run(env, b).spent
  {
    forall o | o in Run(env, a).spent
      ensures o in Run(env, b).spent
    {
      var i := SpentOrigin(env, a, o);
      assert a[i] in b;
      var j: nat :| j < |b| && b[j] == a[i];
      SpentContains(env, b, j);
    }
  }

  lemma OutputsInAnyOrder(env: Env, a: seq<Hash>, b: seq<Hash>, o: Outpoint)
    requires Listed(env, a) && Listed(env, b) && AllConfirmed(env, b) && forall h :: h in a ==> h in b
    ensures IsWalletOutput(env, a, o) ==> IsWalletOutput(env, b, o)
  {
    if IsWalletOutput(env, a, o) {
      var i: nat :| WalletOutput(env, a, o, i);
      assert a[i] in b;
      var j: nat :| j < |b| && b[j] == a[i];
      assert WalletOutput(env, b, o, j);
    }
  }

  /** If everything is confirmed, the unspent outputs and the balance do not depend on the order of the list. */
  lemma OrderIrrelevant(env: Env, a: seq<Hash>, b: seq<Hash>)
    requires Listed(env, a) && Listed(env, b) && AllConfirmed(env, a) && (forall h :: h in a <==> h in b)
    ensures forall o :: o in Run(env, a).utxos <==> o in Run(env, b).utxos
    ensures Run(env, a).balance == Run(env, b).balance
  {
    assert AllConfirmed(env, b) by {
      forall j | 0 <= j < |b|
        ensures env.allTx[b[j]].blockHeight != TX_UNCONFIRMED
      {
        assert b[j] in a;
      }
    }
    SpentInAnyOrder(env, a, b);
    SpentInAnyOrder(env, b, a);
    SameEmptiness(a, b);
    assert Swept(env, a) == Run(env, a).spent && Swept(env, b) == Run(env, b).spent;
    forall o
      ensures o in Run(env, a).utxos <==> o in Run(env, b).utxos
    {
      UtxosAre(env, a, o);
      UtxosAre(env, b, o);
      OutputsInAnyOrder(env, a, b, o);
      OutputsInAnyOrder(env, b, a, o);
    }
    UtxosDistinct(env, a);
    UtxosDistinct(env, b);
    SumOfSame(env, Run(env, a).utxos, Run(env, b).utxos);
    Conservation(env, a);
    Conservation(env, b);
  }
}
