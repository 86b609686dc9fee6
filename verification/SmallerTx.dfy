/**
 What becomes of the smaller transaction the program tries to make when the choice of inputs hits the size limit: the
 smaller request is what the inputs that fit can pay, but only with the fee of the attempt before.
*/
module SmallerTx {
  import opened CoinSelection
  import opened Ledger
  import opened Transaction
  import opened Wrappers

  /** The value of the inputs that fit. */
  function Fitting(env: Env, utxos: seq<Outpoint>, n: nat): nat
    requires 0 < n <= |utxos|
  {
    InputAmounts(InputsFor(env, utxos, n - 1))
  }

  /** The last output bears the reduction. */
  predicate Reduces(env: Env, utxos: seq<Outpoint>, n: nat, feePerKb: nat, outputs: seq<TxOutput>, walletBalance: nat)
    requires 0 < n <= |utxos| && outputs != []
  {
    var next := Smaller(env, utxos, n, feePerKb, outputs, walletBalance);
    next.Some? && |next.value| == |outputs|
  }

  lemma LastAmount(outputs: seq<TxOutput>)
    requires outputs != []
    ensures OutputAmounts(outputs) == OthersAmount(outputs) + outputs[|outputs| - 1].amount
  {}

  lemma WithLastIs(outputs: seq<TxOutput>, amount: nat)
    requires outputs != []
    ensures var r := WithLast(outputs, amount);
      && |r| == |outputs| && OutputsSize(r) == OutputsSize(outputs)
      && OthersAmount(r) == OthersAmount(outputs) && OutputAmounts(r) == OthersAmount(outputs) + amount
  {
    var k := |outputs| - 1;
    assert WithLast(outputs, amount)[..k] == outputs[..k];
  }

  /** The smaller request is exactly what is left of the fitting inputs after the fee of the attempt before. */
  lemma SmallerAmount(env: Env, utxos: seq<Outpoint>, n: nat, feePerKb: nat, outputs: seq<TxOutput>, walletBalance: nat)
    requires 0 < n <= |utxos| && outputs != [] && Reduces(env, utxos, n, feePerKb, outputs, walletBalance)
    ensures var next := Smaller(env, utxos, n, feePerKb, outputs, walletBalance).value;
      var fee := FeeAt(env, utxos, n - 1, feePerKb, outputs, OutputAmounts(outputs), walletBalance);
      && OutputAmounts(next) + fee == Fitting(env, utxos, n)
      && |next| == |outputs| && OutputsSize(next) == OutputsSize(outputs) && OthersAmount(next) == OthersAmount(outputs)
  {
    hide FeeAt, OutputAmounts, OutputsSize, InputAmounts, MinOutputAmount, FeeOfAll, OthersAmount, WithLast, InputsFor;
    var sum, last := Fitting(env, utxos, n), outputs[|outputs| - 1].amount;
    var amount := OutputAmounts(outputs);
    var needed := amount + FeeAt(env, utxos, n - 1, feePerKb, outputs, amount, walletBalance);
    LastAmount(outputs);
    if last + sum > needed + MinOutputAmount(feePerKb) {
      WithLastIs(outputs, last + sum - needed);
    }
  }

  lemma SameSizes(env: Env, utxos: seq<Outpoint>, n: nat, feePerKb: nat, a: seq<TxOutput>, b: seq<TxOutput>)
    requires n <= |utxos| && |a| == |b| && OutputsSize(a) == OutputsSize(b)
    ensures TooLargeFor(env, utxos, n, a) == TooLargeFor(env, utxos, n, b)
    ensures BaseFee(feePerKb, InputsFor(env, utxos, n), a) == BaseFee(feePerKb, InputsFor(env, utxos, n), b)
  {
    hide TxFee, InputsSize, OutputsSize;
  }

  /** The fee is raised by less than 100, to what the balance leaves over. */
  function Surplus(feePerKb: nat, inputs: seq<TxInput>, outputs: seq<TxOutput>, amount: nat, walletBalance: nat): nat {
    var needed := amount + BaseFee(feePerKb, inputs, outputs);
    if walletBalance > needed then (walletBalance - needed) % 100 else 0
  }

  lemma FeeIs(feePerKb: nat, inputs: seq<TxInput>, outputs: seq<TxOutput>, amount: nat, walletBalance: nat)
    ensures FeeFor(feePerKb, inputs, outputs, amount, walletBalance)
            == BaseFee(feePerKb, inputs, outputs) + Surplus(feePerKb, inputs, outputs, amount, walletBalance)
  {
    hide BaseFee;
  }

  lemma SameRemainder(x: nat, r: nat)
    requires r < 100
    ensures (x + r) % 100 == r <==> x % 100 == 0
  {}

  lemma MinimumIsLarge(feePerKb: nat)
    ensures MinOutputAmount(feePerKb) >= 100
  {}

  /**
   The smaller request is met by the inputs that fit exactly if the rest of the balance is a multiple of 100: its own fee
   is rounded for the smaller amount, and otherwise differs from the one it left room for.
  */
  lemma SmallerIsEnough(env: Env, utxos: seq<Outpoint>, n: nat, feePerKb: nat, outputs: seq<TxOutput>,
                        walletBalance: nat)
    requires 0 < n <= |utxos| && outputs != [] && Reduces(env, utxos, n, feePerKb, outputs, walletBalance)
    requires InputsFor(env, utxos, n - 1) != [] && walletBalance >= Fitting(env, utxos, n)
    ensures var next := Smaller(env, utxos, n, feePerKb, outputs, walletBalance).value;
      Enough(env, utxos, n - 1, feePerKb, next, OutputAmounts(next), walletBalance)
      <==> (walletBalance - Fitting(env, utxos, n)) % 100 == 0
  {
    hide BaseFee, OutputAmounts, OutputsSize, InputAmounts, MinOutputAmount, Smaller, FeeFor, OthersAmount;
    var next, inputs := Smaller(env, utxos, n, feePerKb, outputs, walletBalance).value, InputsFor(env, utxos, n - 1);
    var a0, a1 := OutputAmounts(outputs), OutputAmounts(next);
    SmallerAmount(env, utxos, n, feePerKb, outputs, walletBalance);
    SameSizes(env, utxos, n - 1, feePerKb, outputs, next);
    FeeIs(feePerKb, inputs, outputs, a0, walletBalance);
    FeeIs(feePerKb, inputs, next, a1, walletBalance);
    SameRemainder(walletBalance - Fitting(env, utxos, n), Surplus(feePerKb, inputs, outputs, a0, walletBalance));
    MinimumIsLarge(feePerKb);
  }

  // ---------- Attempts without end ----------

  /** Every shorter choice of other inputs is worth less than the fitting ones by more than it saves on the fee. */
  predicate ShorterIsLess(env: Env, utxos: seq<Outpoint>, n: nat, feePerKb: nat, outputs: seq<TxOutput>, j: nat)
    requires 0 < n <= |utxos| && j < n
  {
    InputsFor(env, utxos, j) == InputsFor(env, utxos, n - 1) ||
    InputAmounts(InputsFor(env, utxos, j)) + BaseFee(feePerKb, InputsFor(env, utxos, n - 1), outputs) + 100
      <= Fitting(env, utxos, n) + BaseFee(feePerKb, InputsFor(env, utxos, j), outputs)
  }

  /**
   The choice hits the limit, the rest of the balance is no multiple of 100, the balance could pay for everything, and
   the fitting inputs cover the other outputs with some to spare.
  */
  ghost predicate Stuck(env: Env, utxos: seq<Outpoint>, n: nat, feePerKb: nat, outputs: seq<TxOutput>,
                        walletBalance: nat)
  {
    && 0 < n <= |utxos| && outputs != [] && InputsFor(env, utxos, n - 1) != []
    && HitsLimit(env, utxos, n, feePerKb, outputs, OutputAmounts(outputs), walletBalance)
    && var sum, base := Fitting(env, utxos, n), BaseFee(feePerKb, InputsFor(env, utxos, n - 1), outputs);
       && sum + FeeOfAll(utxos, feePerKb, |outputs|) <= walletBalance && (walletBalance - sum) % 100 != 0
       && OutputAmounts(outputs) + FeeOfAll(utxos, feePerKb, |outputs|) <= walletBalance
       && sum >= OthersAmount(outputs) + base + MinOutputAmount(feePerKb) + 100
       && forall j: nat :: j < n ==> ShorterIsLess(env, utxos, n, feePerKb, outputs, j)
  }

  lemma StuckReduces(env: Env, utxos: seq<Outpoint>, n: nat, feePerKb: nat, outputs: seq<TxOutput>, walletBalance: nat)
    requires Stuck(env, utxos, n, feePerKb, outputs, walletBalance)
    ensures Reduces(env, utxos, n, feePerKb, outputs, walletBalance)
  {
    hide BaseFee, InputAmounts, MinOutputAmount, FeeFor, FeeOfAll, HitsLimit, ShorterIsLess;
    var inputs, amount := InputsFor(env, utxos, n - 1), OutputAmounts(outputs);
    FeeIs(feePerKb, inputs, outputs, amount, walletBalance);
    LastAmount(outputs);
    WithLastIs(outputs, 0);
  }

  lemma EnoughNeeds(env: Env, utxos: seq<Outpoint>, j: nat, feePerKb: nat, outputs: seq<TxOutput>, amount: nat,
                    walletBalance: nat)
    requires j <= |utxos| && Enough(env, utxos, j, feePerKb, outputs, amount, walletBalance)
    ensures InputAmounts(InputsFor(env, utxos, j)) >= amount + BaseFee(feePerKb, InputsFor(env, utxos, j), outputs)
  {
    hide BaseFee, InputAmounts, MinOutputAmount;
  }

  lemma EnoughAlike(env: Env, utxos: seq<Outpoint>, j: nat, k: nat, feePerKb: nat, outputs: seq<TxOutput>, amount: nat,
                    walletBalance: nat)
    requires j <= |utxos| && k <= |utxos| && InputsFor(env, utxos, j) == InputsFor(env, utxos, k)
    ensures Enough(env, utxos, j, feePerKb, outputs, amount, walletBalance)
            == Enough(env, utxos, k, feePerKb, outputs, amount, walletBalance)
  {
    hide FeeFor, InputAmounts, MinOutputAmount;
  }

  /** The next attempt hits the limit at the same place. */
  lemma StuckAgain(env: Env, utxos: seq<Outpoint>, n: nat, feePerKb: nat, outputs: seq<TxOutput>, walletBalance: nat)
    requires Stuck(env, utxos, n, feePerKb, outputs, walletBalance)
    ensures var next := Smaller(env, utxos, n, feePerKb, outputs, walletBalance);
      next.Some? && next.value != [] && Stuck(env, utxos, n, feePerKb, next.value, walletBalance)
  {
    hide BaseFee, OutputAmounts, OutputsSize, InputAmounts, MinOutputAmount, FeeFor, FeeOfAll, Smaller, Enough, TooLargeFor,
         OthersAmount;
    StuckReduces(env, utxos, n, feePerKb, outputs, walletBalance);
    SmallerAmount(env, utxos, n, feePerKb, outputs, walletBalance);
    SmallerIsEnough(env, utxos, n, feePerKb, outputs, walletBalance);
    var next, inputs := Smaller(env, utxos, n, feePerKb, outputs, walletBalance).value, InputsFor(env, utxos, n - 1);
    var amount := OutputAmounts(next);
    FeeIs(feePerKb, inputs, outputs, OutputAmounts(outputs), walletBalance);
    forall j: nat | j <= n
      ensures TooLargeFor(env, utxos, j, next) == TooLargeFor(env, utxos, j, outputs)
      ensures BaseFee(feePerKb, InputsFor(env, utxos, j), next) == BaseFee(feePerKb, InputsFor(env, utxos, j), outputs)
    {
      SameSizes(env, utxos, j, feePerKb, outputs, next);
    }
    forall j: nat | j < n
      ensures ShorterIsLess(env, utxos, n, feePerKb, next, j)
      ensures !Enough(env, utxos, j, feePerKb, next, amount, walletBalance)
    {
      assert ShorterIsLess(env, utxos, n, feePerKb, outputs, j);
      if Enough(env, utxos, j, feePerKb, next, amount, walletBalance) {
        EnoughNeeds(env, utxos, j, feePerKb, next, amount, walletBalance);
        if InputsFor(env, utxos, j) == inputs {
          EnoughAlike(env, utxos, j, n - 1, feePerKb, next, amount, walletBalance);
        }
      }
    }
  }

  /** The outputs of the `k`-th attempt. */
  function Attempt(env: Env, utxos: seq<Outpoint>, n: nat, feePerKb: nat, outputs: seq<TxOutput>, walletBalance: nat,
                   k: nat): Option<seq<TxOutput>>
    requires 0 < n <= |utxos|
  {
    if k == 0 then Some(outputs)
    else
      var before := Attempt(env, utxos, n, feePerKb, outputs, walletBalance, k - 1);
      if before.None? || before.value == [] then None
      else Smaller(env, utxos, n, feePerKb, before.value, walletBalance)
  }

  /** From such a state no attempt is the last one. */
  lemma {:induction false} StuckForever(env: Env, utxos: seq<Outpoint>, n: nat, feePerKb: nat, outputs: seq<TxOutput>,
                                        walletBalance: nat, k: nat)
    requires Stuck(env, utxos, n, feePerKb, outputs, walletBalance)
    ensures var attempt := Attempt(env, utxos, n, feePerKb, outputs, walletBalance, k);
      && attempt.Some? && attempt.value != []
      && HitsLimit(env, utxos, n, feePerKb, attempt.value, OutputAmounts(attempt.value), walletBalance)
      && Stuck(env, utxos, n, feePerKb, attempt.value, walletBalance)
  {
    hide Smaller, HitsLimit;
    if k > 0 {
      StuckForever(env, utxos, n, feePerKb, outputs, walletBalance, k - 1);
      StuckAgain(env, utxos, n, feePerKb, Attempt(env, utxos, n, feePerKb, outputs, walletBalance, k - 1).value,
                 walletBalance);
    }
  }

  // ---------- Such states exist ----------

  const WORTH: nat := 10000001

  /** Seven hundred unspent outputs of equal worth. */
  predicate Even(env: Env, utxos: seq<Outpoint>) {
    && |utxos| == 700
    && forall i :: 0 <= i < 700 ==> Spendable(env, utxos[i]) && SpendingInput(env, utxos[i]).amount == WORTH
  }

  lemma {:induction false} EvenInputs(env: Env, utxos: seq<Outpoint>, j: nat)
    requires Even(env, utxos) && j <= 700
    ensures var inputs := InputsFor(env, utxos, j);
      |inputs| == j && InputAmounts(inputs) == j * WORTH && InputsSize(inputs) == j * TX_INPUT_SIZE
  {
    if j > 0 {
      EvenInputs(env, utxos, j - 1);
      var before, input := InputsFor(env, utxos, j - 1), SpendingInput(env, utxos[j - 1]);
      assert InputsFor(env, utxos, j) == before + [input] && (before + [input])[..j - 1] == before;
    }
  }

  /** The size of a transaction that pays one standard address, with room for change. */
  lemma EvenSize(env: Env, utxos: seq<Outpoint>, output: TxOutput, j: nat)
    requires Even(env, utxos) && j <= 700 && |output.script| == 25
    ensures var size := Size(InputsFor(env, utxos, j), [output]) + TX_OUTPUT_SIZE;
      j * 148 + 78 <= size <= j * 148 + 80 && (j >= 253 ==> size == j * 148 + 80)
  {
    EvenInputs(env, utxos, j);
    assert [output][..0] == [] && OutputsSize([]) == 0 && OutputsSize([output]) == 34;
  }

  lemma SmallFee(size: nat)
    requires size <= 110000
    ensures TxFee(DEFAULT_FEE_PER_KB, size) <= 5500100
  {}

  lemma EvenFee(env: Env, utxos: seq<Outpoint>, output: TxOutput, j: nat)
    requires Even(env, utxos) && j <= 700 && |output.script| == 25
    ensures BaseFee(DEFAULT_FEE_PER_KB, InputsFor(env, utxos, j), [output]) <= 5500100
    ensures TooLargeFor(env, utxos, j, [output]) <==> j >= 676
  {
    EvenSize(env, utxos, output, j);
    EvenInputs(env, utxos, j);
    SmallFee(Size(InputsFor(env, utxos, j), [output]) + TX_OUTPUT_SIZE);
    hide TxFee, Size, InputsFor, InputAmounts;
  }

  lemma EvenShorter(env: Env, utxos: seq<Outpoint>, output: TxOutput, j: nat)
    requires Even(env, utxos) && j < 676 && |output.script| == 25 && output.amount == 680 * WORTH
    ensures ShorterIsLess(env, utxos, 676, DEFAULT_FEE_PER_KB, [output], j)
    ensures !Enough(env, utxos, j, DEFAULT_FEE_PER_KB, [output], output.amount, 700 * WORTH)
    ensures !TooLargeFor(env, utxos, j, [output])
  {
    hide BaseFee, InputsFor, InputAmounts, MinOutputAmount, TooLargeFor, FeeFor;
    EvenInputs(env, utxos, j);
    EvenInputs(env, utxos, 675);
    EvenFee(env, utxos, output, j);
    EvenFee(env, utxos, output, 675);
    FeeIs(DEFAULT_FEE_PER_KB, InputsFor(env, utxos, j), [output], output.amount, 700 * WORTH);
  }

  /** With seven hundred unspent outputs of equal worth, a payment of six hundred and eighty times that worth. */
  lemma StuckExample(env: Env, utxos: seq<Outpoint>, output: TxOutput)
    requires Even(env, utxos) && |output.script| == 25 && output.amount == 680 * WORTH
    ensures Stuck(env, utxos, 676, DEFAULT_FEE_PER_KB, [output], 700 * WORTH)
  {
    hide BaseFee, InputsFor, InputAmounts, TooLargeFor, ShorterIsLess, Enough, TxFee;
    assert [output][..0] == [] && OutputAmounts([]) == 0;
    assert OutputAmounts([output]) == output.amount && OthersAmount([output]) == 0;
    EvenInputs(env, utxos, 675);
    EvenFee(env, utxos, output, 675);
    EvenFee(env, utxos, output, 676);
    SmallFee(10 + 700 * TX_INPUT_SIZE + 2 * TX_OUTPUT_SIZE);
    forall j: nat | j < 676
      ensures ShorterIsLess(env, utxos, 676, DEFAULT_FEE_PER_KB, [output], j)
      ensures !Enough(env, utxos, j, DEFAULT_FEE_PER_KB, [output], output.amount, 700 * WORTH)
      ensures !TooLargeFor(env, utxos, j, [output])
    {
      EvenShorter(env, utxos, output, j);
    }
    assert MinOutputAmount(DEFAULT_FEE_PER_KB) <= 100000;
  }
}
