/** Fees, dust limits and the choice of inputs (BRWallet.c). */
module CoinSelection {
  import opened Bytes
  import opened Ledger
  import opened Transaction
  import opened Wrappers

  /** The minimum relay fee on a transaction of 191 bytes (BRWallet.h:39). */
  const MIN_FEE_PER_KB: nat := (TX_FEE_PER_KB * 1000 + 190) / 191

  /** The fee rate of a new wallet (BRWallet.h:38). */
  const DEFAULT_FEE_PER_KB: nat := (5000 * 1000 + 99) / 100

  function TxFee(feePerKb: nat, size: nat): nat {
    var standardFee := (size + 999) / 1000 * TX_FEE_PER_KB;
    var fee := (size * feePerKb / 1000 + 99) / 100 * 100;
    if fee > standardFee then fee else standardFee
  }

  function MinOutputAmount(feePerKb: nat): nat {
    var amount := (TX_MIN_OUTPUT_AMOUNT * feePerKb + MIN_FEE_PER_KB - 1) / MIN_FEE_PER_KB;
    if amount > TX_MIN_OUTPUT_AMOUNT then amount else TX_MIN_OUTPUT_AMOUNT
  }

  /** The fee is at least the relay fee per started kilobyte, and at least the fee rate. */
  lemma TxFeeCovers(feePerKb: nat, size: nat)
    ensures TxFee(feePerKb, size) * 1000 >= size * TX_FEE_PER_KB
    ensures TxFee(feePerKb, size) >= size * feePerKb / 1000
  {
    RoundUp(size, 1000);
    RoundUp(size * feePerKb / 1000, 100);
  }

  lemma RoundUp(x: nat, unit: nat)
    requires unit > 0
    ensures (x + unit - 1) / unit * unit >= x
  {
    var y := x + unit - 1;
    assert y == y / unit * unit + y % unit;
  }

  /** A fee is enough exactly if its whole thousands pay for every started kilobyte and its whole hundreds for the rate. */
  lemma TxFeeIsLeast(feePerKb: nat, size: nat, fee: nat)
    ensures fee >= TxFee(feePerKb, size) <==>
            fee / TX_FEE_PER_KB * 1000 >= size && fee / 100 * 100 >= size * feePerKb / 1000
  {
    RoundUpIsLeast(size, 1000, fee);
    RoundUpIsLeast(size * feePerKb / 1000, 100, fee);
  }

  lemma RoundUpIsLeast(x: nat, unit: nat, y: nat)
    requires unit > 0
    ensures y >= (x + unit - 1) / unit * unit <==> y / unit * unit >= x
  {
    RoundUp(x, unit);
    var q, r := (x + unit - 1) / unit, y / unit;
    assert x + unit - 1 == q * unit + (x + unit - 1) % unit && y == r * unit + y % unit;
    if r >= q {
      assert r * unit >= q * unit;
    } else {
      assert r * unit + unit <= q * unit by { assert (r + 1) * unit <= q * unit; }
    }
  }

  /** The dust limit in force: the least amount above the fixed limit, raised in proportion to the fee rate. */
  lemma MinOutputAmountIsLeast(feePerKb: nat, amount: nat)
    ensures amount >= MinOutputAmount(feePerKb) <==>
            amount >= TX_MIN_OUTPUT_AMOUNT && amount * MIN_FEE_PER_KB >= TX_MIN_OUTPUT_AMOUNT * feePerKb
  {
    CeilIsLeast(TX_MIN_OUTPUT_AMOUNT * feePerKb, MIN_FEE_PER_KB, amount);
  }

  lemma CeilIsLeast(x: nat, unit: nat, n: nat)
    requires unit > 0
    ensures n >= (x + unit - 1) / unit <==> n * unit >= x
  {
    RoundUp(x, unit);
    var q := (x + unit - 1) / unit;
    assert x + unit - 1 == q * unit + (x + unit - 1) % unit;
    if n >= q {
      assert n * unit >= q * unit;
    } else {
      assert n * unit + unit <= q * unit by { assert (n + 1) * unit <= q * unit; }
    }
  }

  lemma DivGrows(x: nat, y: nat, d: nat)
    requires x <= y && d > 0
    ensures x / d <= y / d
  {
    var q, r := x / d, y / d;
    assert x == q * d + x % d && y == r * d + y % d;
    assert q >= r + 1 ==> q * d >= (r + 1) * d;
  }

  lemma TxFeeGrows(feePerKb: nat, a: nat, b: nat)
    requires a <= b
    ensures TxFee(feePerKb, a) <= TxFee(feePerKb, b)
  {
    assert a * feePerKb <= b * feePerKb;
    DivGrows(a + 999, b + 999, 1000);
    DivGrows(a * feePerKb, b * feePerKb, 1000);
    DivGrows(a * feePerKb / 1000 + 99, b * feePerKb / 1000 + 99, 100);
  }

  function OutputAmounts(outputs: seq<TxOutput>): nat {
    if outputs == [] then 0 else OutputAmounts(outputs[..|outputs| - 1]) + outputs[|outputs| - 1].amount
  }

  function InputAmounts(inputs: seq<TxInput>): nat {
    if inputs == [] then 0 else InputAmounts(inputs[..|inputs| - 1]) + inputs[|inputs| - 1].amount
  }

  predicate Unsigned(inputs: seq<TxInput>) {
    forall i :: 0 <= i < |inputs| ==> inputs[i].signature == None
  }

  lemma {:induction false} UnsignedSize(inputs: seq<TxInput>)
    requires Unsigned(inputs)
    ensures InputsSize(inputs) == TX_INPUT_SIZE * |inputs|
  {
    if inputs != [] {
      UnsignedSize(inputs[..|inputs| - 1]);
    }
  }

  /** An output known to the wallet. */
  predicate Spendable(env: Env, o: Outpoint) {
    o.hash in env.allTx && o.n < |env.allTx[o.hash].outputs|
  }

  /** The input that spends an unspent output. */
  function SpendingInput(env: Env, o: Outpoint): TxInput
    requires Spendable(env, o)
  {
    var output := env.allTx[o.hash].outputs[o.n];
    TxInput(o, output.amount, Some(output.script), None, UINT32_MAX)
  }

  /** The inputs spend distinct unspent outputs known to the wallet, each for its whole amount. */
  predicate SpendsUtxos(env: Env, utxos: seq<Outpoint>, inputs: seq<TxInput>) {
    && (forall i :: 0 <= i < |inputs| ==>
         inputs[i].prev in utxos && Spendable(env, inputs[i].prev) && inputs[i] == SpendingInput(env, inputs[i].prev))
    && (forall i, j :: 0 <= i < j < |inputs| ==> inputs[i].prev != inputs[j].prev)
  }

  /** The inputs for the first `n` unspent outputs, in order. */
  function InputsFor(env: Env, utxos: seq<Outpoint>, n: nat): seq<TxInput>
    requires n <= |utxos|
  {
    if n == 0 then []
    else InputsFor(env, utxos, n - 1) + if Spendable(env, utxos[n - 1]) then [SpendingInput(env, utxos[n - 1])] else []
  }

  lemma {:induction false} InputsForSpend(env: Env, utxos: seq<Outpoint>, n: nat)
    requires n <= |utxos| && Distinct(utxos)
    ensures var inputs := InputsFor(env, utxos, n);
      SpendsUtxos(env, utxos, inputs) && Unsigned(inputs) && forall i :: 0 <= i < |inputs| ==> inputs[i].prev in utxos[..n]
  {
    if n > 0 {
      InputsForSpend(env, utxos, n - 1);
      assert utxos[..n] == utxos[..n - 1] + [utxos[n - 1]];
      assert utxos[n - 1] !in utxos[..n - 1];
    }
  }

  lemma NoInputs(env: Env, utxos: seq<Outpoint>)
    ensures InputsFor(env, utxos, 0) == [] && InputAmounts([]) == 0 && Sum(env, utxos[..0]) == 0
  {}

  lemma InputAppend(inputs: seq<TxInput>, input: TxInput)
    ensures InputAmounts(inputs + [input]) == InputAmounts(inputs) + input.amount
  {
    assert (inputs + [input])[..|inputs|] == inputs;
  }

  lemma {:induction false} InputsForAmount(env: Env, utxos: seq<Outpoint>, n: nat)
    requires n <= |utxos|
    ensures InputAmounts(InputsFor(env, utxos, n)) == Sum(env, utxos[..n])
  {
    if n > 0 {
      InputsForAmount(env, utxos, n - 1);
      SumAppend(env, utxos[..n - 1], utxos[n - 1]);
      assert utxos[..n] == utxos[..n - 1] + [utxos[n - 1]];
      if Spendable(env, utxos[n - 1]) {
        InputAppend(InputsFor(env, utxos, n - 1), SpendingInput(env, utxos[n - 1]));
      } else {
        assert InputsFor(env, utxos, n) == InputsFor(env, utxos, n - 1);
      }
    }
  }

  /** The most the wallet can send to one address. */
  function MaxOutputAmount(env: Env, utxos: seq<Outpoint>, feePerKb: nat): nat {
    var inCount := |InputsFor(env, utxos, |utxos|)|;
    var txSize := 8 + VarIntSize(inCount) + TX_INPUT_SIZE * inCount + VarIntSize(2) + TX_OUTPUT_SIZE * 2;
    var amount, fee := Sum(env, utxos), TxFee(feePerKb, txSize);
    if amount > fee then amount - fee else 0
  }

  // ---------- The choice ----------

  /** The fee for a transaction with room for change, raised to leave the wallet a balance of whole hundreds. */
  function FeeFor(feePerKb: nat, inputs: seq<TxInput>, outputs: seq<TxOutput>, amount: nat, walletBalance: nat): nat {
    var fee := BaseFee(feePerKb, inputs, outputs);
    if walletBalance > amount + fee then fee + (walletBalance - (amount + fee)) % 100 else fee
  }

  function BaseFee(feePerKb: nat, inputs: seq<TxInput>, outputs: seq<TxOutput>): nat {
    TxFee(feePerKb, Size(inputs, outputs) + TX_OUTPUT_SIZE)
  }

  lemma FeeForBounds(feePerKb: nat, inputs: seq<TxInput>, outputs: seq<TxOutput>, amount: nat, walletBalance: nat)
    ensures var fee, base := FeeFor(feePerKb, inputs, outputs, amount, walletBalance),
                             BaseFee(feePerKb, inputs, outputs);
      && 0 < base <= fee < base + 100
      && (walletBalance >= amount + base ==>
           walletBalance >= amount + fee && (walletBalance - (amount + fee)) % 100 == 0)
  {
    TxFeeCovers(feePerKb, Size(inputs, outputs) + TX_OUTPUT_SIZE);
    hide TxFee, Size;
  }

  /** The first `n` unspent outputs cover amount and fee, exactly or with room for change above the minimum. */
  predicate Enough(env: Env, utxos: seq<Outpoint>, n: nat, feePerKb: nat, outputs: seq<TxOutput>, amount: nat,
                   walletBalance: nat)
    requires n <= |utxos|
  {
    var inputs := InputsFor(env, utxos, n);
    var sum, fee := InputAmounts(inputs), FeeFor(feePerKb, inputs, outputs, amount, walletBalance);
    inputs != [] && (sum == amount + fee || sum >= amount + fee + MinOutputAmount(feePerKb))
  }

  /** With the first `n` unspent outputs, at least one of them spendable, the transaction is larger than allowed. */
  predicate TooLargeFor(env: Env, utxos: seq<Outpoint>, n: nat, outputs: seq<TxOutput>)
    requires n <= |utxos|
  {
    var inputs := InputsFor(env, utxos, n);
    inputs != [] && Size(inputs, outputs) + TX_OUTPUT_SIZE > TX_MAX_SIZE
  }

  /** No fewer than `n` unspent outputs, in order, are enough or too many. */
  ghost predicate Reaches(env: Env, utxos: seq<Outpoint>, n: nat, feePerKb: nat, outputs: seq<TxOutput>, amount: nat,
                          walletBalance: nat)
  {
    && n <= |utxos|
    && (forall k: nat :: k < n ==> !Enough(env, utxos, k, feePerKb, outputs, amount, walletBalance))
    && (forall k: nat :: k < n ==> !TooLargeFor(env, utxos, k, outputs))
  }

  /** The choice takes the fewest unspent outputs, in order, that are enough, or all of them. */
  ghost predicate Chosen(env: Env, utxos: seq<Outpoint>, n: nat, feePerKb: nat, outputs: seq<TxOutput>, amount: nat,
                         walletBalance: nat)
  {
    && Reaches(env, utxos, n, feePerKb, outputs, amount, walletBalance) && !TooLargeFor(env, utxos, n, outputs)
    && (n == |utxos| || Enough(env, utxos, n, feePerKb, outputs, amount, walletBalance))
  }

  /** The choice goes on until it exceeds the size limit. */
  ghost predicate HitsLimit(env: Env, utxos: seq<Outpoint>, n: nat, feePerKb: nat, outputs: seq<TxOutput>, amount: nat,
                            walletBalance: nat)
  {
    Reaches(env, utxos, n, feePerKb, outputs, amount, walletBalance) && TooLargeFor(env, utxos, n, outputs)
  }

  lemma EnoughIs(env: Env, utxos: seq<Outpoint>, n: nat, feePerKb: nat, outputs: seq<TxOutput>, amount: nat,
                 walletBalance: nat)
    requires n <= |utxos|
    ensures var inputs := InputsFor(env, utxos, n);
      var sum, fee := InputAmounts(inputs), FeeFor(feePerKb, inputs, outputs, amount, walletBalance);
      Enough(env, utxos, n, feePerKb, outputs, amount, walletBalance) <==>
      inputs != [] && (sum == amount + fee || sum >= amount + fee + MinOutputAmount(feePerKb))
  {}

  /** Unless everything was taken, the choice covers amount and fee. */
  lemma ChosenCovers(env: Env, utxos: seq<Outpoint>, n: nat, feePerKb: nat, outputs: seq<TxOutput>, amount: nat,
                     walletBalance: nat)
    requires Chosen(env, utxos, n, feePerKb, outputs, amount, walletBalance)
    ensures n <= |utxos|
    ensures var inputs := InputsFor(env, utxos, n);
      n == |utxos| ||
      (inputs != [] && InputAmounts(inputs) >= amount + FeeFor(feePerKb, inputs, outputs, amount, walletBalance))
  {}

  lemma SameInputsEnough(env: Env, utxos: seq<Outpoint>, n: nat, feePerKb: nat, outputs: seq<TxOutput>, amount: nat,
                         walletBalance: nat)
    requires 0 < n <= |utxos| && !Spendable(env, utxos[n - 1])
    ensures Enough(env, utxos, n, feePerKb, outputs, amount, walletBalance) ==
            Enough(env, utxos, n - 1, feePerKb, outputs, amount, walletBalance)
    ensures TooLargeFor(env, utxos, n, outputs) == TooLargeFor(env, utxos, n - 1, outputs)
    ensures InputsFor(env, utxos, n) == InputsFor(env, utxos, n - 1)
  {
    hide FeeFor, InputAmounts, MinOutputAmount;
    assert InputsFor(env, utxos, n) == InputsFor(env, utxos, n - 1);
  }

  // ---------- A smaller transaction ----------

  /** The fee the choice has arrived at with the first `n` unspent outputs. */
  function FeeAt(env: Env, utxos: seq<Outpoint>, n: nat, feePerKb: nat, outputs: seq<TxOutput>, amount: nat,
                 walletBalance: nat): nat
    requires n <= |utxos|
  {
    var inputs := InputsFor(env, utxos, n);
    if inputs == [] then BaseFee(feePerKb, inputs, outputs)
    else FeeFor(feePerKb, inputs, outputs, amount, walletBalance)
  }

  /** What the program estimates as the fee for spending everything. */
  function FeeOfAll(utxos: seq<Outpoint>, feePerKb: nat, outCount: nat): nat {
    TxFee(feePerKb, 10 + |utxos| * TX_INPUT_SIZE + (outCount + 1) * TX_OUTPUT_SIZE)
  }

  /** The value of all outputs but the last, which alone is reduced. */
  function OthersAmount(outputs: seq<TxOutput>): nat
    requires outputs != []
  {
    OutputAmounts(outputs[..|outputs| - 1])
  }

  function WithLast(outputs: seq<TxOutput>, amount: nat): seq<TxOutput>
    requires outputs != []
  {
    outputs[|outputs| - 1 := outputs[|outputs| - 1].(amount := amount)]
  }

  /**
   The outputs with which the program tries again when the `n`-th unspent output was one too many: the last output less
   what is missing, or none of it if too little would remain. It gives up if the balance cannot pay for everything.
  */
  function Smaller(env: Env, utxos: seq<Outpoint>, n: nat, feePerKb: nat, outputs: seq<TxOutput>, walletBalance: nat)
    : Option<seq<TxOutput>>
    requires 0 < n <= |utxos| && outputs != []
  {
    var amount := OutputAmounts(outputs);
    SmallerFor(utxos, feePerKb, outputs, amount, InputAmounts(InputsFor(env, utxos, n - 1)),
               amount + FeeAt(env, utxos, n - 1, feePerKb, outputs, amount, walletBalance), walletBalance)
  }

  /** The inputs that fit are worth `sum`, and `needed` is the value of the outputs with the fee. */
  function SmallerFor(utxos: seq<Outpoint>, feePerKb: nat, outputs: seq<TxOutput>, amount: nat, sum: nat, needed: nat,
                      walletBalance: nat): Option<seq<TxOutput>>
    requires outputs != []
  {
    var last := |outputs| - 1;
    if walletBalance < amount + FeeOfAll(utxos, feePerKb, |outputs|) then None
    else if outputs[last].amount + sum > needed + MinOutputAmount(feePerKb) then
      Some(WithLast(outputs, outputs[last].amount + sum - needed))
    else Some(outputs[..last])
  }

  /** Addresses do not matter for it. */
  lemma SmallerAlike(env: Env, utxos: seq<Outpoint>, n: nat, feePerKb: nat, outputs: seq<TxOutput>, outs: seq<TxOutput>,
                     walletBalance: nat)
    requires 0 < n <= |utxos| && |outs| == |outputs|
    requires OutputAmounts(outs) == OutputAmounts(outputs) && OutputsSize(outs) == OutputsSize(outputs)
    ensures outputs != [] ==>
      var amount := OutputAmounts(outs);
      Smaller(env, utxos, n, feePerKb, outputs, walletBalance) ==
      SmallerFor(utxos, feePerKb, outputs, amount, InputAmounts(InputsFor(env, utxos, n - 1)),
                 amount + FeeAt(env, utxos, n - 1, feePerKb, outs, amount, walletBalance), walletBalance)
  {
    hide TxFee, InputsFor, InputAmounts, OutputAmounts, OutputsSize, InputsSize, SmallerFor;
  }

  /** `next` are the outputs with which the program tries again when the transaction is too large, if it does. */
  datatype Created = Made(tx: Tx) | Insufficient | TooLarge(next: Option<seq<TxOutput>>)

  /** The balance pays for these outputs and for the fee of spending everything. */
  predicate Payable(env: Env, utxos: seq<Outpoint>, feePerKb: nat, outputs: seq<TxOutput>) {
    && outputs != []
    && Sum(env, utxos) >= OutputAmounts(outputs) + BaseFee(feePerKb, InputsFor(env, utxos, |utxos|), outputs)
  }

  /** The maximum leaves enough for the fee of spending everything to one standard address. */
  lemma MaximumIsPayable(env: Env, utxos: seq<Outpoint>, feePerKb: nat, output: TxOutput)
    requires Distinct(utxos) && |output.script| <= 25
    requires 0 < output.amount <= MaxOutputAmount(env, utxos, feePerKb)
    ensures Payable(env, utxos, feePerKb, [output])
  {
    hide TxFee, Sum, InputsFor, VarIntSize, OutputsSize, InputsSize, SpendsUtxos, Unsigned;
    var inputs := InputsFor(env, utxos, |utxos|);
    InputsForSpend(env, utxos, |utxos|);
    UnsignedSize(inputs);
    OneOutput(output);
    TxFeeGrows(feePerKb, Size(inputs, [output]) + TX_OUTPUT_SIZE,
               8 + VarIntSize(|inputs|) + TX_INPUT_SIZE * |inputs| + VarIntSize(2) + TX_OUTPUT_SIZE * 2);
  }

  /** To a standard address no more than the maximum can be sent so. */
  lemma MaximumIsExact(env: Env, utxos: seq<Outpoint>, feePerKb: nat, output: TxOutput)
    requires Distinct(utxos) && |output.script| == 25 && output.amount > 0
    ensures Payable(env, utxos, feePerKb, [output]) <==> output.amount <= MaxOutputAmount(env, utxos, feePerKb)
  {
    hide TxFee, Sum, InputsFor, OutputsSize, InputsSize, SpendsUtxos, Unsigned;
    var inputs := InputsFor(env, utxos, |utxos|);
    InputsForSpend(env, utxos, |utxos|);
    UnsignedSize(inputs);
    OneOutput(output);
    assert Size(inputs, [output]) + TX_OUTPUT_SIZE ==
           8 + VarIntSize(|inputs|) + TX_INPUT_SIZE * |inputs| + VarIntSize(2) + TX_OUTPUT_SIZE * 2;
  }

  lemma OneOutput(output: TxOutput)
    requires |output.script| <= 25
    ensures OutputAmounts([output]) == output.amount && OutputsSize([output]) <= TX_OUTPUT_SIZE
    ensures |output.script| == 25 ==> OutputsSize([output]) == TX_OUTPUT_SIZE
    ensures VarIntSize(1) == VarIntSize(2)
  {
    assert [output][..0] == [];
  }

  // ---------- Outputs ----------

  /** The requested outputs with their addresses read from their scripts. */
  function Addressed(addressOf: seq<Byte> -> Address, outputs: seq<TxOutput>): seq<TxOutput> {
    if outputs == [] then []
    else
      var o := outputs[|outputs| - 1];
      Addressed(addressOf, outputs[..|outputs| - 1]) + [TxOutput(addressOf(o.script), o.amount, o.script)]
  }

  lemma {:induction false} AddressedKeeps(addressOf: seq<Byte> -> Address, outputs: seq<TxOutput>)
    ensures var r := Addressed(addressOf, outputs);
      && |r| == |outputs| && OutputAmounts(r) == OutputAmounts(outputs) && OutputsSize(r) == OutputsSize(outputs)
      && forall k :: 0 <= k < |r| ==>
           r[k].script == outputs[k].script && r[k].amount == outputs[k].amount && r[k].address == addressOf(r[k].script)
  {
    if outputs != [] {
      var init, o := outputs[..|outputs| - 1], outputs[|outputs| - 1];
      AddressedKeeps(addressOf, init);
      OutputAppend(Addressed(addressOf, init), TxOutput(addressOf(o.script), o.amount, o.script));
    }
  }

  lemma OutputAppend(outputs: seq<TxOutput>, o: TxOutput)
    ensures OutputAmounts(outputs + [o]) == OutputAmounts(outputs) + o.amount
    ensures OutputsSize(outputs + [o]) == OutputsSize(outputs) + OutputSize(o)
  {
    assert (outputs + [o])[..|outputs|] == outputs;
  }

  lemma {:induction false} OutputReplace(outputs: seq<TxOutput>, k: nat, o: TxOutput)
    requires k < |outputs|
    ensures OutputAmounts(outputs[k := o]) == OutputAmounts(outputs) - outputs[k].amount + o.amount
    ensures OutputsSize(outputs[k := o]) == OutputsSize(outputs) - OutputSize(outputs[k]) + OutputSize(o)
  {
    hide OutputSize;
    var n := |outputs| - 1;
    if k < n {
      OutputReplace(outputs[..n], k, o);
      assert outputs[k := o][..n] == outputs[..n][k := o];
    } else {
      assert outputs[k := o][..n] == outputs[..n];
    }
  }

  function Swapped<T>(s: seq<T>, i: nat, j: nat): seq<T>
    requires i < |s| && j < |s|
  {
    s[i := s[j]][j := s[i]]
  }

  /** Exchanging two outputs keeps the outputs, their value and their size. */
  lemma OutputSwap(outputs: seq<TxOutput>, i: nat, j: nat)
    requires i < |outputs| && j < |outputs|
    ensures var swapped := Swapped(outputs, i, j);
      && multiset(swapped) == multiset(outputs) && (i == j ==> swapped == outputs)
      && OutputAmounts(swapped) == OutputAmounts(outputs) && OutputsSize(swapped) == OutputsSize(outputs)
  {
    hide OutputSize;
    if i != j {
      OutputReplace(outputs, i, outputs[j]);
      OutputReplace(outputs[i := outputs[j]], j, outputs[i]);
    } else {
      assert Swapped(outputs, i, i) == outputs;
    }
  }

  /** The shuffle from place `i` on: every place takes one of the outputs that are left. */
  function ShuffledFrom(outputs: seq<TxOutput>, random: nat -> nat, i: nat): seq<TxOutput>
    decreases |outputs| - i
  {
    if i + 1 >= |outputs| then outputs
    else ShuffledFrom(Swapped(outputs, i, i + random(i) % (|outputs| - i)), random, i + 1)
  }

  lemma ShuffleStep(outputs: seq<TxOutput>, random: nat -> nat, i: nat)
    requires i + 1 < |outputs|
    ensures var swapped := Swapped(outputs, i, i + random(i) % (|outputs| - i));
      ShuffledFrom(outputs, random, i) == ShuffledFrom(swapped, random, i + 1)
  {}

  /** `BRTransactionShuffleOutputs`; `random` stands for the random numbers. */
  method ShuffleOutputs(outputs: seq<TxOutput>, random: nat -> nat) returns (shuffled: seq<TxOutput>)
    ensures shuffled == ShuffledFrom(outputs, random, 0)
    ensures multiset(shuffled) == multiset(outputs) && |shuffled| == |outputs|
    ensures OutputAmounts(shuffled) == OutputAmounts(outputs) && OutputsSize(shuffled) == OutputsSize(outputs)
  {
    hide OutputAmounts, OutputsSize;
    shuffled := outputs;
    var i := 0;
    while i + 1 < |shuffled|
      invariant |shuffled| == |outputs| && multiset(shuffled) == multiset(outputs)
      invariant OutputAmounts(shuffled) == OutputAmounts(outputs) && OutputsSize(shuffled) == OutputsSize(outputs)
      invariant ShuffledFrom(shuffled, random, i) == ShuffledFrom(outputs, random, 0)
    {
      hide ShuffledFrom;
      ShuffleStep(shuffled, random, i);
      var j := i + random(i) % (|shuffled| - i);
      OutputSwap(shuffled, i, j);
      if j != i { shuffled := shuffled[i := shuffled[j]][j := shuffled[i]]; }
      i := i + 1;
    }
  }

  /** Only the random numbers from `i` on matter to it. */
  lemma {:induction false} ShuffleReads(outputs: seq<TxOutput>, random: nat -> nat, random': nat -> nat, i: nat)
    requires forall k: nat :: k >= i ==> random(k) == random'(k)
    ensures ShuffledFrom(outputs, random, i) == ShuffledFrom(outputs, random', i)
    decreases |outputs| - i
  {
    if i + 1 < |outputs| {
      assert random(i) == random'(i);
      ShuffleReads(Swapped(outputs, i, i + random(i) % (|outputs| - i)), random, random', i + 1);
    }
  }

  /** What two sequences agree on up to place `i` leaves the same elements to the rest. */
  lemma SameRest<T>(s: seq<T>, t: seq<T>, i: nat)
    requires multiset(s) == multiset(t) && i <= |s| == |t| && s[..i] == t[..i]
    ensures multiset(s[i..]) == multiset(t[i..])
  {
    assert s == s[..i] + s[i..] && t == t[..i] + t[i..];
    assert multiset(s[i..]) == multiset(s) - multiset(s[..i]);
    assert multiset(t[i..]) == multiset(t) - multiset(t[..i]);
  }

  /** Some output that is left at place `i` is the wanted one. */
  lemma NextPlace(outputs: seq<TxOutput>, wanted: seq<TxOutput>, i: nat) returns (d: nat)
    requires multiset(wanted) == multiset(outputs) && i < |wanted| == |outputs| && wanted[..i] == outputs[..i]
    ensures d < |outputs| - i
    ensures var swapped := Swapped(outputs, i, i + d);
      multiset(swapped) == multiset(outputs) && swapped[..i + 1] == wanted[..i + 1]
  {
    hide Swapped;
    SameRest(outputs, wanted, i);
    assert wanted[i..][0] == wanted[i];
    assert wanted[i] in multiset(outputs[i..]);
    assert wanted[i] in outputs[i..];
    d :| 0 <= d < |outputs| - i && outputs[i..][d] == wanted[i];
    SwapNext(outputs, wanted, i, d);
  }

  lemma SwapNext(outputs: seq<TxOutput>, wanted: seq<TxOutput>, i: nat, d: nat)
    requires i < |wanted| == |outputs| && d < |outputs| - i && wanted[..i] == outputs[..i] && outputs[i + d] == wanted[i]
    ensures var swapped := Swapped(outputs, i, i + d);
      multiset(swapped) == multiset(outputs) && swapped[..i + 1] == wanted[..i + 1]
  {
    hide OutputAmounts, OutputsSize;
    OutputSwap(outputs, i, i + d);
    assert Swapped(outputs, i, i + d)[..i] == outputs[..i];
    assert wanted[..i + 1] == wanted[..i] + [wanted[i]];
  }

  /** Every order of the outputs from place `i` on comes out for some random numbers, each small enough for its place. */
  lemma {:induction false} EveryOrder(outputs: seq<TxOutput>, wanted: seq<TxOutput>, i: nat) returns (random: nat -> nat)
    requires multiset(wanted) == multiset(outputs) && |wanted| == |outputs|
    requires i <= |outputs| && wanted[..i] == outputs[..i]
    ensures ShuffledFrom(outputs, random, i) == wanted
    ensures forall k: nat :: i <= k < |outputs| ==> random(k) < |outputs| - k
    decreases |outputs| - i
  {
    if i < |outputs| {
      var d := NextPlace(outputs, wanted, i);
      var swapped := Swapped(outputs, i, i + d);
      var rest := EveryOrder(swapped, wanted, i + 1);
      random := k => if k == i then d else rest(k);
      hide Swapped;
      ShuffleReads(swapped, random, rest, i + 1);
      ShufflePick(outputs, random, i);
    } else {
      random := k => 0;
    }
  }

  lemma ShufflePick(outputs: seq<TxOutput>, random: nat -> nat, i: nat)
    requires i < |outputs| && random(i) < |outputs| - i
    ensures ShuffledFrom(outputs, random, i) == ShuffledFrom(Swapped(outputs, i, i + random(i)), random, i + 1)
  {
    ModSmall(random(i), |outputs| - i);
    OutputSwap(outputs, i, i + random(i));
  }

  lemma ModSmall(x: nat, m: nat)
    requires x < m
    ensures x % m == x
  {}

  // ---------- The result ----------

  /** As `BRTransactionNew` leaves it, but for inputs and outputs. */
  predicate IsNew(tx: Tx) {
    tx.hash == 0 && tx.version == 1 && tx.lockTime == 0 && tx.blockHeight == TX_UNCONFIRMED && tx.timestamp == 0
  }

  /** A transaction that was made is not signed, is not replaceable, and any block may include it. */
  lemma MadeIsFinal(env: Env, utxos: seq<Outpoint>, feePerKb: nat, requested: seq<TxOutput>, tx: Tx,
                    change: Option<TxOutput>, fee: nat, height: nat, time: nat)
    requires Sound(env, utxos, feePerKb, requested, tx, change, fee) && fee > 0
    ensures !IsSigned(tx) && !Replaceable(tx) && IsFinal(tx, height, time)
  {
    assert tx.inputs != [];
    assert tx.inputs[0].signature == None;
  }

  /** What a transaction made for the requested outputs guarantees, `fee` being the fee the wallet computed. */
  predicate Sound(env: Env, utxos: seq<Outpoint>, feePerKb: nat, requested: seq<TxOutput>, tx: Tx,
                  change: Option<TxOutput>, fee: nat)
  {
    var paid, minAmount := InputAmounts(tx.inputs) - OutputAmounts(tx.outputs), MinOutputAmount(feePerKb);
    && IsNew(tx) && SpendsUtxos(env, utxos, tx.inputs) && Unsigned(tx.inputs)
    && match change
       case None => tx.outputs == requested && fee <= paid <= fee + minAmount
       case Some(o) =>
         && multiset(tx.outputs) == multiset(requested) + multiset{o} && |tx.outputs| == |requested| + 1
         && OutputAmounts(tx.outputs) == OutputAmounts(requested) + o.amount
         && o.amount > minAmount && paid == fee
  }

  /** The transaction that was made is no larger than estimated, change included, and the fee covers its size. */
  predicate FeeCovers(feePerKb: nat, requested: seq<TxOutput>, tx: Tx, change: Option<TxOutput>, fee: nat) {
    IsEstimated(requested, change) ==>
      && fee >= TxFee(feePerKb, Size(tx.inputs, tx.outputs))
      && Size(tx.inputs, tx.outputs) <= Size(tx.inputs, requested) + TX_OUTPUT_SIZE
  }

  /** The estimate is for a standard script, and for a count of outputs that takes one byte with and without change. */
  predicate IsEstimated(requested: seq<TxOutput>, change: Option<TxOutput>) {
    |requested| < 252 && (change.Some? ==> |change.value.script| <= 25)
  }

  /** So it is small enough. */
  lemma MadeFits(env: Env, utxos: seq<Outpoint>, n: nat, feePerKb: nat, requested: seq<TxOutput>, amount: nat,
                 walletBalance: nat, tx: Tx, change: Option<TxOutput>, fee: nat)
    requires Chosen(env, utxos, n, feePerKb, requested, amount, walletBalance) && tx.inputs == InputsFor(env, utxos, n)
    requires FeeCovers(feePerKb, requested, tx, change, fee) && IsEstimated(requested, change) && tx.inputs != []
    ensures Size(tx.inputs, tx.outputs) <= TX_MAX_SIZE
  {
    hide Size, Reaches, Enough, TxFee;
  }

  /**
   Unless all unspent outputs were needed, a transaction without change pays its fee exactly, or the dust limit more: with
   that rest the choice is content, but it is no change.
  */
  lemma RestIsExact(env: Env, utxos: seq<Outpoint>, n: nat, feePerKb: nat, requested: seq<TxOutput>, walletBalance: nat,
                    tx: Tx, fee: nat)
    requires Chosen(env, utxos, n, feePerKb, requested, OutputAmounts(requested), walletBalance) && n < |utxos|
    requires tx.inputs == InputsFor(env, utxos, n) && Sound(env, utxos, feePerKb, requested, tx, None, fee)
    requires fee == FeeFor(feePerKb, tx.inputs, requested, OutputAmounts(requested), walletBalance)
    ensures var paid := InputAmounts(tx.inputs) - OutputAmounts(tx.outputs);
      paid == fee || paid == fee + MinOutputAmount(feePerKb)
  {
    hide FeeFor, Reaches, MinOutputAmount, InputAmounts, OutputAmounts, SpendsUtxos, Unsigned;
  }

  lemma FeeCoversBoth(feePerKb: nat, inputs: seq<TxInput>, requested: seq<TxOutput>, outputs: seq<TxOutput>, fee: nat)
    requires fee >= BaseFee(feePerKb, inputs, requested)
    requires |outputs| <= |requested| + 1 && OutputsSize(outputs) <= OutputsSize(requested) + TX_OUTPUT_SIZE
    requires |requested| < 252
    ensures fee >= TxFee(feePerKb, Size(inputs, outputs))
    ensures Size(inputs, outputs) <= Size(inputs, requested) + TX_OUTPUT_SIZE
  {
    hide OutputsSize, InputsSize;
    TxFeeGrows(feePerKb, Size(inputs, outputs), Size(inputs, requested) + TX_OUTPUT_SIZE);
  }

  lemma MadeWithoutChange(env: Env, utxos: seq<Outpoint>, n: nat, feePerKb: nat, requested: seq<TxOutput>, tx: Tx,
                          fee: nat)
    requires IsNew(tx)
    requires n <= |utxos| && Distinct(utxos) && tx.inputs == InputsFor(env, utxos, n) && tx.outputs == requested
    requires fee >= BaseFee(feePerKb, tx.inputs, requested)
    requires fee <= InputAmounts(tx.inputs) - OutputAmounts(requested) <= fee + MinOutputAmount(feePerKb)
    ensures Sound(env, utxos, feePerKb, requested, tx, None, fee) && FeeCovers(feePerKb, requested, tx, None, fee)
  {
    hide SpendsUtxos, Unsigned, InputAmounts, OutputAmounts, MinOutputAmount, TxFee, BaseFee, Size;
    InputsForSpend(env, utxos, n);
    if |requested| < 252 { FeeCoversBoth(feePerKb, tx.inputs, requested, requested, fee); }
  }

  lemma MadeWithChange(env: Env, utxos: seq<Outpoint>, n: nat, feePerKb: nat, requested: seq<TxOutput>, tx: Tx,
                       o: TxOutput, fee: nat)
    requires IsNew(tx)
    requires n <= |utxos| && Distinct(utxos) && tx.inputs == InputsFor(env, utxos, n)
    requires fee >= BaseFee(feePerKb, tx.inputs, requested)
    requires multiset(tx.outputs) == multiset(requested + [o]) && |tx.outputs| == |requested| + 1
    requires OutputAmounts(tx.outputs) == OutputAmounts(requested + [o])
    requires OutputsSize(tx.outputs) == OutputsSize(requested + [o])
    requires o.amount == InputAmounts(tx.inputs) - OutputAmounts(requested) - fee && o.amount > MinOutputAmount(feePerKb)
    ensures Sound(env, utxos, feePerKb, requested, tx, Some(o), fee) && FeeCovers(feePerKb, requested, tx, Some(o), fee)
  {
    hide SpendsUtxos, Unsigned, InputAmounts, OutputAmounts, OutputsSize, MinOutputAmount, TxFee, BaseFee, Size;
    InputsForSpend(env, utxos, n);
    OutputAppend(requested, o);
    if |requested| < 252 && |o.script| <= 25 { FeeCoversBoth(feePerKb, tx.inputs, requested, tx.outputs, fee); }
  }
}
