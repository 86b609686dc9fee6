/**
 The attempts of the wallet to make a smaller transaction: when they end. Each attempt leaves room for the fee of the one
 before, which the balance rounds; the amounts therefore run through remainders modulo 100.
*/
module Attempts {
  import opened CoinSelection
  import opened Ledger
  import opened SmallerTx
  import opened Transaction
  import opened Wrappers

  /** What the choice of inputs depends on besides the outputs. */
  datatype Funds = Funds(env: Env, utxos: seq<Outpoint>, feePerKb: nat, balance: nat)

  /** The attempt exceeds the size limit with the `n`-th unspent output. */
  ghost predicate Hits(f: Funds, n: nat, outputs: seq<TxOutput>) {
    && 0 < n <= |f.utxos| && outputs != []
    && HitsLimit(f.env, f.utxos, n, f.feePerKb, outputs, OutputAmounts(outputs), f.balance)
  }

  /** It does, and the program tries again with a smaller last output. */
  ghost predicate Trying(f: Funds, n: nat, outputs: seq<TxOutput>) {
    Hits(f, n, outputs) && Reduces(f.env, f.utxos, n, f.feePerKb, outputs, f.balance)
  }

  function Next(f: Funds, n: nat, outputs: seq<TxOutput>): seq<TxOutput>
    requires 0 < n <= |f.utxos| && outputs != [] && Reduces(f.env, f.utxos, n, f.feePerKb, outputs, f.balance)
  {
    Smaller(f.env, f.utxos, n, f.feePerKb, outputs, f.balance).value
  }

  ghost predicate IsEnough(f: Funds, m: nat, outputs: seq<TxOutput>)
    requires m <= |f.utxos|
  {
    Enough(f.env, f.utxos, m, f.feePerKb, outputs, OutputAmounts(outputs), f.balance)
  }

  /** If an output can be reduced, some input fits. */
  lemma ReducesFits(f: Funds, n: nat, outputs: seq<TxOutput>)
    requires 0 < n <= |f.utxos| && outputs != [] && Reduces(f.env, f.utxos, n, f.feePerKb, outputs, f.balance)
    ensures InputsFor(f.env, f.utxos, n - 1) != []
  {
    hide FeeFor, BaseFee, MinOutputAmount, FeeOfAll;
    LastAmount(outputs);
    assert InputAmounts([]) == 0;
  }

  lemma TooLargeAlike(f: Funds, n: nat, outputs: seq<TxOutput>)
    requires 0 < n <= |f.utxos| && outputs != [] && Reduces(f.env, f.utxos, n, f.feePerKb, outputs, f.balance)
    ensures var next := Next(f, n, outputs);
      && next != [] && |next| == |outputs|
      && forall m: nat :: m <= n ==> TooLargeFor(f.env, f.utxos, m, next) == TooLargeFor(f.env, f.utxos, m, outputs)
  {
    hide Smaller, TooLargeFor;
    SmallerAmount(f.env, f.utxos, n, f.feePerKb, outputs, f.balance);
    forall m: nat | m <= n
      ensures TooLargeFor(f.env, f.utxos, m, Next(f, n, outputs)) == TooLargeFor(f.env, f.utxos, m, outputs)
    {
      SameSizes(f.env, f.utxos, m, f.feePerKb, outputs, Next(f, n, outputs));
    }
  }

  /** The next attempt exceeds the limit at the same place unless fewer inputs are enough for it. */
  lemma NextHits(f: Funds, n: nat, outputs: seq<TxOutput>)
    requires Trying(f, n, outputs)
    ensures Hits(f, n, Next(f, n, outputs)) <==> forall m: nat :: m < n ==> !IsEnough(f, m, Next(f, n, outputs))
  {
    hide Smaller, TooLargeFor, Enough, Next;
    TooLargeAlike(f, n, outputs);
    ReachesIs(f, n, Next(f, n, outputs));
  }

  lemma ReachesIs(f: Funds, n: nat, outputs: seq<TxOutput>)
    requires n <= |f.utxos| && forall m: nat :: m < n ==> !TooLargeFor(f.env, f.utxos, m, outputs)
    ensures Reaches(f.env, f.utxos, n, f.feePerKb, outputs, OutputAmounts(outputs), f.balance) <==>
            forall m: nat :: m < n ==> !IsEnough(f, m, outputs)
  {
    hide TooLargeFor, Enough;
    var amount := OutputAmounts(outputs);
    forall m: nat | m < n
      ensures IsEnough(f, m, outputs) == Enough(f.env, f.utxos, m, f.feePerKb, outputs, amount, f.balance)
    {}
    if Reaches(f.env, f.utxos, n, f.feePerKb, outputs, amount, f.balance) {
      forall m: nat | m < n
        ensures !IsEnough(f, m, outputs)
      {
        assert !Enough(f.env, f.utxos, m, f.feePerKb, outputs, amount, f.balance);
      }
    } else {
      var m: nat :| m < n && Enough(f.env, f.utxos, m, f.feePerKb, outputs, amount, f.balance);
      assert IsEnough(f, m, outputs);
    }
  }

  lemma {:induction false} FirstEnough(f: Funds, n: nat, outputs: seq<TxOutput>, m: nat) returns (k: nat)
    requires m < n <= |f.utxos| && IsEnough(f, m, outputs)
    requires forall j: nat :: j < n ==> !TooLargeFor(f.env, f.utxos, j, outputs)
    ensures k <= m && IsEnough(f, k, outputs)
    ensures Chosen(f.env, f.utxos, k, f.feePerKb, outputs, OutputAmounts(outputs), f.balance)
  {
    hide TooLargeFor, Enough;
    if j: nat :| j < m && IsEnough(f, j, outputs) {
      k := FirstEnough(f, n, outputs, j);
    } else {
      k := m;
      ReachesIs(f, m, outputs);
    }
  }

  /** If the rest of the balance is a multiple of 100, the next attempt ends with fewer inputs. */
  lemma NextEnds(f: Funds, n: nat, outputs: seq<TxOutput>) returns (m: nat)
    requires Trying(f, n, outputs) && f.balance >= Fitting(f.env, f.utxos, n)
    requires (f.balance - Fitting(f.env, f.utxos, n)) % 100 == 0
    ensures m < n && IsEnough(f, m, Next(f, n, outputs))
    ensures var next := Next(f, n, outputs);
      Chosen(f.env, f.utxos, m, f.feePerKb, next, OutputAmounts(next), f.balance)
  {
    hide Smaller, TooLargeFor, Enough;
    ReducesFits(f, n, outputs);
    SmallerIsEnough(f.env, f.utxos, n, f.feePerKb, outputs, f.balance);
    TooLargeAlike(f, n, outputs);
    m := FirstEnough(f, n, Next(f, n, outputs), n - 1);
  }

  // ---------- The remainders ----------

  function Base(f: Funds, n: nat, outputs: seq<TxOutput>): nat
    requires 0 < n <= |f.utxos|
  {
    BaseFee(f.feePerKb, InputsFor(f.env, f.utxos, n - 1), outputs)
  }

  function SurplusOf(f: Funds, n: nat, outputs: seq<TxOutput>): (r: nat)
    requires 0 < n <= |f.utxos|
    ensures r < 100
  {
    Surplus(f.feePerKb, InputsFor(f.env, f.utxos, n - 1), outputs, OutputAmounts(outputs), f.balance)
  }

  /** The last output leaves room for the other outputs, the fee, and `r`. */
  predicate HasRoom(f: Funds, n: nat, outputs: seq<TxOutput>, r: nat)
    requires 0 < n <= |f.utxos| && outputs != []
  {
    Fitting(f.env, f.utxos, n) >= Base(f, n, outputs) + OthersAmount(outputs) + r
  }

  function WithRemainder(f: Funds, n: nat, outputs: seq<TxOutput>, r: nat): seq<TxOutput>
    requires 0 < n <= |f.utxos| && outputs != [] && HasRoom(f, n, outputs, r)
  {
    WithLast(outputs, Fitting(f.env, f.utxos, n) - Base(f, n, outputs) - OthersAmount(outputs) - r)
  }

  /** The next outputs are determined by the surplus. */
  lemma NextIs(f: Funds, n: nat, outputs: seq<TxOutput>)
    requires 0 < n <= |f.utxos| && outputs != [] && Reduces(f.env, f.utxos, n, f.feePerKb, outputs, f.balance)
    ensures HasRoom(f, n, outputs, SurplusOf(f, n, outputs))
    ensures Next(f, n, outputs) == WithRemainder(f, n, outputs, SurplusOf(f, n, outputs))
  {
    hide FeeFor, BaseFee, MinOutputAmount, FeeOfAll, OutputAmounts, OthersAmount, InputAmounts, Surplus, WithLast;
    ReducesFits(f, n, outputs);
    LastAmount(outputs);
    FeeIs(f.feePerKb, InputsFor(f.env, f.utxos, n - 1), outputs, OutputAmounts(outputs), f.balance);
  }

  lemma Rounded(balance: nat, sum: nat, r: nat)
    requires r < 100 && sum >= r && balance >= sum
    ensures (if balance > sum - r then (balance - (sum - r)) % 100 else 0) == (r + (balance - sum)) % 100
  {}

  /** The other data of the next outputs are the same, and their surplus has moved on. */
  lemma NextSurplus(f: Funds, n: nat, outputs: seq<TxOutput>)
    requires 0 < n <= |f.utxos| && outputs != [] && Reduces(f.env, f.utxos, n, f.feePerKb, outputs, f.balance)
    requires f.balance >= Fitting(f.env, f.utxos, n)
    ensures var next := Next(f, n, outputs);
      && next != [] && Base(f, n, next) == Base(f, n, outputs) && OthersAmount(next) == OthersAmount(outputs)
      && SurplusOf(f, n, next) == (SurplusOf(f, n, outputs) + (f.balance - Fitting(f.env, f.utxos, n))) % 100
  {
    hide FeeFor, BaseFee, MinOutputAmount, OutputAmounts, OthersAmount, InputAmounts, Smaller, OutputsSize, InputsFor;
    var next, sum := Next(f, n, outputs), Fitting(f.env, f.utxos, n);
    ReducesFits(f, n, outputs);
    SmallerAmount(f.env, f.utxos, n, f.feePerKb, outputs, f.balance);
    SameSizes(f.env, f.utxos, n - 1, f.feePerKb, outputs, next);
    FeeIs(f.feePerKb, InputsFor(f.env, f.utxos, n - 1), outputs, OutputAmounts(outputs), f.balance);
    Rounded(f.balance, sum, SurplusOf(f, n, outputs));
  }

  lemma SameWithRemainder(f: Funds, n: nat, outputs: seq<TxOutput>, next: seq<TxOutput>, amount: nat, r: nat)
    requires 0 < n <= |f.utxos| && outputs != [] && next == WithLast(outputs, amount) && next != []
    requires Base(f, n, next) == Base(f, n, outputs) && OthersAmount(next) == OthersAmount(outputs)
    ensures HasRoom(f, n, next, r) == HasRoom(f, n, outputs, r)
    ensures HasRoom(f, n, next, r) ==> WithRemainder(f, n, next, r) == WithRemainder(f, n, outputs, r)
  {
    hide BaseFee, OthersAmount, InputAmounts;
  }

  // ---------- All attempts at one place ----------

  function AttemptAt(f: Funds, n: nat, outputs: seq<TxOutput>, k: nat): Option<seq<TxOutput>>
    requires 0 < n <= |f.utxos|
  {
    Attempt(f.env, f.utxos, n, f.feePerKb, outputs, f.balance, k)
  }

  /** The `k`-th attempt exceeds the limit at the same place, and the program tries again with a smaller last output. */
  ghost predicate TryingAt(f: Funds, n: nat, outputs: seq<TxOutput>, k: nat) {
    && 0 < n <= |f.utxos|
    && var attempt := AttemptAt(f, n, outputs, k);
       attempt.Some? && Trying(f, n, attempt.value)
  }

  function Remainder(f: Funds, n: nat, outputs: seq<TxOutput>, k: nat): nat
    requires 0 < n <= |f.utxos| && f.balance >= Fitting(f.env, f.utxos, n)
  {
    (SurplusOf(f, n, outputs) + k * (f.balance - Fitting(f.env, f.utxos, n))) % 100
  }

  lemma NextRemainder(s: nat, d: nat, k: nat)
    ensures ((s + k * d) % 100 + d) % 100 == (s + (k + 1) * d) % 100
  {
    AddModulo(s + k * d, d);
    assert s + k * d + d == s + (k + 1) * d;
  }

  lemma AddModulo(a: nat, b: nat)
    ensures (a % 100 + b) % 100 == (a + b) % 100
  {}

  lemma SameRemainderLater(s: nat, d: nat, k: nat)
    ensures (s + (k + 100) * d) % 100 == (s + k * d) % 100
  {
    assert s + (k + 100) * d == s + k * d + 100 * d;
    HundredsVanish(s + k * d, d);
  }

  lemma HundredsVanish(a: nat, d: nat)
    ensures (a + 100 * d) % 100 == a % 100
  {}

  /** What the `k`-th attempt has in common with the first. */
  ghost predicate Alike(f: Funds, n: nat, outputs: seq<TxOutput>, attempt: seq<TxOutput>, r: nat)
    requires 0 < n <= |f.utxos| && outputs != []
  {
    && attempt != [] && Base(f, n, attempt) == Base(f, n, outputs) && OthersAmount(attempt) == OthersAmount(outputs)
    && SurplusOf(f, n, attempt) == r && (attempt == outputs || exists amount: nat :: attempt == WithLast(outputs, amount))
  }

  lemma AlikeNext(f: Funds, n: nat, outputs: seq<TxOutput>, attempt: seq<TxOutput>, r: nat)
    requires 0 < n <= |f.utxos| && outputs != [] && f.balance >= Fitting(f.env, f.utxos, n)
    requires Alike(f, n, outputs, attempt, r) && Trying(f, n, attempt)
    ensures HasRoom(f, n, outputs, r) && Next(f, n, attempt) == WithRemainder(f, n, outputs, r)
    ensures Alike(f, n, outputs, Next(f, n, attempt), (r + (f.balance - Fitting(f.env, f.utxos, n))) % 100)
  {
    hide Next, Base, SurplusOf, OthersAmount, Hits;
    NextIs(f, n, attempt);
    NextSurplus(f, n, attempt);
    if amount: nat :| attempt == WithLast(outputs, amount) {
      SameWithRemainder(f, n, outputs, attempt, amount, r);
    }
  }

  /** The `k`-th attempt and the next one are those of the `k`-th remainder. */
  ghost predicate FollowsRemainders(f: Funds, n: nat, outputs: seq<TxOutput>, k: nat)
    requires 0 < n <= |f.utxos| && outputs != [] && f.balance >= Fitting(f.env, f.utxos, n)
  {
    var r, attempt := Remainder(f, n, outputs, k), AttemptAt(f, n, outputs, k);
    && attempt.Some? && Alike(f, n, outputs, attempt.value, r) && HasRoom(f, n, outputs, r)
    && AttemptAt(f, n, outputs, k + 1) == Some(WithRemainder(f, n, outputs, r))
  }

  lemma FollowsOn(f: Funds, n: nat, outputs: seq<TxOutput>, k: nat, attempt: seq<TxOutput>)
    requires 0 < n <= |f.utxos| && outputs != [] && f.balance >= Fitting(f.env, f.utxos, n)
    requires TryingAt(f, n, outputs, k) && AttemptAt(f, n, outputs, k) == Some(attempt)
    requires Alike(f, n, outputs, attempt, Remainder(f, n, outputs, k))
    ensures FollowsRemainders(f, n, outputs, k)
    ensures var next := AttemptAt(f, n, outputs, k + 1);
      next.Some? && Alike(f, n, outputs, next.value, Remainder(f, n, outputs, k + 1))
  {
    hide Trying, Alike, HasRoom, WithRemainder, SurplusOf, Fitting, AttemptAt, TryingAt, Next;
    AttemptNext(f, n, outputs, k);
    AlikeNext(f, n, outputs, attempt, Remainder(f, n, outputs, k));
    NextRemainder(SurplusOf(f, n, outputs), f.balance - Fitting(f.env, f.utxos, n), k);
  }

  /** The outputs of the attempts run through the remainders. */
  lemma {:induction false} AttemptIs(f: Funds, n: nat, outputs: seq<TxOutput>, k: nat)
    requires 0 < n <= |f.utxos| && outputs != [] && f.balance >= Fitting(f.env, f.utxos, n)
    requires forall j: nat :: j <= k ==> TryingAt(f, n, outputs, j)
    ensures FollowsRemainders(f, n, outputs, k)
    ensures var next := AttemptAt(f, n, outputs, k + 1);
      next.Some? && Alike(f, n, outputs, next.value, Remainder(f, n, outputs, k + 1))
  {
    hide TryingAt, Alike, HasRoom, WithRemainder, SurplusOf, Fitting, AttemptAt, FollowsRemainders, Remainder;
    assert TryingAt(f, n, outputs, k);
    if k == 0 {
      AlikeSelf(f, n, outputs);
      FollowsOn(f, n, outputs, 0, outputs);
    } else {
      AttemptIs(f, n, outputs, k - 1);
      FollowsOn(f, n, outputs, k, AttemptAt(f, n, outputs, k).value);
    }
  }

  lemma AlikeSelf(f: Funds, n: nat, outputs: seq<TxOutput>)
    requires 0 < n <= |f.utxos| && outputs != [] && f.balance >= Fitting(f.env, f.utxos, n)
    ensures Alike(f, n, outputs, outputs, Remainder(f, n, outputs, 0)) && AttemptAt(f, n, outputs, 0) == Some(outputs)
  {}

  lemma AttemptNext(f: Funds, n: nat, outputs: seq<TxOutput>, k: nat)
    requires TryingAt(f, n, outputs, k)
    ensures var attempt := AttemptAt(f, n, outputs, k).value;
      Trying(f, n, attempt) && AttemptAt(f, n, outputs, k + 1) == Some(Next(f, n, attempt))
  {}

  /** The attempts repeat with a period of 100. */
  lemma AttemptsRepeat(f: Funds, n: nat, outputs: seq<TxOutput>, k: nat)
    requires 0 < n <= |f.utxos| && outputs != [] && f.balance >= Fitting(f.env, f.utxos, n)
    requires k > 0 && forall j: nat :: j < k + 100 ==> TryingAt(f, n, outputs, j)
    ensures AttemptAt(f, n, outputs, k + 100) == AttemptAt(f, n, outputs, k)
  {
    hide TryingAt, AttemptAt, HasRoom, WithRemainder, SurplusOf, Fitting, Alike;
    AttemptIs(f, n, outputs, k - 1);
    AttemptIs(f, n, outputs, k + 99);
    SameRemainderLater(SurplusOf(f, n, outputs), f.balance - Fitting(f.env, f.utxos, n), k - 1);
    assert k - 1 + 100 == k + 99;
  }

  lemma {:induction false} TryingOn(f: Funds, n: nat, outputs: seq<TxOutput>, k: nat)
    requires 0 < n <= |f.utxos| && outputs != [] && f.balance >= Fitting(f.env, f.utxos, n)
    requires forall j: nat :: j <= 100 ==> TryingAt(f, n, outputs, j)
    ensures forall j: nat :: j <= k ==> TryingAt(f, n, outputs, j)
  {
    if k > 100 {
      TryingOn(f, n, outputs, k - 1);
      AttemptsRepeat(f, n, outputs, k - 100);
      assert TryingAt(f, n, outputs, k - 100);
      hide Trying, AttemptAt;
      assert TryingAt(f, n, outputs, k);
    }
  }

  /** The program goes on trying at one place for ever exactly if the first 101 attempts do. */
  lemma ForeverIff(f: Funds, n: nat, outputs: seq<TxOutput>)
    requires 0 < n <= |f.utxos| && outputs != [] && f.balance >= Fitting(f.env, f.utxos, n)
    ensures (forall k: nat :: TryingAt(f, n, outputs, k)) <==> (forall k: nat :: k <= 100 ==> TryingAt(f, n, outputs, k))
  {
    hide TryingAt;
    if forall k: nat :: k <= 100 ==> TryingAt(f, n, outputs, k) {
      forall k: nat
        ensures TryingAt(f, n, outputs, k)
      {
        TryingOn(f, n, outputs, k);
      }
    }
  }

  /** The amount that leaves room for `r` is one with which the program tries again. */
  ghost predicate TriesWith(f: Funds, n: nat, outputs: seq<TxOutput>, r: nat)
    requires 0 < n <= |f.utxos| && outputs != []
  {
    HasRoom(f, n, outputs, r) && Trying(f, n, WithRemainder(f, n, outputs, r))
  }

  lemma FirstTryIs(f: Funds, n: nat, outputs: seq<TxOutput>)
    requires 0 < n <= |f.utxos|
    ensures TryingAt(f, n, outputs, 0) <==> Trying(f, n, outputs)
  {}

  lemma RemainderTried(f: Funds, n: nat, outputs: seq<TxOutput>, k: nat)
    requires 0 < n <= |f.utxos| && outputs != [] && f.balance >= Fitting(f.env, f.utxos, n)
    requires FollowsRemainders(f, n, outputs, k)
    ensures TryingAt(f, n, outputs, k + 1) <==> TriesWith(f, n, outputs, Remainder(f, n, outputs, k))
  {
    hide Trying, AttemptAt, HasRoom, WithRemainder, SurplusOf, Fitting, Alike, Remainder;
  }

  lemma {:induction false} TryingByRemainders(f: Funds, n: nat, outputs: seq<TxOutput>, k: nat)
    requires 0 < n <= |f.utxos| && outputs != [] && Trying(f, n, outputs) && k <= 100
    requires f.balance >= Fitting(f.env, f.utxos, n)
    requires forall j: nat :: j < 100 ==> TriesWith(f, n, outputs, Remainder(f, n, outputs, j))
    ensures forall j: nat :: j <= k ==> TryingAt(f, n, outputs, j)
  {
    hide Trying, AttemptAt, HasRoom, WithRemainder, SurplusOf, Fitting, Alike, Remainder, TryingAt, TriesWith;
    if k == 0 {
      FirstTryIs(f, n, outputs);
    } else {
      TryingByRemainders(f, n, outputs, k - 1);
      AttemptIs(f, n, outputs, k - 1);
      assert TriesWith(f, n, outputs, Remainder(f, n, outputs, k - 1));
      RemainderTried(f, n, outputs, k - 1);
    }
  }

  /**
   In terms of the remainders: the program tries with the outputs it starts from and with every amount that leaves room
   for one of the remainders the surplus runs through.
  */
  lemma ForeverByRemainders(f: Funds, n: nat, outputs: seq<TxOutput>)
    requires 0 < n <= |f.utxos| && outputs != [] && f.balance >= Fitting(f.env, f.utxos, n)
    ensures (forall k: nat :: TryingAt(f, n, outputs, k)) <==>
            && Trying(f, n, outputs)
            && forall k: nat :: k < 100 ==> TriesWith(f, n, outputs, Remainder(f, n, outputs, k))
  {
    AlikeSelf(f, n, outputs);
    hide Trying, AttemptAt, HasRoom, WithRemainder, SurplusOf, Fitting, Alike, Remainder;
    if forall k: nat :: TryingAt(f, n, outputs, k) {
      assert TryingAt(f, n, outputs, 0);
      forall k: nat | k < 100
        ensures TriesWith(f, n, outputs, Remainder(f, n, outputs, k))
      {
        AttemptIs(f, n, outputs, k);
        assert TryingAt(f, n, outputs, k + 1);
      }
    }
    if Trying(f, n, outputs) && forall k: nat :: k < 100 ==> TriesWith(f, n, outputs, Remainder(f, n, outputs, k)) {
      TryingByRemainders(f, n, outputs, 100);
      ForeverIff(f, n, outputs);
    }
  }

  // ---------- All attempts ----------

  /** The outputs the program tries next, wherever the attempt exceeds the limit; none if it ends. */
  ghost function Then(f: Funds, outputs: seq<TxOutput>): Option<seq<TxOutput>> {
    if n: nat :| Hits(f, n, outputs) then
      var next := Smaller(f.env, f.utxos, n, f.feePerKb, outputs, f.balance);
      if next == Some([]) then None else next
    else None
  }

  /** The outputs of the `k`-th attempt, counted from 0, if there is one. */
  ghost function Try(f: Funds, outputs: seq<TxOutput>, k: nat): Option<seq<TxOutput>> {
    if k == 0 then Some(outputs)
    else
      var before := Try(f, outputs, k - 1);
      if before.None? then None else Then(f, before.value)
  }

  lemma HitsOnce(f: Funds, n: nat, m: nat, outputs: seq<TxOutput>)
    requires Hits(f, n, outputs) && Hits(f, m, outputs)
    ensures n == m
  {
    hide Enough, TooLargeFor;
  }

  lemma ThenIs(f: Funds, n: nat, outputs: seq<TxOutput>)
    requires Hits(f, n, outputs)
    ensures var next := Smaller(f.env, f.utxos, n, f.feePerKb, outputs, f.balance);
      Then(f, outputs) == if next == Some([]) then None else next
  {
    hide Smaller, HitsLimit;
    var m: nat :| Hits(f, m, outputs)
      && Then(f, outputs) == (var next := Smaller(f.env, f.utxos, m, f.feePerKb, outputs, f.balance);
                              if next == Some([]) then None else next);
    HitsOnce(f, n, m, outputs);
  }

  /** Trying again does not add outputs, and as many are as large. */
  lemma ThenShorter(f: Funds, outputs: seq<TxOutput>) returns (n: nat)
    requires Then(f, outputs).Some?
    ensures Hits(f, n, outputs)
    ensures Then(f, outputs) == Smaller(f.env, f.utxos, n, f.feePerKb, outputs, f.balance)
    ensures var next := Then(f, outputs).value;
      && 0 < |next| <= |outputs|
      && (|next| == |outputs| ==> Trying(f, n, outputs) && OutputsSize(next) == OutputsSize(outputs))
  {
    hide HitsLimit;
    n :| Hits(f, n, outputs);
    ThenIs(f, n, outputs);
    var next := Then(f, outputs).value;
    SmallerLength(f, n, outputs);
    hide Smaller;
    if |next| == |outputs| { SmallerAmount(f.env, f.utxos, n, f.feePerKb, outputs, f.balance); }
  }

  lemma SmallerLength(f: Funds, n: nat, outputs: seq<TxOutput>)
    requires 0 < n <= |f.utxos| && outputs != []
    ensures var next := Smaller(f.env, f.utxos, n, f.feePerKb, outputs, f.balance);
      next.Some? ==> |next.value| <= |outputs|
  {
    hide InputAmounts, FeeAt, MinOutputAmount, FeeOfAll, OutputAmounts;
  }

  lemma {:induction false} TryShorter(f: Funds, outputs: seq<TxOutput>, k: nat)
    requires outputs != [] && Try(f, outputs, k).Some?
    ensures var attempt := Try(f, outputs, k).value;
      0 < |attempt| <= |outputs| && (|attempt| == |outputs| ==> OutputsSize(attempt) == OutputsSize(outputs))
    ensures forall j: nat :: j <= k ==> Try(f, outputs, j).Some? && |Try(f, outputs, j).value| >= |Try(f, outputs, k).value|
  {
    hide Then, OutputsSize;
    if k > 0 {
      TryShorter(f, outputs, k - 1);
      var n := ThenShorter(f, Try(f, outputs, k - 1).value);
    }
  }

  lemma {:induction false} TryFurther(f: Funds, outputs: seq<TxOutput>, i: nat, j: nat)
    requires Try(f, outputs, i).Some?
    ensures Try(f, outputs, i + j) == Try(f, Try(f, outputs, i).value, j)
  {
    hide Then;
    if j > 0 {
      TryFurther(f, outputs, i, j - 1);
      assert i + j - 1 == i + (j - 1);
    }
  }

  /** Outputs of the same size exceed the limit at the same place. */
  lemma SamePlace(f: Funds, n: nat, m: nat, outputs: seq<TxOutput>, attempt: seq<TxOutput>)
    requires Hits(f, n, outputs) && Hits(f, m, attempt)
    requires |attempt| == |outputs| && OutputsSize(attempt) == OutputsSize(outputs)
    ensures m == n
  {
    SameSizes(f.env, f.utxos, n, f.feePerKb, outputs, attempt);
    SameSizes(f.env, f.utxos, m, f.feePerKb, outputs, attempt);
    hide Enough, TooLargeFor;
  }

  lemma FirstTry(f: Funds, n: nat, outputs: seq<TxOutput>)
    requires 0 < n <= |f.utxos|
    ensures AttemptAt(f, n, outputs, 0) == Try(f, outputs, 0) == Some(outputs)
  {}

  lemma TryBefore(f: Funds, outputs: seq<TxOutput>, k: nat)
    requires k > 0 && outputs != [] && Try(f, outputs, k).Some? && |Try(f, outputs, k).value| == |outputs|
    ensures var before := Try(f, outputs, k - 1);
      && before.Some? && |before.value| == |outputs| && OutputsSize(before.value) == OutputsSize(outputs)
      && Try(f, outputs, k) == Then(f, before.value)
  {
    hide Then, OutputsSize;
    TryShorter(f, outputs, k);
    TryShorter(f, outputs, k - 1);
  }

  lemma OnePlaceStep(f: Funds, n: nat, outputs: seq<TxOutput>, k: nat)
    requires 0 < n <= |f.utxos| && outputs != [] && Hits(f, n, outputs) && k > 0
    requires AttemptAt(f, n, outputs, k - 1) == Try(f, outputs, k - 1)
    requires Try(f, outputs, k).Some? && |Try(f, outputs, k).value| == |outputs|
    ensures AttemptAt(f, n, outputs, k) == Try(f, outputs, k) && TryingAt(f, n, outputs, k - 1)
  {
    hide Then, Trying, OutputsSize, Smaller, AttemptAt, TryingAt, Hits, Try, Reduces, HitsLimit;
    TryBefore(f, outputs, k);
    var attempt := Try(f, outputs, k - 1).value;
    var m := ThenShorter(f, attempt);
    SamePlace(f, n, m, outputs, attempt);
    TriedAt(f, n, outputs, k - 1, attempt);
  }

  /** While no output is removed, the attempts stay at one place. */
  lemma {:induction false} OnePlace(f: Funds, n: nat, outputs: seq<TxOutput>, k: nat)
    requires 0 < n <= |f.utxos| && outputs != [] && Hits(f, n, outputs)
    requires Try(f, outputs, k).Some? && |Try(f, outputs, k).value| == |outputs|
    ensures AttemptAt(f, n, outputs, k) == Try(f, outputs, k)
    ensures forall j: nat :: j < k ==> TryingAt(f, n, outputs, j)
  {
    hide Then, AttemptAt, TryingAt, Hits, Try;
    if k == 0 {
      FirstTry(f, n, outputs);
    } else {
      TryBefore(f, outputs, k);
      OnePlace(f, n, outputs, k - 1);
      OnePlaceStep(f, n, outputs, k);
    }
  }

  lemma TriedAt(f: Funds, n: nat, outputs: seq<TxOutput>, k: nat, attempt: seq<TxOutput>)
    requires 0 < n <= |f.utxos| && AttemptAt(f, n, outputs, k) == Some(attempt) && Trying(f, n, attempt)
    ensures TryingAt(f, n, outputs, k)
    ensures AttemptAt(f, n, outputs, k + 1) == Smaller(f.env, f.utxos, n, f.feePerKb, attempt, f.balance)
  {
    hide Smaller;
  }

  /** If the program goes on trying at one place, these are its attempts. */
  lemma {:induction false} StaysAt(f: Funds, n: nat, outputs: seq<TxOutput>, k: nat)
    requires 0 < n <= |f.utxos| && outputs != [] && forall j: nat :: j < k ==> TryingAt(f, n, outputs, j)
    ensures Try(f, outputs, k) == AttemptAt(f, n, outputs, k) && Try(f, outputs, k).Some?
  {
    if k > 0 {
      hide Then, Trying, Smaller, AttemptAt, TryingAt;
      StaysAt(f, n, outputs, k - 1);
      AttemptNext(f, n, outputs, k - 1);
      ThenTried(f, n, AttemptAt(f, n, outputs, k - 1).value);
    } else {
      hide Then, TryingAt;
    }
  }

  lemma ThenTried(f: Funds, n: nat, outputs: seq<TxOutput>)
    requires Trying(f, n, outputs)
    ensures Then(f, outputs) == Some(Next(f, n, outputs))
  {
    hide Then, Smaller, HitsLimit, TooLargeFor;
    ThenIs(f, n, outputs);
    TooLargeAlike(f, n, outputs);
  }

  lemma FittingBound(f: Funds, n: nat)
    requires 0 < n <= |f.utxos| && f.balance >= Sum(f.env, f.utxos)
    ensures f.balance >= Fitting(f.env, f.utxos, n)
  {
    InputsForAmount(f.env, f.utxos, n - 1);
    SumConcat(f.env, f.utxos[..n - 1], f.utxos[n - 1..]);
    assert f.utxos == f.utxos[..n - 1] + f.utxos[n - 1..];
  }

  lemma {:induction false} GoesOn(f: Funds, outputs: seq<TxOutput>, k: nat)
    requires outputs != [] && f.balance >= Sum(f.env, f.utxos) && Try(f, outputs, 101 * |outputs|).Some?
    ensures Try(f, outputs, k).Some?
    decreases |outputs|
  {
    hide Then, Trying;
    var all := 101 * |outputs|;
    TryShorter(f, outputs, all);
    assert Try(f, outputs, 1).Some? && Try(f, outputs, 101).Some?;
    var attempt := Try(f, outputs, 101).value;
    TryShorter(f, outputs, 101);
    if |attempt| == |outputs| {
      assert Try(f, outputs, 0) == Some(outputs) && Try(f, outputs, 1) == Then(f, outputs);
      var n := ThenShorter(f, outputs);
      OnePlace(f, n, outputs, 101);
      FittingBound(f, n);
      ForeverIff(f, n, outputs);
      StaysAt(f, n, outputs, k);
    } else {
      TryFurther(f, outputs, 101, all - 101);
      var less := 101 * |attempt|;
      assert less <= all - 101;
      TryShorter(f, attempt, all - 101);
      GoesOn(f, attempt, k);
      TryFurther(f, outputs, 101, k);
      TryShorter(f, outputs, 101 + k);
    }
  }

  /**
   With a balance that is at least the value of the unspent outputs, the attempts end exactly if they end within 101 for
   each of the outputs.
  */
  lemma AttemptsEnd(f: Funds, outputs: seq<TxOutput>)
    requires outputs != [] && f.balance >= Sum(f.env, f.utxos)
    ensures (exists k: nat :: Try(f, outputs, k).None?) <==> Try(f, outputs, 101 * |outputs|).None?
  {
    hide Then;
    if Try(f, outputs, 101 * |outputs|).Some? {
      forall k: nat
        ensures Try(f, outputs, k).Some?
      {
        GoesOn(f, outputs, k);
      }
    }
  }

  /** The states without end of `SmallerTx` are such a case. */
  lemma StuckTries(f: Funds, n: nat, outputs: seq<TxOutput>, k: nat)
    requires Stuck(f.env, f.utxos, n, f.feePerKb, outputs, f.balance)
    ensures TryingAt(f, n, outputs, k) && Try(f, outputs, k).Some?
  {
    forall j: nat | j <= k
      ensures TryingAt(f, n, outputs, j)
    {
      hide Smaller;
      StuckForever(f.env, f.utxos, n, f.feePerKb, outputs, f.balance, j);
      StuckReduces(f.env, f.utxos, n, f.feePerKb, AttemptAt(f, n, outputs, j).value, f.balance);
    }
    hide TryingAt;
    StaysAt(f, n, outputs, k);
  }
}
