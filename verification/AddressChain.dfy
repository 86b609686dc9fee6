/** Chains of derived addresses, and the gap of unused ones at their end. */
module AddressChain {
  import opened Transaction
  import opened Wrappers

  /** BRBIP32Sequence.h:43-44 */
  const GAP_LIMIT_EXTERNAL: nat := 10
  const GAP_LIMIT_INTERNAL: nat := 5

  /** Derives the address at an index of the internal or the external chain; opaque to this model. */
  type Derivation = (bool, nat) -> Option<Address>

  /** Derivation may fail, or give the empty address. */
  predicate Derivable(derive: Derivation, isInternal: bool, index: nat) {
    derive(isInternal, index).Some? && derive(isInternal, index).value != ""
  }

  ghost predicate Injective(derive: Derivation) {
    forall c, i: nat, j: nat :: Derivable(derive, c, i) && derive(c, i) == derive(c, j) ==> i == j
  }

  ghost predicate NeverFails(derive: Derivation) {
    forall c, i: nat :: Derivable(derive, c, i)
  }

  predicate IsChain(derive: Derivation, isInternal: bool, chain: seq<Address>) {
    forall k: nat :: k < |chain| ==> Derivable(derive, isInternal, k) && derive(isInternal, k).value == chain[k]
  }

  function Elements(chain: seq<Address>): set<Address> {
    set a | a in chain
  }

  lemma ElementsConcat(a: seq<Address>, b: seq<Address>)
    ensures Elements(a + b) == Elements(a) + Elements(b)
  {}

  /** The length of the chain up to and including its last used address. */
  function AfterLastUsed(chain: seq<Address>, used: set<Address>): (n: nat)
    ensures n <= |chain|
    ensures n > 0 ==> chain[n - 1] in used
    ensures forall k :: n <= k < |chain| ==> chain[k] !in used
  {
    if chain == [] then 0
    else if chain[|chain| - 1] in used then |chain|
    else AfterLastUsed(chain[..|chain| - 1], used)
  }

  lemma AfterLastUsedIs(chain: seq<Address>, used: set<Address>, n: nat)
    requires n <= |chain| && (n > 0 ==> chain[n - 1] in used)
    requires forall k :: n <= k < |chain| ==> chain[k] !in used
    ensures AfterLastUsed(chain, used) == n
  {}

  /** At least `gap` unused addresses follow the last used one. */
  predicate HasGap(chain: seq<Address>, used: set<Address>, gap: nat) {
    AfterLastUsed(chain, used) + gap <= |chain|
  }

  /** With fewer addresses in use the gap is no smaller. */
  lemma GapStays(chain: seq<Address>, used: set<Address>, used': set<Address>, gap: nat)
    requires HasGap(chain, used, gap) && used' <= used
    ensures HasGap(chain, used', gap)
  {
    var n := AfterLastUsed(chain, used');
    assert n > 0 ==> chain[n - 1] in used;
  }

  lemma NextIsNew(derive: Derivation, isInternal: bool, chain: seq<Address>)
    requires Injective(derive) && IsChain(derive, isInternal, chain) && Derivable(derive, isInternal, |chain|)
    ensures derive(isInternal, |chain|).value !in chain
  {
    forall k: nat | k < |chain|
      ensures derive(isInternal, k) != derive(isInternal, |chain|)
    {
      assert Derivable(derive, isInternal, k);
    }
  }

  /** Fewer used addresses are still to be generated. */
  lemma FewerMissing(used: set<Address>, chain: seq<Address>, a: Address)
    requires a !in chain
    ensures a in used ==> |used - Elements(chain + [a])| < |used - Elements(chain)|
    ensures a !in used ==> |used - Elements(chain + [a])| == |used - Elements(chain)|
  {
    var before, after := used - Elements(chain), used - Elements(chain + [a]);
    if a in used {
      assert before == after + {a};
    } else {
      assert before == after;
    }
  }

  lemma ChainGrows(derive: Derivation, isInternal: bool, chain: seq<Address>)
    requires IsChain(derive, isInternal, chain) && Derivable(derive, isInternal, |chain|)
    ensures IsChain(derive, isInternal, chain + [derive(isInternal, |chain|).value])
  {}
}
