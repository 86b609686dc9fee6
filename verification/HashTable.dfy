/**
 Open addressing with linear probing, on sequences of buckets: what a probe finds, and what placing an item and
 emptying a bucket do to the invariant that makes probes correct.
*/
module HashTable {
  import opened Wrappers

  /** The hash and equality functions of a set. */
  datatype Ops<!T> = Ops(hash: T -> nat, eq: (T, T) -> bool)

  /** `eq` is an equivalence, and equal items have equal hashes. */
  ghost predicate Contract<T(!new)>(ops: Ops<T>) {
    && (forall x :: ops.eq(x, x))
    && (forall x, y :: ops.eq(x, y) ==> ops.eq(y, x))
    && (forall x, y, z :: ops.eq(x, y) && ops.eq(y, z) ==> ops.eq(x, z))
    && (forall x, y :: ops.eq(x, y) ==> ops.hash(x) == ops.hash(y))
  }

  type Table<T> = seq<Option<T>>

  // ---------- Positions on the circle of buckets ----------

  function Next(i: nat, size: nat): (j: nat)
    requires i < size
    ensures j < size
  {
    if i + 1 == size then 0 else i + 1
  }

  /** How many steps forward lead from bucket `a` to bucket `b`. */
  function Steps(a: nat, b: nat, size: nat): (d: nat)
    requires a < size && b < size
    ensures d < size
  {
    if a <= b then b - a else size + b - a
  }

  /** Bucket `k` is met on the way from `a` to `b`, both included. */
  predicate OnPath(a: nat, k: nat, b: nat, size: nat)
    requires a < size && b < size && k < size
  {
    Steps(a, k, size) <= Steps(a, b, size)
  }

  function Home<T>(ops: Ops<T>, x: T, size: nat): (i: nat)
    requires size > 0
    ensures i < size
  {
    ops.hash(x) % size
  }

  // ---------- Invariant ----------

  predicate Same<T>(ops: Ops<T>, a: Option<T>, b: Option<T>) {
    a.Some? && b.Some? && ops.eq(a.value, b.value)
  }

  /** No two buckets hold equal items. */
  ghost predicate Unique<T(!new)>(ops: Ops<T>, t: Table<T>) {
    forall i, j :: 0 <= i < |t| && 0 <= j < |t| && i != j ==> !Same(ops, t[i], t[j])
  }

  /** The item in bucket `j` is found by a probe from its home: no bucket on the way is empty. */
  ghost predicate Reachable<T(!new)>(ops: Ops<T>, t: Table<T>, j: nat)
    requires j < |t| && t[j].Some?
  {
    forall k: nat :: k < |t| && OnPath(Home(ops, t[j].value, |t|), k, j, |t|) ==> t[k].Some?
  }

  ghost predicate AllReachable<T(!new)>(ops: Ops<T>, t: Table<T>) {
    forall j: nat :: j < |t| && t[j].Some? ==> Reachable(ops, t, j)
  }

  // ---------- Probing ----------

  predicate Stops<T(==)>(ops: Ops<T>, b: Option<T>, x: T) {
    b.None? || b.value == x || ops.eq(b.value, x)
  }

  /** Bucket `i` is where a probe for `x` stops. */
  ghost predicate FoundAt<T(!new)>(ops: Ops<T>, t: Table<T>, x: T, i: nat) {
    && i < |t|
    && Stops(ops, t[i], x)
    && forall k: nat :: k < |t| && k != i && OnPath(Home(ops, x, |t|), k, i, |t|) ==> !Stops(ops, t[k], x)
  }

  function Occupied<T>(t: Table<T>): (s: set<nat>)
    ensures forall i :: i in s <==> 0 <= i < |t| && t[i].Some?
  {
    set i: nat | i < |t| && t[i].Some?
  }

  function Items<T>(t: Table<T>): (s: set<T>)
    ensures forall i :: 0 <= i < |t| && t[i].Some? ==> t[i].value in s
  {
    set i: nat | i < |t| && t[i].Some? :: t[i].value
  }

  /** A probe for `x` stops at an item exactly when some item equals `x`, and then at that item. */
  lemma ProbeFinds<T(!new)>(ops: Ops<T>, t: Table<T>, x: T, i: nat, j: nat)
    requires Contract(ops) && Unique(ops, t) && AllReachable(ops, t) && FoundAt(ops, t, x, i)
    requires j < |t| && t[j].Some? && ops.eq(t[j].value, x)
    ensures i == j
  {
    var h := Home(ops, x, |t|);
    assert Home(ops, t[j].value, |t|) == h && Reachable(ops, t, j);
    assert Stops(ops, t[j], x);
    if i != j {
      assert OnPath(h, i, j, |t|);
      assert t[i].Some?;
      assert Same(ops, t[i], t[j]);
    }
  }

  /** Storing `x` where its probe stops keeps every item reachable. */
  lemma PlaceReachable<T(!new)>(ops: Ops<T>, t: Table<T>, x: T, i: nat)
    requires Contract(ops) && AllReachable(ops, t) && FoundAt(ops, t, x, i)
    ensures AllReachable(ops, t[i := Some(x)])
  {
    var t' := t[i := Some(x)];
    forall j: nat | j < |t'| && t'[j].Some?
      ensures Reachable(ops, t', j)
    {
      if j != i {
        assert Reachable(ops, t, j);
      }
    }
  }

  lemma PlaceUnique<T(!new)>(ops: Ops<T>, t: Table<T>, x: T, i: nat)
    requires Contract(ops) && Unique(ops, t) && i < |t|
    requires forall j :: 0 <= j < |t| && j != i ==> !Same(ops, t[j], Some(x))
    ensures Unique(ops, t[i := Some(x)])
  {}

  lemma PlaceItems<T(!new)>(ops: Ops<T>, t: Table<T>, x: T, i: nat)
    requires Contract(ops) && Unique(ops, t) && i < |t|
    requires t[i].Some? ==> ops.eq(t[i].value, x)
    requires forall j :: 0 <= j < |t| && j != i ==> !Same(ops, t[j], Some(x))
    ensures Items(t[i := Some(x)]) == (set y | y in Items(t) && !ops.eq(y, x)) + {x}
  {
    var t' := t[i := Some(x)];
    assert t'[i].value == x;
    forall y | y in Items(t) && !ops.eq(y, x)
      ensures y in Items(t')
    {
      var j: nat :| j < |t| && t[j].Some? && t[j].value == y;
      assert t'[j].value == y;
    }
    forall y | y in Items(t')
      ensures y == x || (y in Items(t) && !ops.eq(y, x))
    {
      var j: nat :| j < |t'| && t'[j].Some? && t'[j].value == y;
      assert j != i ==> t[j].value == y && !Same(ops, t[j], Some(x));
    }
  }

  lemma EmptyItems<T(!new)>(ops: Ops<T>, t: Table<T>, i: nat)
    requires Contract(ops) && Unique(ops, t) && i < |t| && t[i].Some?
    ensures Items(t[i := None]) == Items(t) - {t[i].value}
    ensures Unique(ops, t[i := None])
  {
    var t' := t[i := None];
    forall y | y in Items(t) && y != t[i].value
      ensures y in Items(t')
    {
      var j: nat :| j < |t| && t[j].Some? && t[j].value == y;
      assert t'[j].value == y;
    }
    forall y | y in Items(t')
      ensures y in Items(t) && y != t[i].value
    {
      var j: nat :| j < |t'| && t'[j].Some? && t'[j].value == y;
      assert t[j].value == y && !Same(ops, t[j], t[i]);
    }
  }

  // ---------- Counting ----------

  ghost function Below(n: nat): (s: set<nat>)
    ensures |s| == n
    ensures forall i :: i in s <==> 0 <= i < n
  {
    if n == 0 then {} else Below(n - 1) + {n - 1}
  }

  lemma FullCount<T>(t: Table<T>)
    requires forall i: nat :: i < |t| ==> t[i].Some?
    ensures |Occupied(t)| == |t|
  {
    assert Occupied(t) == Below(|t|);
  }

  /** A table with fewer items than buckets has an empty bucket. */
  lemma EmptyBucket<T>(t: Table<T>)
    requires |Occupied(t)| < |t|
    ensures exists e: nat :: e < |t| && t[e].None?
  {
    if forall i: nat :: i < |t| ==> t[i].Some? {
      FullCount(t);
    }
  }

  lemma PlaceCount<T>(t: Table<T>, x: T, i: nat)
    requires i < |t|
    ensures |Occupied(t[i := Some(x)])| == |Occupied(t)| + if t[i].None? then 1 else 0
  {
    assert Occupied(t[i := Some(x)]) == Occupied(t) + {i};
  }

  lemma EmptyCount<T>(t: Table<T>, i: nat)
    requires i < |t| && t[i].Some?
    ensures |Occupied(t[i := None])| == |Occupied(t)| - 1
  {
    assert Occupied(t[i := None]) == Occupied(t) - {i};
  }

  /** The number of occupied buckets is the number of items. */
  lemma {:induction false} CountIsExact<T(!new)>(ops: Ops<T>, t: Table<T>)
    requires Contract(ops) && Unique(ops, t)
    ensures |Items(t)| == |Occupied(t)|
    decreases |Occupied(t)|
  {
    if i: nat :| i < |t| && t[i].Some? {
      EmptyItems(ops, t, i);
      EmptyCount(t, i);
      CountIsExact(ops, t[i := None]);
    } else {
      assert Occupied(t) == {} && Items(t) == {};
    }
  }

  // ---------- Removal ----------

  /** Bucket `k` lies at or after `i` on the way around from `p`. */
  predicate Ahead(p: nat, i: nat, k: nat, size: nat)
    requires p < size && i < size && k < size
  {
    Steps(p, i, size) <= Steps(p, k, size)
  }

  /** The first empty bucket after `p` in a valid table whose bucket `p` is occupied. */
  ghost predicate ClusterEnd<T(!new)>(t: Table<T>, p: nat, e: nat) {
    && p < |t| && e < |t| && t[e].None?
    && forall k: nat :: k < |t| && Steps(p, k, |t|) < Steps(p, e, |t|) ==> t[k].Some?
  }

  /**
   The state of the clean-up that follows a removal from bucket `p`: the buckets from `i` round to `p` are those
   of the original table `t0`, every item outside the still untouched part of the cluster is reachable, and an
   item now in an earlier bucket came from a bucket at or after it, still before `i`.
  */
  ghost predicate CleaningUp<T(!new)>(ops: Ops<T>, t0: Table<T>, t: Table<T>, p: nat, i: nat, e: nat) {
    && |t| == |t0| && i < |t| && i != p && ClusterEnd(t0, p, e) && Ahead(p, i, e, |t|)
    && (forall k: nat :: k < |t| && Ahead(p, i, k, |t|) ==> t[k] == t0[k])
    && Unique(ops, t)
    && (forall j: nat :: j < |t| && t[j].Some? && !(Ahead(p, i, j, |t|) && !Ahead(p, e, j, |t|)) ==>
          Reachable(ops, t, j))
    && (forall k: nat :: k < |t| && !Ahead(p, i, k, |t|) && t[k].Some? ==>
          exists q: nat :: q < |t| && !Ahead(p, i, q, |t|) && Ahead(p, k, q, |t|) && t0[q] == t[k])
  }

  /** Every item now in a bucket came from that bucket or from a later one on the way round from `p`. */
  ghost predicate Relocated<T(!new)>(t0: Table<T>, t: Table<T>, p: nat) {
    && p < |t| == |t0|
    && forall k: nat :: k < |t| && t[k].Some? ==>
         exists q: nat :: q < |t| && Ahead(p, k, q, |t|) && t0[q] == t[k]
  }

  lemma RemovalStarts<T(!new)>(ops: Ops<T>, t0: Table<T>, p: nat, e: nat)
    requires Contract(ops) && Unique(ops, t0) && AllReachable(ops, t0)
    requires p < |t0| && t0[p].Some? && ClusterEnd(t0, p, e)
    ensures CleaningUp(ops, t0, t0[p := None], p, Next(p, |t0|), e)
  {
    var t, i := t0[p := None], Next(p, |t0|);
    EmptyItems(ops, t0, p);
    forall j: nat | j < |t| && t[j].Some? && !(Ahead(p, i, j, |t|) && !Ahead(p, e, j, |t|))
      ensures Reachable(ops, t, j)
    {
      assert Reachable(ops, t0, j);
      NotThrough(ops, t0, p, e, j, p);
    }
  }

  /** The path of an item outside the cluster that starts at `p` does not lead through the cluster. */
  lemma NotThrough<T(!new)>(ops: Ops<T>, t: Table<T>, p: nat, e: nat, j: nat, i: nat)
    requires p < |t| && e < |t| && t[e].None? && i < |t| && j < |t| && t[j].Some? && Reachable(ops, t, j)
    requires !Ahead(p, e, i, |t|) && (Ahead(p, e, j, |t|) || !Ahead(p, i, j, |t|))
    ensures !OnPath(Home(ops, t[j].value, |t|), i, j, |t|)
  {
    assert !OnPath(Home(ops, t[j].value, |t|), e, j, |t|);
  }

  /** The item taken from bucket `i` is stored again at or after `p`, no further than `i`, in an empty bucket. */
  lemma LandsBetween<T(!new)>(ops: Ops<T>, t0: Table<T>, t: Table<T>, p: nat, i: nat, e: nat, s: nat)
    requires Contract(ops) && AllReachable(ops, t0) && CleaningUp(ops, t0, t, p, i, e) && t[i].Some?
    requires FoundAt(ops, t[i := None], t[i].value, s)
    ensures i != e && !Ahead(p, Next(i, |t|), s, |t|) && t[i := None][s].None?
  {
    var x, t', size := t[i].value, t[i := None], |t|;
    var h := Home(ops, x, size);
    assert t[i] == t0[i] && Reachable(ops, t0, i);
    assert Stops(ops, t'[i], x);
    assert OnPath(h, s, i, size);
    assert t'[s].Some? ==> Same(ops, t[s], t[i]);
  }

  /** Taking an item out and storing it again changes neither the items nor their distinctness. */
  lemma MoveItems<T(!new)>(ops: Ops<T>, t: Table<T>, i: nat, s: nat)
    requires Contract(ops) && Unique(ops, t) && i < |t| && s < |t| && t[i].Some? && t[i := None][s].None?
    ensures Unique(ops, t[i := None][s := t[i]]) && Items(t[i := None][s := t[i]]) == Items(t)
  {
    var x, t' := t[i].value, t[i := None];
    EmptyItems(ops, t, i);
    assert forall j :: 0 <= j < |t'| && t'[j].Some? ==> !Same(ops, t[j], t[i]);
    PlaceUnique(ops, t', x, s);
    PlaceItems(ops, t', x, s);
    forall y | y in Items(t')
      ensures !ops.eq(y, x)
    {
      var j: nat :| j < |t'| && t'[j].Some? && t'[j].value == y;
      assert !Same(ops, t[j], t[i]);
    }
  }

  lemma MoveReachable<T(!new)>(ops: Ops<T>, t0: Table<T>, t: Table<T>, p: nat, i: nat, e: nat, s: nat, j: nat)
    requires Contract(ops) && AllReachable(ops, t0) && CleaningUp(ops, t0, t, p, i, e) && t[i].Some?
    requires FoundAt(ops, t[i := None], t[i].value, s)
    requires j < |t| && t[i := None][s := t[i]][j].Some?
    requires !(Ahead(p, Next(i, |t|), j, |t|) && !Ahead(p, e, j, |t|))
    ensures Reachable(ops, t[i := None][s := t[i]], j)
  {
    LandsBetween(ops, t0, t, p, i, e, s);
    if j != s {
      assert Reachable(ops, t, j);
      NotThrough(ops, t, p, e, j, i);
    }
  }

  lemma MovedBack<T(!new)>(ops: Ops<T>, t0: Table<T>, t: Table<T>, p: nat, i: nat, e: nat, s: nat, k: nat)
    requires Contract(ops) && AllReachable(ops, t0) && CleaningUp(ops, t0, t, p, i, e) && t[i].Some?
    requires FoundAt(ops, t[i := None], t[i].value, s)
    requires k < |t| && !Ahead(p, Next(i, |t|), k, |t|) && t[i := None][s := t[i]][k].Some?
    ensures exists q: nat :: q < |t| && !Ahead(p, Next(i, |t|), q, |t|) && Ahead(p, k, q, |t|)
                             && t0[q] == t[i := None][s := t[i]][k]
  {
    LandsBetween(ops, t0, t, p, i, e, s);
    if k == s {
      assert t0[i] == t[i];
    } else {
      assert k != i;
      var q: nat :| q < |t| && !Ahead(p, i, q, |t|) && Ahead(p, k, q, |t|) && t0[q] == t[k];
    }
  }

  /** One round of the clean-up: the item in bucket `i` is taken out and stored again. */
  lemma CleanStep<T(!new)>(ops: Ops<T>, t0: Table<T>, t: Table<T>, p: nat, i: nat, e: nat, s: nat)
    requires Contract(ops) && AllReachable(ops, t0) && CleaningUp(ops, t0, t, p, i, e) && t[i].Some?
    requires FoundAt(ops, t[i := None], t[i].value, s)
    ensures CleaningUp(ops, t0, t[i := None][s := t[i]], p, Next(i, |t|), e)
    ensures Items(t[i := None][s := t[i]]) == Items(t)
  {
    hide Reachable, Unique, Items, Contract;
    var t', size, i' := t[i := None][s := t[i]], |t|, Next(i, |t|);
    LandsBetween(ops, t0, t, p, i, e, s);
    MoveItems(ops, t, i, s);
    forall j: nat | j < size && t'[j].Some? && !(Ahead(p, i', j, size) && !Ahead(p, e, j, size))
      ensures Reachable(ops, t', j)
    {
      MoveReachable(ops, t0, t, p, i, e, s, j);
    }
    forall k: nat | k < size && !Ahead(p, i', k, size) && t'[k].Some?
      ensures exists q: nat :: q < size && !Ahead(p, i', q, size) && Ahead(p, k, q, size) && t0[q] == t'[k]
    {
      MovedBack(ops, t0, t, p, i, e, s, k);
    }
  }

  /** The clean-up ends at the end of the cluster, with every item reachable again. */
  lemma CleanEnd<T(!new)>(ops: Ops<T>, t0: Table<T>, t: Table<T>, p: nat, i: nat, e: nat)
    requires CleaningUp(ops, t0, t, p, i, e) && t[i].None?
    ensures i == e && AllReachable(ops, t) && Relocated(t0, t, p)
  {
    forall k: nat | k < |t| && t[k].Some?
      ensures exists q: nat :: q < |t| && Ahead(p, k, q, |t|) && t0[q] == t[k]
    {
      if Ahead(p, i, k, |t|) {
        assert t0[k] == t[k];
      }
    }
  }

  lemma {:induction false} ClusterEndExists<T(!new)>(t: Table<T>, p: nat, e: nat) returns (end: nat)
    requires p < |t| && e < |t| && t[e].None?
    ensures ClusterEnd(t, p, end)
    decreases Steps(p, e, |t|)
  {
    if k: nat :| k < |t| && Steps(p, k, |t|) < Steps(p, e, |t|) && t[k].None? {
      end := ClusterEndExists(t, p, k);
    } else {
      end := e;
    }
  }
}
