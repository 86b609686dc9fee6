/** The linearly probed hash set (BRSet.c). Items are compared by `eq`; `==` on items is pointer equality. */
module HashSet {
  import opened Wrappers
  import opened HashTable

  /** The entries of `tableSizes`. */
  function TableSize(i: nat): nat
    requires i < TABLE_SIZES_LEN
  {
    if i == 0 then 1 else if i == 1 then 3 else if i == 2 then 7 else if i == 3 then 13 else
    if i == 4 then 23 else if i == 5 then 37 else if i == 6 then 59 else if i == 7 then 97 else
    if i == 8 then 149 else if i == 9 then 227 else if i == 10 then 347 else if i == 11 then 523 else
    if i == 12 then 787 else if i == 13 then 1187 else if i == 14 then 1783 else if i == 15 then 2677 else
    if i == 16 then 4019 else if i == 17 then 6037 else if i == 18 then 9059 else if i == 19 then 13591 else
    if i == 20 then 20389 else if i == 21 then 30593 else if i == 22 then 45887 else if i == 23 then 68863 else
    if i == 24 then 103307 else if i == 25 then 154981 else if i == 26 then 232487 else if i == 27 then 348739 else
    if i == 28 then 523129 else if i == 29 then 784697 else if i == 30 then 1177067 else if i == 31 then 1765609 else
    if i == 32 then 2648419 else if i == 33 then 3972643 else if i == 34 then 5958971 else if i == 35 then 8938469 else
    if i == 36 then 13407707 else if i == 37 then 20111563 else if i == 38 then 30167359 else if i == 39 then 45251077 else
    if i == 40 then 67876637 else if i == 41 then 101814991 else if i == 42 then 152722489 else if i == 43 then 229083739 else
    if i == 44 then 343625629 else if i == 45 then 515438447 else if i == 46 then 773157683 else if i == 47 then 1159736527 else
    if i == 48 then 1739604799 else if i == 49 then 2609407319
    else 3914111041
  }

  const TABLE_SIZES_LEN: nat := 51

  /** The load factor is limited to 2/3. */
  function MaxLoad(size: nat): nat {
    (size + 2) / 3 * 2
  }

  /** The number of items the largest table can hold. */
  const CAPACITY: nat := 2609407362

  /** Every table but the first keeps an empty bucket, and the next one has room for one item more. */
  lemma SizesGrow(k: nat)
    requires 1 <= k < TABLE_SIZES_LEN
    ensures MaxLoad(TableSize(k)) < TableSize(k) && MaxLoad(TableSize(k)) <= CAPACITY
    ensures k + 1 < TABLE_SIZES_LEN ==>
      TableSize(k) < TableSize(k + 1) && MaxLoad(TableSize(k)) < MaxLoad(TableSize(k + 1))
    ensures k + 1 == TABLE_SIZES_LEN ==> MaxLoad(TableSize(k)) == CAPACITY
  {}

  lemma {:induction false} SizesMonotone(a: nat, b: nat)
    requires 1 <= a < b < TABLE_SIZES_LEN
    ensures TableSize(a) < TableSize(b)
    decreases b
  {
    hide TableSize;
    SizesGrow(b - 1);
    if a < b - 1 {
      SizesMonotone(a, b - 1);
    }
  }

  /** Asking for the capacity of one table size gives the next one. */
  lemma NextLevel(k: nat, level: nat)
    requires 1 <= k < TABLE_SIZES_LEN - 1 && 1 <= level < TABLE_SIZES_LEN
    requires TableSize(k) <= TableSize(level - 1) && (level == 1 || TableSize(level - 2) < TableSize(k))
    ensures level == k + 1
  {
    assert TableSize(0) == 1 && TableSize(1) == 3;
    hide TableSize;
    if level > 1 {
      if level - 1 < k {
        SizesMonotone(level - 1, k);
      } else if k < level - 2 {
        SizesMonotone(k, level - 2);
      }
    } else if k > 1 {
      SizesMonotone(1, k);
    }
  }

  lemma NextIsMod(i: nat, size: nat)
    requires i < size
    ensures (i + 1) % size == Next(i, size)
  {}

  /** What adding `x` makes of a set of items. */
  ghost function Added<T(!new)>(ops: Ops<T>, s: set<T>, x: T): set<T> {
    (set y | y in s && !ops.eq(y, x)) + {x}
  }

  /** What adding every item of `o` makes of a set of items. */
  ghost function Overridden<T(!new)>(ops: Ops<T>, s: set<T>, o: set<T>): set<T> {
    (set y | y in s && forall x :: x in o ==> !ops.eq(y, x)) + o
  }

  ghost predicate Distinct<T(!new)>(ops: Ops<T>, s: set<T>) {
    forall x, y :: x in s && y in s && ops.eq(x, y) ==> x == y
  }

  lemma OverrideStep<T(!new)>(ops: Ops<T>, s: set<T>, o: set<T>, x: T)
    requires forall y :: y in o ==> !ops.eq(y, x)
    ensures Added(ops, Overridden(ops, s, o), x) == Overridden(ops, s, o + {x})
  {}

  lemma UniqueItems<T(!new)>(ops: Ops<T>, t: Table<T>)
    requires Contract(ops) && Unique(ops, t)
    ensures Distinct(ops, Items(t))
  {
    forall x, y | x in Items(t) && y in Items(t) && ops.eq(x, y)
      ensures x == y
    {
      var i: nat :| i < |t| && t[i].Some? && t[i].value == x;
      var j: nat :| j < |t| && t[j].Some? && t[j].value == y;
      assert Same(ops, t[i], t[j]);
    }
  }

  /** Placing an item where its probe stops, in a valid table. */
  lemma PlaceInValid<T(!new)>(ops: Ops<T>, t: Table<T>, x: T, s: nat)
    requires Contract(ops) && Unique(ops, t) && AllReachable(ops, t) && FoundAt(ops, t, x, s)
    ensures var t' := t[s := Some(x)];
      Unique(ops, t') && AllReachable(ops, t') && Items(t') == Added(ops, Items(t), x)
    ensures t[s].Some? ==> ops.eq(t[s].value, x) && t[s].value in Items(t)
    ensures t[s].None? ==> forall y :: y in Items(t) ==> !ops.eq(y, x)
  {
    forall j: nat | j < |t| && j != s
      ensures !Same(ops, t[j], Some(x))
    {
      if Same(ops, t[j], Some(x)) {
        ProbeFinds(ops, t, x, s, j);
      }
    }
    PlaceReachable(ops, t, x, s);
    PlaceUnique(ops, t, x, s);
    PlaceItems(ops, t, x, s);
    forall y | y in Items(t) && ops.eq(y, x)
      ensures t[s].Some?
    {
      var j: nat :| j < |t| && t[j].Some? && t[j].value == y;
      ProbeFinds(ops, t, x, s, j);
    }
  }

  lemma PlaceInShape<T(!new)>(ops: Ops<T>, t: Table<T>, x: T, s: nat)
    requires Contract(ops) && Unique(ops, t) && FoundAt(ops, t, x, s)
    requires AllReachable(ops, t) || forall y :: y in Items(t) ==> !ops.eq(y, x)
    ensures Unique(ops, t[s := Some(x)])
    ensures AllReachable(ops, t) ==>
      && AllReachable(ops, t[s := Some(x)]) && Items(t[s := Some(x)]) == Added(ops, Items(t), x)
      && (t[s].Some? ==> ops.eq(t[s].value, x) && t[s].value in Items(t))
      && (t[s].None? ==> forall y :: y in Items(t) ==> !ops.eq(y, x))
  {
    if AllReachable(ops, t) {
      PlaceInValid(ops, t, x, s);
    } else {
      PlaceUnique(ops, t, x, s);
    }
  }

  lemma NothingYet<T(!new)>(ops: Ops<T>, s: set<T>, t: Table<T>)
    ensures Items(t[..0]) == {} && |Occupied(t[..0])| == 0 && Overridden(ops, s, {}) == s
  {
    assert Occupied(t[..0]) == {};
  }

  lemma OverrideEmpty<T(!new)>(ops: Ops<T>, o: set<T>)
    ensures Overridden(ops, {}, o) == o
  {}

  lemma ProbeInRange<T(!new)>(ops: Ops<T>, t: Table<T>, x: T, s: nat)
    requires FoundAt(ops, t, x, s)
    ensures s < |t|
  {}

  lemma CleaningFacts<T(!new)>(ops: Ops<T>, t0: Table<T>, t: Table<T>, p: nat, i: nat, e: nat)
    requires CleaningUp(ops, t0, t, p, i, e)
    ensures |t| == |t0| && p < |t| && i < |t| && e < |t| && i != p
    ensures t[i].Some? ==> i != e
    ensures i != e && Next(i, |t|) < |t| ==> Steps(Next(i, |t|), e, |t|) < Steps(i, e, |t|)
  {}

  /** Once an item is taken out, no item equal to it is left. */
  lemma OthersDiffer<T(!new)>(ops: Ops<T>, t: Table<T>, i: nat)
    requires Contract(ops) && Unique(ops, t) && i < |t| && t[i].Some?
    ensures forall y :: y in Items(t[i := None]) ==> !ops.eq(y, t[i].value)
  {
    var t' := t[i := None];
    forall y | y in Items(t')
      ensures !ops.eq(y, t[i].value)
    {
      var j: nat :| j < |t'| && t'[j].Some? && t'[j].value == y;
      assert !Same(ops, t[j], t[i]);
    }
  }

  lemma MoveCount<T(!new)>(t: Table<T>, i: nat, s: nat, ops: Ops<T>, x: T)
    requires Contract(ops) && Unique(ops, t) && i < |t| && t[i] == Some(x) && FoundAt(ops, t[i := None], x, s)
    ensures |Occupied(t[i := None][s := Some(x)])| == |Occupied(t)|
  {
    EmptyCount(t, i);
    PlaceCount(t[i := None], x, s);
    assert t[i := None][s].Some? ==> Same(ops, t[s], t[i]);
  }

  lemma MinusStep<T(!new)>(ops: Ops<T>, c: set<T>, o: set<T>, x: T, r: Option<T>)
    requires Contract(ops)
    requires var s := set y | y in c && forall z :: z in o ==> !ops.eq(y, z);
      && Distinct(ops, s)
      && (r.None? ==> forall y :: y in s ==> !ops.eq(y, x))
      && (r.Some? ==> r.value in s && ops.eq(r.value, x))
    ensures var s := set y | y in c && forall z :: z in o ==> !ops.eq(y, z);
      (if r.Some? then s - {r.value} else s) == set y | y in c && forall z :: z in o + {x} ==> !ops.eq(y, z)
  {
    var s := set y | y in c && forall z :: z in o ==> !ops.eq(y, z);
    forall y | y in s && ops.eq(y, x)
      ensures r.Some? && y == r.value
    {
      assert ops.eq(y, r.value);
    }
  }

  ghost predicate HasEqual<T(!new)>(ops: Ops<T>, o: set<T>, y: T) {
    exists x :: x in o && ops.eq(x, y)
  }

  /** What has no equal in a set is not in it. */
  lemma NoOwnEqual<T(!new)>(ops: Ops<T>, o: set<T>, y: T)
    requires Contract(ops) && !HasEqual(ops, o, y)
    ensures y !in o
  {}

  /** Every item in a bucket before `i` has an equal in `o`. */
  ghost predicate Scanned<T(!new)>(ops: Ops<T>, t: Table<T>, i: nat, o: set<T>) {
    forall k :: 0 <= k < i && k < |t| && t[k].Some? ==> HasEqual(ops, o, t[k].value)
  }

  lemma ScanPosition<T(!new)>(ops: Ops<T>, t: Table<T>, x: T, i: nat, p: nat)
    requires Contract(ops) && Unique(ops, t) && AllReachable(ops, t) && i < |t| && t[i] == Some(x)
    requires FoundAt(ops, t, x, p)
    ensures p == i
  {
    ProbeFinds(ops, t, x, p, i);
  }

  lemma ItemHere<T(!new)>(ops: Ops<T>, t: Table<T>, i: nat, x: T)
    requires Contract(ops) && Unique(ops, t) && i < |t| && t[i] == Some(x)
    ensures x in Items(t) && ops.eq(x, x) && forall y :: y in Items(t) && ops.eq(y, x) ==> y == x
  {
    UniqueItems(ops, t);
    assert t[i].value in Items(t);
  }

  /** An item of a table replaces itself. */
  lemma OwnItem<T(!new)>(ops: Ops<T>, t: Table<T>, i: nat)
    requires Contract(ops) && Unique(ops, t) && i < |t| && t[i].Some?
    ensures var x := t[i].value;
      x in Items(t) && ops.eq(x, x) && HasEqual(ops, Items(t), x) && Added(ops, Items(t), x) == Items(t)
  {
    ItemHere(ops, t, i, t[i].value);
  }

  lemma OwnUnion<T(!new)>(ops: Ops<T>, t: Table<T>)
    requires Contract(ops) && Unique(ops, t)
    ensures Overridden(ops, Items(t), Items(t)) == Items(t)
  {
    hide Items, Unique;
  }

  lemma ScanNext<T(!new)>(ops: Ops<T>, t: Table<T>, i: nat, o: set<T>)
    requires Scanned(ops, t, i, o) && i < |t| && (t[i].Some? ==> HasEqual(ops, o, t[i].value))
    ensures Scanned(ops, t, i + 1, o)
  {}

  lemma AllScanned<T(!new)>(ops: Ops<T>, t: Table<T>, o: set<T>)
    requires Scanned(ops, t, |t|, o)
    ensures forall y :: y in Items(t) ==> HasEqual(ops, o, y)
  {
    forall y | y in Items(t)
      ensures HasEqual(ops, o, y)
    {
      var j: nat :| j < |t| && t[j].Some? && t[j].value == y;
    }
  }

  /** Re-insertion never moves an unexamined item into a bucket already scanned. */
  lemma ScanKept<T(!new)>(ops: Ops<T>, t0: Table<T>, t: Table<T>, i: nat, o: set<T>)
    requires Relocated(t0, t, i) && Scanned(ops, t0, i, o)
    ensures Scanned(ops, t, i, o)
  {
    forall k: nat | k < i && k < |t| && t[k].Some?
      ensures HasEqual(ops, o, t[k].value)
    {
      var q: nat :| q < |t| && Ahead(i, k, q, |t|) && t0[q] == t[k];
      assert q < i;
    }
  }

  // ---------- Reference: a finite map from classes of equal items to items ----------

  datatype Operation<T> = AddItem(item: T) | RemoveItem(item: T) | GetItem(item: T)

  /** What every operation returns: the item equal to `x`, if there is one. */
  ghost predicate Answer<T(!new)>(ops: Ops<T>, s: set<T>, x: T, r: Option<T>) {
    match r
    case Some(y) => y in s && ops.eq(y, x)
    case None => forall y :: y in s ==> !ops.eq(y, x)
  }

  ghost function After<T(!new)>(ops: Ops<T>, s: set<T>, o: Operation<T>): set<T> {
    match o
    case AddItem(x) => Added(ops, s, x)
    case RemoveItem(x) => set y | y in s && !ops.eq(y, x)
    case GetItem(_) => s
  }

  ghost predicate Behaves<T(!new)>(ops: Ops<T>, s: set<T>, script: seq<Operation<T>>, results: seq<Option<T>>, end: set<T>)
    decreases |script|
  {
    && |script| == |results|
    && if script == [] then end == s
       else Answer(ops, s, script[0].item, results[0])
            && Behaves(ops, After(ops, s, script[0]), script[1..], results[1..], end)
  }

  /** The reference determines every result and the final contents. */
  lemma {:induction false} BehaviourIsUnique<T(!new)>(ops: Ops<T>, s: set<T>, script: seq<Operation<T>>,
      r: seq<Option<T>>, e: set<T>, r': seq<Option<T>>, e': set<T>)
    requires Contract(ops) && Distinct(ops, s)
    requires Behaves(ops, s, script, r, e) && Behaves(ops, s, script, r', e')
    ensures r == r' && e == e'
    decreases |script|
  {
    if script != [] {
      assert r[0].Some? && r'[0].Some? ==> ops.eq(r[0].value, r'[0].value);
      assert Distinct(ops, After(ops, s, script[0]));
      BehaviourIsUnique(ops, After(ops, s, script[0]), script[1..], r[1..], e, r'[1..], e');
      assert r == [r[0]] + r[1..] && r' == [r'[0]] + r'[1..];
    }
  }

  lemma BehavesNothing<T(!new)>(ops: Ops<T>, s: set<T>)
    ensures Behaves(ops, s, [], [], s)
  {}

  lemma AfterOperation<T(!new)>(ops: Ops<T>, s: set<T>, o: Operation<T>, r: Option<T>, s': set<T>)
    requires Contract(ops) && Distinct(ops, s) && Answer(ops, s, o.item, r)
    requires match o
      case AddItem(x) => s' == Added(ops, s, x)
      case RemoveItem(x) => s' == if r.Some? then s - {r.value} else s
      case GetItem(_) => s' == s
    ensures s' == After(ops, s, o)
  {
    if o.RemoveItem? && r.Some? {
      assert forall y :: y in s && ops.eq(y, o.item) ==> ops.eq(y, r.value);
    }
  }

  lemma {:induction false} BehavesSnoc<T(!new)>(ops: Ops<T>, s: set<T>, script: seq<Operation<T>>,
      results: seq<Option<T>>, m: set<T>, o: Operation<T>, r: Option<T>)
    requires Behaves(ops, s, script, results, m) && Answer(ops, m, o.item, r)
    ensures Behaves(ops, s, script + [o], results + [r], After(ops, m, o))
    decreases |script|
  {
    if script == [] {
      assert script + [o] == [o] && results + [r] == [r];
      assert Behaves(ops, After(ops, s, o), [o][1..], [r][1..], After(ops, m, o));
    } else {
      BehavesSnoc(ops, After(ops, s, script[0]), script[1..], results[1..], m, o, r);
      assert (script + [o])[1..] == script[1..] + [o] && (results + [r])[1..] == results[1..] + [r];
    }
  }

  class HashSet<T(==, !new)> {
    const ops: Ops<T>
    var table: array<Option<T>>
    var size: nat
    var itemCount: nat
    ghost var level: nat  // position of `size` in the list of table sizes

    ghost predicate Shape()
      reads this, table
    {
      && 1 <= level < TABLE_SIZES_LEN && size == TableSize(level) && table.Length == size
      && itemCount == |Occupied(table[..])|
      && Contract(ops) && Unique(ops, table[..])
    }

    ghost predicate Valid()
      reads this, table
    {
      Shape() && AllReachable(ops, table[..]) && itemCount <= MaxLoad(size)
    }

    ghost function Contents(): set<T>
      reads this, table
    {
      Items(table[..])
    }

    /** `capacity` must be below the last table size, for which the code allocates no table. */
    constructor (ops: Ops<T>, capacity: nat)
      requires Contract(ops) && capacity <= TableSize(TABLE_SIZES_LEN - 2)
      ensures this.ops == ops && Valid() && Contents() == {} && itemCount == 0 && fresh(table)
      ensures capacity <= TableSize(level - 1) && (level == 1 || TableSize(level - 2) < capacity)
    {
      var i := 0;
      while TableSize(i) < capacity
        invariant i < TABLE_SIZES_LEN - 1
        invariant i == 0 || TableSize(i - 1) < capacity
        decreases TABLE_SIZES_LEN - i
      {
        i := i + 1;
      }
      this.ops := ops;
      table := new Option<T>[TableSize(i + 1)](_ => None);
      size := TableSize(i + 1);
      itemCount := 0;
      level := i + 1;
      new;
      assert Occupied(table[..]) == {};
    }

    /** The probe loop of BRSetAdd, BRSetRemove and BRSetGet. */
    method Probe(x: T) returns (i: nat)
      requires table.Length == size && |Occupied(table[..])| < size
      ensures FoundAt(ops, table[..], x, i)
    {
      EmptyBucket(table[..]);
      ghost var e: nat :| e < size && table[e].None?;
      ghost var home := Home(ops, x, size);
      i := ops.hash(x) % size;
      while !Stops(ops, table[i], x)
        invariant i < size
        invariant forall k: nat :: k < size && k != i && OnPath(home, k, i, size) ==> !Stops(ops, table[k], x)
        decreases Steps(i, e, size)
      {
        NextIsMod(i, size);
        i := (i + 1) % size;
      }
    }

    method Get(x: T) returns (r: Option<T>)
      requires Valid()
      ensures r.Some? ==> r.value in Contents() && ops.eq(r.value, x)
      ensures r.None? ==> forall y :: y in Contents() ==> !ops.eq(y, x)
    {
      SizesGrow(level);
      var i := Probe(x);
      PlaceInValid(ops, table[..], x, i);
      r := table[i];
    }

    method Contains(x: T) returns (found: bool)
      requires Valid()
      ensures found <==> exists y :: y in Contents() && ops.eq(y, x)
    {
      var r := Get(x);
      found := r.Some?;
    }

    /**
     Below the load limit this stores the item in place, whatever the state of the other buckets; in a valid set
     it replaces an equal item and may move to the next table size.
    */
    method Add(item: T) returns (r: Option<T>)
      requires Shape() && itemCount <= MaxLoad(size) && (itemCount < CAPACITY || HasEqual(ops, Contents(), item))
      requires AllReachable(ops, table[..]) ||
               (itemCount < MaxLoad(size) && forall y :: y in Contents() ==> !ops.eq(y, item))
      modifies this, table
      ensures table == old(table) || fresh(table)
      ensures Shape()
      ensures old(itemCount) < MaxLoad(old(size)) ==>
        && table == old(table) && level == old(level)
        && exists s: nat :: s < old(table.Length) && FoundAt(ops, old(table[..]), item, s)
                            && table[..] == old(table[..])[s := Some(item)]
      ensures old(AllReachable(ops, table[..])) ==>
        && Valid() && Contents() == Added(ops, old(Contents()), item)
        && (r.Some? ==> r.value in old(Contents()) && ops.eq(r.value, item))
        && (r.None? ==> forall y :: y in old(Contents()) ==> !ops.eq(y, item))
        && itemCount == old(itemCount) + (if r.None? then 1 else 0)
        && level == old(level) + (if itemCount > MaxLoad(old(size)) then 1 else 0)
      decreases TABLE_SIZES_LEN - level, 1
    {
      SizesGrow(level);
      ghost var t := table[..];
      var i := Probe(item);
      r := table[i];
      if r.None? {
        itemCount := itemCount + 1;
      }
      table[i] := Some(item);
      ghost var t' := table[..];
      assert t' == t[i := Some(item)];
      PlaceCount(t, item, i);
      PlaceInShape(ops, t, item, i);
      hide FoundAt, Unique, AllReachable, Items, Added, Occupied, Contract, TableSize;
      if itemCount > (size + 2) / 3 * 2 {
        Grow(size);
      }
    }

    /** Rebuilds the table at the next size. No further growth happens on the way. */
    method Grow(capacity: nat)
      requires Shape() && capacity == size && itemCount == MaxLoad(size) + 1 && itemCount <= CAPACITY
      modifies this
      ensures Valid() && fresh(table) && level == old(level) + 1
      ensures Contents() == old(Contents()) && itemCount == old(itemCount)
      decreases TABLE_SIZES_LEN - level, 0
    {
      hide FoundAt, Unique, AllReachable, Items, Occupied, Contract, TableSize, Overridden;
      SizesGrow(level);
      if level < TABLE_SIZES_LEN - 2 {
        SizesMonotone(level, TABLE_SIZES_LEN - 2);
      }
      var newSet := new HashSet<T>(ops, capacity);
      NextLevel(level, newSet.level);
      newSet.Union(this);
      OverrideEmpty(ops, Contents());
      CountIsExact(ops, table[..]);
      CountIsExact(ops, newSet.table[..]);
      table := newSet.table;
      size := newSet.size;
      itemCount := newSet.itemCount;
      level := newSet.level;
    }

    /** Adds the items of `other`, replacing equal ones. */
    method Union(other: HashSet<T>)
      requires Valid() && other.Shape() && ops == other.ops && (other == this || other.table != table)
      requires other != this ==> itemCount + other.itemCount <= CAPACITY
      modifies this, table
      ensures table == old(table) || fresh(table)
      ensures Valid() && Contents() == Overridden(ops, old(Contents()), old(other.Contents()))
      ensures old(itemCount) + old(other.itemCount) <= MaxLoad(old(size)) ==> level == old(level)
      decreases TABLE_SIZES_LEN - level, 2
    {
      hide FoundAt, Unique, AllReachable, Items, Occupied, Contract, TableSize, Overridden, Added;
      var i, otherSize := 0, other.size;
      ghost var c, o := Contents(), other.table[..];
      NothingYet(ops, c, o);
      OwnUnion(ops, table[..]);
      while i < otherSize
        invariant i <= otherSize == other.size == old(other.size) && (table == old(table) || fresh(table))
        invariant Valid() && level >= old(level)
        invariant other == this ==> Contents() == c && itemCount == old(itemCount) && level == old(level)
        invariant other != this ==>
          && o == other.table[..] && other.Shape() && other.size == |o|
          && Contents() == Overridden(ops, c, Items(o[..i])) && itemCount <= old(itemCount) + |Occupied(o[..i])|
          && (old(itemCount) + other.itemCount <= MaxLoad(old(size)) ==> level == old(level))
      {
        var t := other.table[i];
        if t.Some? {
          if other == this {
            OwnItem(ops, table[..], i);
          } else {
            PrefixStep(ops, o, i);
            OverrideStep(ops, c, Items(o[..i]), t.value);
          }
          var _ := Add(t.value);
        } else if other != this {
          PrefixStep(ops, o, i);
        }
        i := i + 1;
      }
      assert o[..|o|] == o;
    }

    /**
     Removes the item equal to `item`. The items after it in its cluster are stored again, each no further than
     where it was; no table growth happens on the way.
    */
    method Remove(item: T) returns (r: Option<T>)
      requires Valid()
      modifies this, table
      ensures Valid() && table == old(table) && level == old(level)
      ensures r.None? ==> table[..] == old(table[..]) && forall y :: y in Contents() ==> !ops.eq(y, item)
      ensures r.Some? ==>
        && r.value in old(Contents()) && ops.eq(r.value, item)
        && Contents() == old(Contents()) - {r.value} && itemCount == old(itemCount) - 1
        && exists p: nat :: FoundAt(ops, old(table[..]), item, p) && Relocated(old(table[..]), table[..], p)
    {
      hide FoundAt, Unique, AllReachable, Items, Occupied, Contract, TableSize, Added, CleaningUp, ClusterEnd, Relocated;
      SizesGrow(level);
      ghost var t0 := table[..];
      var p := Probe(item);
      ProbeInRange(ops, t0, item, p);
      PlaceInValid(ops, t0, item, p);
      r := table[p];
      if r.Some? {
        EmptyBucket(t0);
        ghost var e: nat :| e < |t0| && t0[e].None?;
        e := ClusterEndExists(t0, p, e);
        RemovalStarts(ops, t0, p, e);
        EmptyItems(ops, t0, p);
        EmptyCount(t0, p);
        itemCount := itemCount - 1;
        table[p] := None;
        NextIsMod(p, size);
        var i: nat := (p + 1) % size;
        assert table[..] == t0[p := None];
        while table[i].Some?
          invariant i < size && table == old(table) && level == old(level) && size == old(size)
          invariant Shape() && itemCount == old(itemCount) - 1
          invariant CleaningUp(ops, t0, table[..], p, i, e)
          invariant Contents() == old(Contents()) - {r.value}
          decreases Steps(i, e, size)
        {
          i := PutBack(t0, p, i, e);
        }
        CleanEnd(ops, t0, table[..], p, i, e);
      }
    }

    /** One round of the clean-up loop of BRSetRemove. */
    method PutBack(ghost t0: Table<T>, ghost p: nat, i: nat, ghost e: nat) returns (next: nat)
      requires Shape() && itemCount < MaxLoad(size) && i < size && table[i].Some?
      requires AllReachable(ops, t0) && CleaningUp(ops, t0, table[..], p, i, e)
      modifies this, table
      ensures table == old(table) && level == old(level)
      ensures Shape() && itemCount == old(itemCount) && Contents() == old(Contents())
      ensures next < size && CleaningUp(ops, t0, table[..], p, next, e)
      ensures Steps(next, e, size) < Steps(i, e, size)
    {
      hide FoundAt, Unique, AllReachable, Items, Contract, TableSize, CleaningUp, Reachable;
      SizesGrow(level);
      ghost var t := table[..];
      var x := table[i];
      CleaningFacts(ops, t0, t, p, i, e);
      EmptyItems(ops, t, i);
      EmptyCount(t, i);
      OthersDiffer(ops, t, i);
      itemCount := itemCount - 1;
      table[i] := None;
      assert table[..] == t[i := None];
      var _ := Add(x.value);
      ghost var s: nat :| s < |t| && FoundAt(ops, t[i := None], x.value, s) && table[..] == t[i := None][s := x];
      CleanStep(ops, t0, t, p, i, e, s);
      MoveCount(t, i, s, ops, x.value);
      NextIsMod(i, size);
      next := (i + 1) % size;
      CleaningFacts(ops, t0, table[..], p, next, e);
    }

    /** Removes the items equal to an item of `other`. */
    method Minus(other: HashSet<T>)
      requires Valid() && other.Shape() && ops == other.ops && other != this && other.table != table
      modifies this, table
      ensures Valid()
      ensures Contents() == set y | y in old(Contents()) && forall x :: x in other.Contents() ==> !ops.eq(y, x)
    {
      hide FoundAt, Unique, AllReachable, Items, Contract, TableSize, Occupied, Relocated;
      var i := 0;
      ghost var o, c := other.table[..], Contents();
      NothingYet(ops, c, o);
      while i < other.size
        invariant i <= other.size && o == other.table[..] && other.Shape() && other.size == |o|
        invariant table == old(table) && Valid()
        invariant Contents() == set y | y in c && forall x :: x in Items(o[..i]) ==> !ops.eq(y, x)
      {
        var t := other.table[i];
        PrefixStep(ops, o, i);
        if t.Some? {
          UniqueItems(ops, table[..]);
          var r := Remove(t.value);
          MinusStep(ops, c, Items(o[..i]), t.value, r);
        }
        i := i + 1;
      }
      assert o[..i] == o;
    }

    /** Removes the items that have no equal in `other`, deleting while scanning by index. */
    method Intersect(other: HashSet<T>)
      requires Valid() && other.Valid() && ops == other.ops && (other == this || other.table != table)
      modifies this, table
      ensures Valid() && other.Contents() == old(other.Contents())
      ensures Contents() == set y | y in old(Contents()) && exists x :: x in other.Contents() && ops.eq(x, y)
    {
      hide FoundAt, Unique, AllReachable, Contract, TableSize, Occupied, Relocated, Items;
      var i := 0;
      ghost var o, c := other.Contents(), Contents();
      while i < size
        invariant i <= size && table == old(table) && level == old(level) && Valid()
        invariant other.Valid() && other.Contents() == o
        invariant Scanned(ops, table[..], i, o)
        invariant Contents() <= c && forall y :: y in c && y !in Contents() ==> !HasEqual(ops, o, y)
        decreases itemCount, size - i
      {
        var t := table[i];
        var found := true;
        if t.Some? {
          found := other.Contains(t.value);
        }
        if t.Some? && !found {
          ghost var t0 := table[..];
          ItemHere(ops, t0, i, t.value);
          assert !HasEqual(ops, o, t.value);
          NoOwnEqual(ops, o, t.value);
          var r := Remove(t.value);
          ghost var p: nat :| FoundAt(ops, t0, t.value, p) && Relocated(t0, table[..], p);
          ScanPosition(ops, t0, t.value, i, p);
          ScanKept(ops, t0, table[..], i, o);
        } else {
          ScanNext(ops, table[..], i, o);
          i := i + 1;
        }
      }
      AllScanned(ops, table[..], o);
    }

    method Count() returns (n: nat)
      requires Valid()
      ensures n == |Contents()|
    {
      CountIsExact(ops, table[..]);
      n := itemCount;
    }

    /** Any sequence of additions, removals and look-ups gives the results of the reference. */
    method Perform(script: seq<Operation<T>>) returns (results: seq<Option<T>>)
      requires Valid() && itemCount + |script| <= CAPACITY
      modifies this, table
      ensures Valid() && (table == old(table) || fresh(table))
      ensures Behaves(ops, old(Contents()), script, results, Contents())
    {
      hide FoundAt, Unique, AllReachable, Contract, TableSize, Occupied, Relocated, Items, After, Behaves;
      results := [];
      BehavesNothing(ops, Contents());
      for n := 0 to |script|
        invariant Valid() && (table == old(table) || fresh(table)) && itemCount <= old(itemCount) + n
        invariant Behaves(ops, old(Contents()), script[..n], results, Contents())
      {
        ghost var m := Contents();
        var r: Option<T>;
        UniqueItems(ops, table[..]);
        match script[n] {
          case AddItem(x) => r := Add(x);
          case RemoveItem(x) => r := Remove(x);
          case GetItem(x) => r := Get(x);
        }
        AfterOperation(ops, m, script[n], r, Contents());
        BehavesSnoc(ops, old(Contents()), script[..n], results, m, script[n], r);
        results := results + [r];
        assert script[..n + 1] == script[..n] + [script[n]];
      }
      assert script[..|script|] == script;
    }
  }

  /** One more bucket of a table: its items, and how many there are up to it. */
  lemma PrefixStep<T(!new)>(ops: Ops<T>, t: Table<T>, i: nat)
    requires Contract(ops) && Unique(ops, t) && i < |t|
    ensures Items(t[..i + 1]) == Items(t[..i]) + if t[i].Some? then {t[i].value} else {}
    ensures |Occupied(t[..i + 1])| == |Occupied(t[..i])| + if t[i].Some? then 1 else 0
    ensures |Occupied(t[..i + 1])| <= |Occupied(t)|
    ensures t[i].Some? ==> forall y :: y in Items(t[..i]) ==> !ops.eq(y, t[i].value)
  {
    var p, q := t[..i], t[..i + 1];
    assert forall j :: 0 <= j < i ==> q[j] == p[j] == t[j];
    assert q[i] == t[i];
    assert Occupied(q) == Occupied(p) + if t[i].Some? then {i} else {};
    OccupiedSubset(Occupied(q), Occupied(t));
    forall y | y in Items(p) && t[i].Some?
      ensures !ops.eq(y, t[i].value)
    {
      var j: nat :| j < |p| && p[j].Some? && p[j].value == y;
      assert !Same(ops, t[j], t[i]);
    }
    forall y | y in Items(q)
      ensures y in Items(p) || (t[i].Some? && y == t[i].value)
    {
      var j: nat :| j < |q| && q[j].Some? && q[j].value == y;
      assert j < i ==> p[j].value == y;
    }
    forall y | y in Items(p)
      ensures y in Items(q)
    {
      var j: nat :| j < |p| && p[j].Some? && p[j].value == y;
      assert q[j].value == y;
    }
  }

  lemma {:induction false} OccupiedSubset(a: set<nat>, b: set<nat>)
    requires a <= b
    ensures |a| <= |b|
    decreases a
  {
    if x :| x in a {
      OccupiedSubset(a - {x}, b - {x});
    }
  }
}
