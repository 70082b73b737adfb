/** The hash map: an array of linked buckets, updated in place, is a finite map. */
module HashTable {
  import opened Seqs
  import opened HashMaps

  // ---------------------------------------------------------------- the map a table shows

  ghost function KeysOf<T>(t: Table<T>): set<Key> {
    set i, j | 0 <= i < |t| && 0 <= j < |t[i]| :: t[i][j].0
  }

  /** The map that the buckets hold. */
  ghost function MapOf<T>(t: Table<T>, hash: Key -> nat): (m: map<Key, T>)
    requires Ordered(t, hash)
  {
    map k | k in KeysOf(t) && Get(t[Index(hash, |t|, k)], k).Some? :: Get(t[Index(hash, |t|, k)], k).value
  }

  lemma MapOfShows<T>(t: Table<T>, hash: Key -> nat)
    requires Ordered(t, hash)
    ensures Refines(t, hash, MapOf(t, hash))
  {
    forall k
      ensures Shows(t, hash, MapOf(t, hash), k)
    {
      var i := Index(hash, |t|, k);
      var j := Find(t[i], k);
      if j < |t[i]| {
        assert t[i][j].0 == k;
        assert k in KeysOf(t);
      }
    }
  }

  /** No other map is shown. */
  lemma OnlyMap<T>(t: Table<T>, hash: Key -> nat, m: map<Key, T>)
    requires Refines(t, hash, m)
    ensures m == MapOf(t, hash)
  {
    MapOfShows(t, hash);
    var m' := MapOf(t, hash);
    forall k
      ensures Lookup(m, k) == Lookup(m', k)
    {
      assert Shows(t, hash, m, k) && Shows(t, hash, m', k);
    }
    SameLookups(m, m');
  }

  lemma SameLookups<T>(m: map<Key, T>, m': map<Key, T>)
    requires forall k :: Lookup(m, k) == Lookup(m', k)
    ensures m == m'
  {
    assert forall k :: k in m <==> k in m' by {
      forall k
        ensures k in m <==> k in m'
      {
        assert Lookup(m, k) == Lookup(m', k);
      }
    }
    forall k | k in m
      ensures m[k] == m'[k]
    {
      assert Lookup(m, k) == Lookup(m', k);
    }
  }

  // ---------------------------------------------------------------- the operations on the map

  lemma MapApplied<T>(t: Table<T>, hash: Key -> nat, key: Key, h: Option<Handler<T>>, c: Option<Creator<T>>)
    requires Ordered(t, hash)
    ensures var i := Index(hash, |t|, key);
      var m := MapOf(t, hash);
      var t' := t[i := Applied(t[i], key, h, c).1];
      && Ordered(t', hash) && MapOf(t', hash) == AppliedMap(m, key, h, c)
      && Applied(t[i], key, h, c).0 == if key in m then h.Some? && h.value(key, m[key]).0 else c.Some?
  {
    hide Placed, MapOf, Applied, AppliedMap;
    var i := Index(hash, |t|, key);
    MapOfShows(t, hash);
    ApplyRefines(t, hash, MapOf(t, hash), key, h, c);
    OnlyMap(t[i := Applied(t[i], key, h, c).1], hash, AppliedMap(MapOf(t, hash), key, h, c));
  }

  lemma MapRemoved<T>(t: Table<T>, hash: Key -> nat, key: Key)
    requires Ordered(t, hash)
    ensures var i := Index(hash, |t|, key);
      var m := MapOf(t, hash);
      && (Find(t[i], key) < |t[i]| <==> key in m)
      && var t' := t[i := Dropped(t[i], key)]; Ordered(t', hash) && MapOf(t', hash) == m - {key}
  {
    hide Placed, MapOf;
    var i := Index(hash, |t|, key);
    var m := MapOf(t, hash);
    MapOfShows(t, hash);
    RemoveRefines(t, hash, m, key);
    if key in m {
      OnlyMap(t[i := Without(t[i], Find(t[i], key))], hash, m - {key});
    } else {
      assert t[i := t[i]] == t && m - {key} == m;
    }
  }

  /** The map after `remove_if`: the predicate decides on, and may change, the object. */
  function RemovedIf<T>(m: map<Key, T>, key: Key, pred: Handler<T>): map<Key, T> {
    if key !in m then m
    else if pred(key, m[key]).0 then m - {key}
    else m[key := pred(key, m[key]).1]
  }

  lemma MapRemovedIf<T>(t: Table<T>, hash: Key -> nat, key: Key, pred: Handler<T>)
    requires Ordered(t, hash)
    ensures var i := Index(hash, |t|, key);
      var m := MapOf(t, hash);
      var t' := t[i := DroppedIf(t[i], key, pred)];
      && (Find(t[i], key) < |t[i]| <==> key in m)
      && Ordered(t', hash) && MapOf(t', hash) == RemovedIf(m, key, pred)
  {
    var i := Index(hash, |t|, key);
    var m := MapOf(t, hash);
    MapOfShows(t, hash);
    assert Shows(t, hash, m, key);
    hide Ordered, MapOf, Refines;
    MapRemoved(t, hash, key);
    MapApplied(t, hash, key, Some(pred), None);
    assert t[i := t[i]] == t;
  }

  lemma {:induction false} SweptOrdered<T, A>(t: Table<T>, hash: Key -> nat, pred: Predicate<T, A>, a: A, n: nat)
    requires Ordered(t, hash) && n <= |t|
    ensures Ordered(SweptTable(t, pred, a, n).0, hash)
    decreases n
  {
    if n > 0 {
      SweptOrdered(t, hash, pred, a, n - 1);
      var r := SweptTable(t, pred, a, n - 1);
      SweptPlaced(r.0[n - 1], hash, |t|, n - 1, pred, r.1);
    }
  }

  lemma SweptPlaced<T, A>(ps: seq<(Key, T)>, hash: Key -> nat, size: nat, i: nat, pred: Predicate<T, A>, a: A)
    requires size > 0 && Placed(ps, hash, size, i)
    ensures Placed(Swept(ps, pred, a).0, hash, size, i)
  {
    SweptDistinct(ps, pred, a);
    forall j | 0 <= j < |Swept(ps, pred, a).0|
      ensures Index(hash, size, Swept(ps, pred, a).0[j].0) == i
    {
      SweptKeys(ps, pred, a, j);
    }
  }

  lemma MapSwept<T(!new), A(!new)>(t: Table<T>, hash: Key -> nat, pred: Predicate<T, A>, a: A,
                                   goes: (Key, T) -> bool, becomes: (Key, T) -> T)
    requires Ordered(t, hash) && Stateless(pred, goes, becomes)
    ensures var t' := SweptTable(t, pred, a, |t|).0;
      Ordered(t', hash) && MapOf(t', hash) == SweptMap(MapOf(t, hash), goes, becomes)
  {
    hide Ordered, MapOf, Stateless, SweptTable, SweptMap;
    MapOfShows(t, hash);
    GcAll(t, hash, MapOf(t, hash), pred, a, goes, becomes);
    OnlyMap(SweptTable(t, pred, a, |t|).0, hash, SweptMap(MapOf(t, hash), goes, becomes));
  }

  // ---------------------------------------------------------------- the table in memory

  /** The chains are valid and share nothing. */
  ghost predicate Chains<T>(buckets: seq<Bucket<T>>, repr: set<object>)
    reads repr
  {
    && (forall i :: 0 <= i < |buckets| ==> buckets[i] in repr)
    && (forall i :: 0 <= i < |buckets| ==> buckets[i].Repr <= repr)
    && (forall i :: 0 <= i < |buckets| ==> buckets[i].Valid())
    && (forall i, j :: 0 <= i < |buckets| && 0 <= j < |buckets| && i != j ==> buckets[i].Repr !! buckets[j].Repr)
  }

  /** They hold the pairs of the table. */
  ghost predicate Hold<T>(buckets: seq<Bucket<T>>, table: Table<T>, repr: set<object>)
    requires Chains(buckets, repr) && |table| == |buckets|
    reads repr
  {
    forall i :: 0 <= i < |buckets| ==> buckets[i].Contents() == table[i]
  }

  // One bucket's operation among the others, which stay as they are.

  method ApplyAt<T>(buckets: seq<Bucket<T>>, i: nat, key: Key, h: Option<Handler<T>>, c: Option<Creator<T>>,
                    ghost table: Table<T>, ghost repr: set<object>)
    returns (ok: bool, ghost repr': set<object>)
    requires Chains(buckets, repr) && |table| == |buckets| && Hold(buckets, table, repr) && i < |buckets|
    modifies repr
    ensures Chains(buckets, repr') && repr <= repr' && fresh(repr' - repr)
    ensures Hold(buckets, table[i := Applied(table[i], key, h, c).1], repr') && ok == Applied(table[i], key, h, c).0
  {
    hide Applied, Chain, Distinct, Pairs;
    var b := buckets[i];
    ok := b.Apply(key, h, c);
    repr' := repr + b.Repr;
    forall j | 0 <= j < |buckets| && j != i
      ensures buckets[j].Repr == old(buckets[j].Repr) && buckets[j].Valid()
      ensures buckets[j].Contents() == old(buckets[j].Contents())
    {
      assert buckets[j] in old(buckets[j].Repr);
    }
  }

  method RemoveAt<T>(buckets: seq<Bucket<T>>, i: nat, key: Key, ghost table: Table<T>, ghost repr: set<object>)
    returns (ok: bool)
    requires Chains(buckets, repr) && |table| == |buckets| && Hold(buckets, table, repr) && i < |buckets|
    modifies repr
    ensures Chains(buckets, repr) && ok == (Find(table[i], key) < |table[i]|)
    ensures Hold(buckets, table[i := Dropped(table[i], key)], repr)
  {
    hide Find, Dropped, Chain, Distinct, Pairs;
    var b := buckets[i];
    ok := b.Remove(key);
    forall j | 0 <= j < |buckets| && j != i
      ensures buckets[j].Repr == old(buckets[j].Repr) && buckets[j].Valid()
      ensures buckets[j].Contents() == old(buckets[j].Contents())
    {
      assert buckets[j] in old(buckets[j].Repr);
    }
  }

  method RemoveIfAt<T>(buckets: seq<Bucket<T>>, i: nat, key: Key, pred: Handler<T>, ghost table: Table<T>,
                       ghost repr: set<object>)
    returns (found: bool)
    requires Chains(buckets, repr) && |table| == |buckets| && Hold(buckets, table, repr) && i < |buckets|
    modifies repr
    ensures Chains(buckets, repr) && found == (Find(table[i], key) < |table[i]|)
    ensures Hold(buckets, table[i := DroppedIf(table[i], key, pred)], repr)
  {
    hide Find, DroppedIf, Chain, Distinct, Pairs;
    var b := buckets[i];
    found := b.RemoveIf(key, pred);
    forall j | 0 <= j < |buckets| && j != i
      ensures buckets[j].Repr == old(buckets[j].Repr) && buckets[j].Valid()
      ensures buckets[j].Contents() == old(buckets[j].Contents())
    {
      assert buckets[j] in old(buckets[j].Repr);
    }
  }

  method GcAt<T, A>(buckets: seq<Bucket<T>>, i: nat, pred: Predicate<T, A>, start: A, ghost table: Table<T>,
                    ghost repr: set<object>)
    returns (a: A)
    requires Chains(buckets, repr) && |table| == |buckets| && Hold(buckets, table, repr) && i < |buckets|
    modifies repr
    ensures Chains(buckets, repr) && Hold(buckets, table[i := Swept(table[i], pred, start).0], repr)
    ensures a == Swept(table[i], pred, start).1
  {
    hide Swept, Chain, Distinct, Pairs;
    var b := buckets[i];
    a := b.Gc(pred, start);
    forall j | 0 <= j < |buckets| && j != i
      ensures buckets[j].Repr == old(buckets[j].Repr) && buckets[j].Valid()
      ensures buckets[j].Contents() == old(buckets[j].Contents())
    {
      assert buckets[j] in old(buckets[j].Repr);
    }
  }

  method NewBuckets<T>(n: nat) returns (buckets: seq<Bucket<T>>, ghost repr: set<object>)
    ensures |buckets| == n && Chains(buckets, repr) && fresh(repr)
    ensures Hold(buckets, seq(n, _ => []), repr)
  {
    buckets, repr := [], {};
    while |buckets| < n
      invariant |buckets| <= n && fresh(repr) && Chains(buckets, repr)
      invariant forall i :: 0 <= i < |buckets| ==> buckets[i].Contents() == []
    {
      var b := new Bucket<T>();
      buckets, repr := buckets + [b], repr + b.Repr;
    }
  }

  lemma EmptyTable<T>(n: nat, hash: Key -> nat)
    requires n > 0
    ensures var t: Table<T> := seq(n, _ => []); Ordered(t, hash) && MapOf(t, hash) == map[]
  {
    var t: Table<T> := seq(n, _ => []);
    assert KeysOf(t) == {};
  }

  class HashMap<T(!new)> {
    const hash: Key -> nat
    const buckets: seq<Bucket<T>>
    ghost var table: Table<T>
    ghost var repr: set<object>

    constructor (hash: Key -> nat, n: nat)
      requires n > 0
      ensures Valid() && fresh(repr) && this.hash == hash && Contents() == map[]
    {
      hide MapOf, Ordered;
      this.hash := hash;
      var bs, r := NewBuckets<T>(n);
      buckets, table, repr := bs, seq(n, _ => []), r;
      EmptyTable<T>(n, hash);
    }

    ghost predicate Valid()
      reads this, repr
    {
      && this !in repr && Chains(buckets, repr) && |table| == |buckets| && Hold(buckets, table, repr)
      && Ordered(table, hash)
    }

    /** The map the buckets hold. */
    ghost function Contents(): map<Key, T>
      requires Ordered(table, hash)
      reads this
    {
      MapOf(table, hash)
    }

    /** `hash_map::apply`. */
    method Apply(key: Key, h: Option<Handler<T>>, c: Option<Creator<T>>) returns (ok: bool)
      requires Valid()
      modifies this, repr
      ensures Valid() && fresh(repr - old(repr))
      ensures Contents() == AppliedMap(old(Contents()), key, h, c)
      ensures ok == var m := old(Contents()); if key in m then h.Some? && h.value(key, m[key]).0 else c.Some?
    {
      hide Placed, MapOf, Applied, AppliedMap, Chains, Hold;
      var i := hash(key) % |buckets|;
      MapApplied(table, hash, key, h, c);
      ghost var repr';
      ok, repr' := ApplyAt(buckets, i, key, h, c, table, repr);
      table, repr := table[i := Applied(table[i], key, h, c).1], repr';
    }

    /** `hash_map::remove`. */
    method Remove(key: Key) returns (ok: bool)
      requires Valid()
      modifies this, repr
      ensures Valid() && repr == old(repr)
      ensures ok == (key in old(Contents())) && Contents() == old(Contents()) - {key}
    {
      hide Placed, MapOf, Dropped, Chains, Hold;
      var i := hash(key) % |buckets|;
      MapRemoved(table, hash, key);
      ok := RemoveAt(buckets, i, key, table, repr);
      table := table[i := Dropped(table[i], key)];
    }

    /** `hash_map::remove_if`. */
    method RemoveIf(key: Key, pred: Handler<T>) returns (found: bool)
      requires Valid()
      modifies this, repr
      ensures Valid() && repr == old(repr)
      ensures found == (key in old(Contents())) && Contents() == RemovedIf(old(Contents()), key, pred)
    {
      hide Placed, MapOf, DroppedIf, RemovedIf, Chains, Hold;
      var i := hash(key) % |buckets|;
      MapRemovedIf(table, hash, key, pred);
      found := RemoveIfAt(buckets, i, key, pred, table, repr);
      table := table[i := DroppedIf(table[i], key, pred)];
    }

    /**
      The loop over all buckets of a GC thread.  The items that go are exactly those the predicate
      selects, whenever its answers do not depend on the state it carries along.
    */
    method Gc<A(!new)>(pred: Predicate<T, A>, start: A, ghost goes: (Key, T) -> bool, ghost becomes: (Key, T) -> T)
      returns (a: A)
      requires Valid()
      modifies this, repr
      ensures Valid() && repr == old(repr)
      ensures (table, a) == SweptTable(old(table), pred, start, |old(table)|)
      ensures Stateless(pred, goes, becomes) ==> Contents() == SweptMap(old(Contents()), goes, becomes)
    {
      hide Ordered, MapOf, Chains, Hold, Swept, Stateless;
      a := start;
      var i := 0;
      while i < |buckets|
        invariant 0 <= i <= |buckets| && repr == old(repr) && |table| == |buckets|
        invariant this !in repr && Chains(buckets, repr) && Hold(buckets, table, repr)
        invariant (table, a) == SweptTable(old(table), pred, start, i)
      {
        ghost var before := a;
        a := GcAt(buckets, i, pred, a, table, repr);
        table := table[i := Swept(table[i], pred, before).0];
        i := i + 1;
      }
      SweptOrdered(old(table), hash, pred, start, |buckets|);
      if Stateless(pred, goes, becomes) {
        MapSwept(old(table), hash, pred, start, goes, becomes);
      }
    }
  }
}
