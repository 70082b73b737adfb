/** The chained hash map: singly linked buckets, relinked in place, refine a finite map. */
module HashMaps {
  import opened Seqs
  import opened Numeric

  type Key = seq<byte>

  /** A hash item. */
  class Node<T> {
    const key: Key
    var obj: T
    var next: Node?<T>

    constructor (key: Key, obj: T, next: Node?<T>)
      ensures this.key == key && this.obj == obj && this.next == next
    {
      this.key, this.obj, this.next := key, obj, next;
    }
  }

  // ---------------------------------------------------------------- chains as sequences of pairs

  /** Position of the first pair with this key, or the length. */
  function Find<T>(ps: seq<(Key, T)>, key: Key): (i: nat)
    ensures i <= |ps| && (i < |ps| ==> ps[i].0 == key)
    ensures forall j :: 0 <= j < i ==> ps[j].0 != key
  {
    if ps == [] || ps[0].0 == key then 0 else 1 + Find(ps[1..], key)
  }

  ghost predicate Distinct<T>(ps: seq<(Key, T)>) {
    forall i, j :: 0 <= i < j < |ps| ==> ps[i].0 != ps[j].0
  }

  /** A handler answers and may change the object; a predicate also carries its own state. */
  type Handler<!T> = (Key, T) -> (bool, T)
  type Creator<!T> = Key -> T
  type Predicate<!T, !A> = (A, Key, T) -> (bool, T, A)

  function Applied<T>(ps: seq<(Key, T)>, key: Key, h: Option<Handler<T>>, c: Option<Creator<T>>)
    : (bool, seq<(Key, T)>)
  {
    var i := Find(ps, key);
    if i < |ps| then
      if h.None? then (false, ps)
      else
        var r := h.value(key, ps[i].1);
        (r.0, ps[i := (key, r.1)])
    else if c.None? then (false, ps)
    else (true, [(key, c.value(key))] + ps)
  }

  /** The pairs without the one with this key. */
  function Dropped<T>(ps: seq<(Key, T)>, key: Key): seq<(Key, T)> {
    if Find(ps, key) < |ps| then Without(ps, Find(ps, key)) else ps
  }

  /** The pair with this key goes, or gets a new object, as the predicate decides. */
  function DroppedIf<T>(ps: seq<(Key, T)>, key: Key, pred: Handler<T>): seq<(Key, T)> {
    var i := Find(ps, key);
    if i == |ps| then ps
    else
      var r := pred(key, ps[i].1);
      if r.0 then Without(ps, i) else ps[i := (key, r.1)]
  }

  /** Drop what the predicate selects; it sees every pair once, in order. */
  function Swept<T, A>(ps: seq<(Key, T)>, pred: Predicate<T, A>, a: A): (seq<(Key, T)>, A)
    decreases |ps|
  {
    if ps == [] then ([], a)
    else
      var r := pred(a, ps[0].0, ps[0].1);
      var rest := Swept(ps[1..], pred, r.2);
      (if r.0 then rest.0 else [(ps[0].0, r.1)] + rest.0, rest.1)
  }

  /** One turn at position `i`: the pairs, the next position and the predicate's state after it. */
  function Moved<T, A>(ps: seq<(Key, T)>, i: nat, pred: Predicate<T, A>, a: A): (seq<(Key, T)>, nat, A)
    requires i < |ps|
  {
    var r := pred(a, ps[i].0, ps[i].1);
    if r.0 then (Without(ps, i), i, r.2) else (ps[i := (ps[i].0, r.1)], i + 1, r.2)
  }

  lemma SweptNothing<T, A>(pred: Predicate<T, A>, a: A)
    ensures Swept([], pred, a) == ([], a)
  {}

  lemma SweepOn<T, A>(ps: seq<(Key, T)>, i: nat, pred: Predicate<T, A>, a: A)
    requires i < |ps|
    ensures var (ps', i', a') := Moved(ps, i, pred, a);
      && i' <= |ps'|
      && ps'[..i'] + Swept(ps'[i'..], pred, a').0 == ps[..i] + Swept(ps[i..], pred, a).0
      && Swept(ps'[i'..], pred, a').1 == Swept(ps[i..], pred, a).1
  {
    var r := pred(a, ps[i].0, ps[i].1);
    assert ps[i..][1..] == ps[i + 1..];
    var (ps', i', a') := Moved(ps, i, pred, a);
    assert ps'[i'..] == ps[i + 1..];
    if r.0 {
      assert ps'[..i] == ps[..i];
    } else {
      assert ps'[..i + 1] == ps[..i] + [(ps[i].0, r.1)];
      Assoc(ps[..i], [(ps[i].0, r.1)], Swept(ps[i + 1..], pred, r.2).0);
    }
  }

  /** A predicate that also writes down what it is called with. */
  function Recording<T>(goes: (Key, T) -> bool, becomes: (Key, T) -> T): Predicate<T, seq<(Key, T)>> {
    (calls, k, o) => (goes(k, o), becomes(k, o), calls + [(k, o)])
  }

  /** The predicate is called once per item, in chain order. */
  lemma {:induction false} CalledInOrder<T>(ps: seq<(Key, T)>, goes: (Key, T) -> bool, becomes: (Key, T) -> T,
                                            calls: seq<(Key, T)>)
    ensures Swept(ps, Recording(goes, becomes), calls).1 == calls + ps
    decreases |ps|
  {
    if ps != [] {
      CalledInOrder(ps[1..], goes, becomes, calls + [ps[0]]);
      assert calls + [ps[0]] + ps[1..] == calls + ps;
      assert (ps[0].0, ps[0].1) == ps[0];
    }
  }

  lemma {:induction false} SweptKeys<T, A>(ps: seq<(Key, T)>, pred: Predicate<T, A>, a: A, i: nat)
    requires i < |Swept(ps, pred, a).0|
    ensures exists j :: 0 <= j < |ps| && ps[j].0 == Swept(ps, pred, a).0[i].0
    decreases |ps|
  {
    var r := pred(a, ps[0].0, ps[0].1);
    var rest := Swept(ps[1..], pred, r.2).0;
    if r.0 || i > 0 {
      var k := if r.0 then i else i - 1;
      SweptKeys(ps[1..], pred, r.2, k);
      var j :| 0 <= j < |ps[1..]| && ps[1..][j].0 == rest[k].0;
      assert ps[j + 1].0 == Swept(ps, pred, a).0[i].0;
    }
  }

  lemma {:induction false} SweptDistinct<T, A>(ps: seq<(Key, T)>, pred: Predicate<T, A>, a: A)
    requires Distinct(ps)
    ensures Distinct(Swept(ps, pred, a).0)
    decreases |ps|
  {
    if ps != [] {
      var r := pred(a, ps[0].0, ps[0].1);
      SweptDistinct(ps[1..], pred, r.2);
      var rest := Swept(ps[1..], pred, r.2).0;
      forall i | 0 <= i < |rest|
        ensures rest[i].0 != ps[0].0
      {
        SweptKeys(ps[1..], pred, r.2, i);
        var j :| 0 <= j < |ps[1..]| && ps[1..][j].0 == rest[i].0;
        assert ps[j + 1].0 == rest[i].0;
      }
    }
  }

  lemma StillDistinct<T>(ps: seq<(Key, T)>, i: nat)
    requires Distinct(ps) && i < |ps|
    ensures Distinct(Without(ps, i))
  {
    assert forall j :: 0 <= j < |ps| - 1 ==> Without(ps, i)[j] == ps[if j < i then j else j + 1];
  }

  // ---------------------------------------------------------------- a bucket

  ghost function Pairs<T>(spine: seq<Node<T>>): (ps: seq<(Key, T)>)
    reads spine
    ensures |ps| == |spine| && forall i :: 0 <= i < |spine| ==> ps[i] == (spine[i].key, spine[i].obj)
  {
    seq(|spine|, i requires 0 <= i < |spine| reads spine => (spine[i].key, spine[i].obj))
  }

  /** Node `i`, or null behind the last one. */
  ghost function At<T>(spine: seq<Node<T>>, i: nat): Node?<T> {
    if i < |spine| then spine[i] else null
  }

  ghost predicate Linked<T>(spine: seq<Node<T>>)
    reads spine
  {
    forall i :: 0 <= i < |spine| ==> spine[i].next == At(spine, i + 1)
  }

  /** The nodes are distinct and linked in this order. */
  ghost predicate Chain<T>(head: Node?<T>, spine: seq<Node<T>>)
    reads spine
  {
    NoDup(spine) && head == At(spine, 0) && Linked(spine)
  }

  /** All links of the chain are in place, but the one to node `i` leads past it. */
  lemma Cut<T>(s: seq<Node<T>>, i: nat)
    requires NoDup(s) && i < |s|
    requires forall j :: 0 <= j < |s| && j != i - 1 ==> s[j].next == At(s, j + 1)
    requires i > 0 ==> s[i - 1].next == At(s, i + 1)
    ensures Linked(Without(s, i)) && NoDup(Without(s, i))
    ensures At(Without(s, i), 0) == if i == 0 then At(s, 1) else At(s, 0)
  {
    var r := Without(s, i);
    WithoutNoDup(s, i);
    forall j | 0 <= j < |r|
      ensures r[j].next == At(r, j + 1)
    {
      WithoutAt(s, i, j);
      if j + 1 < |r| { WithoutAt(s, i, j + 1); }
    }
    if |s| > 1 { WithoutAt(s, i, 0); }
  }

  lemma PairsWithout<T>(s: seq<Node<T>>, i: nat)
    requires i < |s|
    ensures Pairs(Without(s, i)) == Without(Pairs(s), i)
  {
    forall j | 0 <= j < |s| - 1
      ensures Pairs(Without(s, i))[j] == Without(Pairs(s), i)[j]
    {
      WithoutAt(s, i, j);
      WithoutAt(Pairs(s), i, j);
    }
  }

  /** A new node in front. */
  lemma Grown<T>(s: seq<Node<T>>, n: Node<T>)
    requires NoDup(s) && Linked(s) && n !in s && n.next == At(s, 0)
    ensures NoDup([n] + s) && Linked([n] + s)
    ensures Pairs([n] + s) == [(n.key, n.obj)] + Pairs(s)
  {
    var r := [n] + s;
    forall j | 0 <= j < |r|
      ensures r[j].next == At(r, j + 1)
    {
      if j > 0 { LinkAt(s, j - 1); }
    }
  }

  lemma MoreDistinct<T>(ps: seq<(Key, T)>, key: Key, obj: T)
    requires Distinct(ps) && Find(ps, key) == |ps|
    ensures Distinct([(key, obj)] + ps)
  {}

  ghost predicate Inside<T>(spine: seq<Node<T>>, repr: set<object>) {
    forall i :: 0 <= i < |spine| ==> spine[i] in repr
  }

  lemma InsideWithout<T>(s: seq<Node<T>>, i: nat, repr: set<object>)
    requires Inside(s, repr) && i < |s|
    ensures Inside(Without(s, i), repr)
  {
    forall j | 0 <= j < |s| - 1
      ensures Without(s, i)[j] in repr
    {
      WithoutAt(s, i, j);
    }
  }

  lemma LinkAt<T>(s: seq<Node<T>>, i: nat)
    requires Linked(s) && i < |s|
    ensures s[i].next == At(s, i + 1)
  {}

  class Bucket<T> {
    var head: Node?<T>
    ghost var spine: seq<Node<T>>
    ghost var Repr: set<object>

    ghost predicate Valid()
      reads this, Repr
    {
      && this in Repr && Inside(spine, Repr)
      && Chain(head, spine) && Distinct(Pairs(spine))
    }

    ghost function Contents(): seq<(Key, T)>
      reads this, spine
    {
      Pairs(spine)
    }

    constructor ()
      ensures Valid() && Contents() == [] && fresh(Repr)
    {
      head, spine, Repr := null, [], {this};
    }

    /** Walk the chain to the key; `prev` holds the link that leads there, null being the head. */
    method Locate(key: Key) returns (prev: Node?<T>, p: Node?<T>, ghost i: nat)
      requires Valid()
      ensures i == Find(Contents(), key) && p == At(spine, i)
      ensures p == null <==> Find(Contents(), key) == |Contents()|
      ensures p != null ==> p.key == key
      ensures i <= |spine| && prev == if i == 0 then null else spine[i - 1]
    {
      hide Distinct;
      prev, p, i := null, head, 0;
      while p != null && p.key != key
        invariant i <= |spine| && p == At(spine, i)
        invariant prev == if i == 0 then null else spine[i - 1]
        invariant forall j :: 0 <= j < i ==> Contents()[j].0 != key
        decreases |spine| - i
      {
        assert spine[i].next == At(spine, i + 1);
        prev, p := p, p.next;
        i := i + 1;
      }
    }

    /** Change the object of node `i`. */
    method Assign(p: Node<T>, obj: T, ghost i: nat)
      requires Valid() && i < |spine| && p == spine[i]
      modifies p`obj
      ensures Valid() && Contents() == old(Contents())[i := (p.key, obj)]
    {
      p.obj := obj;
      assert Contents() == old(Contents())[i := (p.key, obj)];
    }

    method Insert(key: Key, obj: T)
      requires Valid() && Find(Contents(), key) == |Contents()|
      modifies this
      ensures Valid() && Contents() == [(key, obj)] + old(Contents())
      ensures fresh(Repr - old(Repr))
    {
      hide Distinct;
      ghost var s, ps := spine, Contents();
      var n := new Node(key, obj, head);
      head, spine, Repr := n, [n] + s, Repr + {n};
      assert Pairs(s) == ps;
      Grown(s, n);
      MoreDistinct(ps, key, obj);
    }

    /** `apply`: handle an existing object, or create one at the head of the chain. */
    method Apply(key: Key, h: Option<Handler<T>>, c: Option<Creator<T>>) returns (ok: bool)
      requires Valid()
      modifies Repr
      ensures Valid() && (ok, Contents()) == Applied(old(Contents()), key, h, c)
      ensures fresh(Repr - old(Repr))
    {
      hide Distinct, Chain, Find;
      ghost var ps := Contents();
      var _, p, i := Locate(key);
      if p != null {
        if h.None? { return false; }
        var r := h.value(p.key, p.obj);
        assert ps[i] == (key, p.obj);
        Assign(p, r.1, i);
        return r.0;
      }
      if c.None? { return false; }
      Insert(key, c.value(key));
      return true;
    }

    /** The link that leads to node `i` gets a new target: `*p = to_delete->next`. */
    method Relink(prev: Node?<T>, node: Node<T>, ghost i: nat)
      requires Chain(head, spine) && i < |spine| && node == spine[i]
      requires prev == if i == 0 then null else spine[i - 1]
      modifies `head, if prev == null then {} else {prev}
      ensures head == if i == 0 then At(spine, 1) else At(spine, 0)
      ensures forall j :: 0 <= j < |spine| && j != i - 1 ==> spine[j].next == At(spine, j + 1)
      ensures i > 0 ==> spine[i - 1].next == At(spine, i + 1)
      ensures forall j :: 0 <= j < |spine| ==> spine[j].obj == old(spine[j].obj)
    {
      LinkAt(spine, i);
      if prev == null {
        head := node.next;
      } else {
        prev.next := node.next;
      }
    }

    method Unlink(prev: Node?<T>, node: Node<T>, ghost i: nat)
      requires Valid() && i < |spine| && node == spine[i]
      requires prev == if i == 0 then null else spine[i - 1]
      modifies Repr
      ensures Valid() && spine == Without(old(spine), i) && Contents() == Without(old(Contents()), i)
      ensures Repr == old(Repr)
    {
      hide Distinct;
      ghost var s, ps := spine, Contents();
      Relink(prev, node, i);
      spine := Without(s, i);
      assert Pairs(s) == ps;
      InsideWithout(s, i, Repr);
      Cut(s, i);
      PairsWithout(s, i);
      StillDistinct(ps, i);
    }

    method Remove(key: Key) returns (ok: bool)
      requires Valid()
      modifies Repr
      ensures Valid() && Contents() == Dropped(old(Contents()), key)
      ensures ok == (Find(old(Contents()), key) < |old(Contents())|)
      ensures Repr == old(Repr)
    {
      hide Distinct, Chain;
      var prev, p, i := Locate(key);
      if p == null { return false; }
      Unlink(prev, p, i);
      return true;
    }

    /** `remove_if`: the predicate decides on, and may change, the object. */
    method RemoveIf(key: Key, pred: Handler<T>) returns (found: bool)
      requires Valid()
      modifies Repr
      ensures Valid() && Contents() == DroppedIf(old(Contents()), key, pred)
      ensures found == (Find(old(Contents()), key) < |old(Contents())|)
      ensures Repr == old(Repr)
    {
      hide Distinct, Chain;
      var prev, p, i := Locate(key);
      if p == null { return false; }
      var r := pred(key, p.obj);
      if r.0 {
        Unlink(prev, p, i);
      } else {
        Assign(p, r.1, i);
      }
      return true;
    }

    /** One turn of `gc` at node `i`: drop it, or keep it and move on. */
    method GcStep<A>(pred: Predicate<T, A>, a: A, prev: Node?<T>, p: Node<T>, ghost i: nat)
      returns (a': A, prev': Node?<T>, p': Node?<T>, ghost i': nat)
      requires Valid() && i < |spine| && p == spine[i] && prev == if i == 0 then null else spine[i - 1]
      modifies Repr
      ensures Valid() && i' <= |spine| && p' == At(spine, i') && prev' == if i' == 0 then null else spine[i' - 1]
      ensures (Contents(), i', a') == Moved(old(Contents()), i, pred, a)
      ensures |spine| - i' == |old(spine)| - i - 1
      ensures Repr == old(Repr)
    {
      hide Distinct;
      ghost var s := spine;
      LinkAt(s, i);
      p' := p.next;
      var r := pred(a, p.key, p.obj);
      a' := r.2;
      if r.0 {
        Unlink(prev, p, i);
        prev', i' := prev, i;
        if i + 1 < |s| { WithoutAt(s, i, i); }
        if i > 0 { WithoutAt(s, i, i - 1); }
      } else {
        Assign(p, r.1, i);
        prev', i' := p, i + 1;
      }
    }

    /** `gc`: one pass over the chain; the predicate is called once per item, in order. */
    method Gc<A>(pred: Predicate<T, A>, start: A) returns (a: A)
      requires Valid()
      modifies Repr
      ensures Valid() && Contents() == Swept(old(Contents()), pred, start).0
      ensures a == Swept(old(Contents()), pred, start).1
      ensures Repr == old(Repr)
    {
      hide Distinct, Linked, Swept, Moved;
      a := start;
      var prev: Node?<T>, p := null, head;
      ghost var i: nat := 0;
      ghost var goal := Swept(Contents(), pred, start);
      assert Contents()[0..] == Contents();
      while p != null
        invariant Valid() && i <= |spine| && p == At(spine, i)
        invariant prev == if i == 0 then null else spine[i - 1]
        invariant Contents()[..i] + Swept(Contents()[i..], pred, a).0 == goal.0
        invariant Swept(Contents()[i..], pred, a).1 == goal.1
        invariant Repr == old(Repr)
        decreases |spine| - i
      {
        SweepOn(Contents(), i, pred, a);
        a, prev, p, i := GcStep(pred, a, prev, p, i);
      }
      SweptNothing(pred, a);
      assert Contents()[i..] == [] && Contents()[..i] == Contents();
    }
  }

  // ---------------------------------------------------------------- the map

  function Get<T>(ps: seq<(Key, T)>, k: Key): Option<T> {
    if Find(ps, k) < |ps| then Some(ps[Find(ps, k)].1) else None
  }

  function Lookup<T>(m: map<Key, T>, k: Key): Option<T> {
    if k in m then Some(m[k]) else None
  }

  lemma FindIs<T>(ps: seq<(Key, T)>, k: Key, i: nat)
    requires Distinct(ps) && i < |ps| && ps[i].0 == k
    ensures Find(ps, k) == i
  {}

  lemma GetApplied<T>(ps: seq<(Key, T)>, key: Key, h: Option<Handler<T>>, c: Option<Creator<T>>, k: Key)
    requires Distinct(ps)
    ensures var r := Applied(ps, key, h, c).1;
      Get(r, k) ==
        if k != key then Get(ps, k)
        else if Get(ps, key).Some? then (if h.None? then Get(ps, key) else Some(h.value(key, Get(ps, key).value).1))
        else if c.None? then None else Some(c.value(key))
  {
    var r := Applied(ps, key, h, c).1;
    var i, j := Find(ps, key), Find(ps, k);
    if i < |ps| {
      if j < |ps| {
        assert Distinct(r);
        FindIs(r, k, j);
      }
    } else if c.Some? {
      if k != key {
        assert r[1..] == ps;
      }
    }
  }

  lemma GetWithout<T>(ps: seq<(Key, T)>, key: Key, k: Key)
    requires Distinct(ps) && Find(ps, key) < |ps|
    ensures Get(Without(ps, Find(ps, key)), k) == if k == key then None else Get(ps, k)
  {
    var i, j := Find(ps, key), Find(ps, k);
    var r := Without(ps, i);
    StillDistinct(ps, i);
    assert forall x :: 0 <= x < |r| ==> r[x] == ps[if x < i then x else x + 1];
    if k != key && j < |ps| {
      FindIs(r, k, if j < i then j else j - 1);
    } else {
      assert forall x :: 0 <= x < |r| ==> r[x].0 != k;
    }
  }

  /** The predicate's answer and effect do not depend on the state it carries. */
  ghost predicate Stateless<T(!new), A(!new)>(pred: Predicate<T, A>, goes: (Key, T) -> bool, becomes: (Key, T) -> T) {
    forall a, k, o :: pred(a, k, o).0 == goes(k, o) && pred(a, k, o).1 == becomes(k, o)
  }

  function Survives<T>(o: Option<T>, k: Key, goes: (Key, T) -> bool, becomes: (Key, T) -> T): Option<T> {
    if o.Some? && !goes(k, o.value) then Some(becomes(k, o.value)) else None
  }

  /** `gc` removes exactly what the predicate selects. */
  lemma {:induction false} GetSwept<T(!new), A(!new)>(ps: seq<(Key, T)>, pred: Predicate<T, A>, a: A,
                                          goes: (Key, T) -> bool, becomes: (Key, T) -> T, k: Key)
    requires Distinct(ps) && Stateless(pred, goes, becomes)
    ensures Get(Swept(ps, pred, a).0, k) == Survives(Get(ps, k), k, goes, becomes)
    decreases |ps|
  {
    if ps != [] {
      var r := pred(a, ps[0].0, ps[0].1);
      var rest := Swept(ps[1..], pred, r.2).0;
      GetSwept(ps[1..], pred, r.2, goes, becomes, k);
      if k == ps[0].0 {
        assert Get(ps[1..], k).None?;
      } else {
        assert Get(ps, k) == Get(ps[1..], k);
        if !r.0 { assert ([(ps[0].0, r.1)] + rest)[1..] == rest; }
      }
    }
  }

  /** The contents of the buckets: every key is in the bucket its hash selects, and there once. */
  type Table<T> = seq<seq<(Key, T)>>

  function Index(hash: Key -> nat, size: nat, k: Key): (i: nat)
    requires size > 0
    ensures i < size
  {
    hash(k) % size
  }

  ghost predicate Placed<T>(ps: seq<(Key, T)>, hash: Key -> nat, size: nat, i: nat)
    requires size > 0
  {
    Distinct(ps) && forall j :: 0 <= j < |ps| ==> Index(hash, size, ps[j].0) == i
  }

  ghost predicate Ordered<T>(t: Table<T>, hash: Key -> nat) {
    |t| > 0 && forall i :: 0 <= i < |t| ==> Placed(t[i], hash, |t|, i)
  }

  predicate Shows<T(==)>(t: Table<T>, hash: Key -> nat, m: map<Key, T>, k: Key)
    requires |t| > 0
  {
    Get(t[Index(hash, |t|, k)], k) == Lookup(m, k)
  }

  /** The buckets are an ordered table and hold exactly the map. */
  ghost predicate Refines<T>(t: Table<T>, hash: Key -> nat, m: map<Key, T>) {
    Ordered(t, hash) && forall k :: Shows(t, hash, m, k)
  }

  function AppliedMap<T>(m: map<Key, T>, key: Key, h: Option<Handler<T>>, c: Option<Creator<T>>): map<Key, T> {
    if key in m then if h.None? then m else m[key := h.value(key, m[key]).1]
    else if c.None? then m else m[key := c.value(key)]
  }

  /** One bucket replaced: the rest of the table goes on showing the rest of the map. */
  lemma BucketRefines<T>(t: Table<T>, hash: Key -> nat, m: map<Key, T>, i: nat, ps: seq<(Key, T)>, m': map<Key, T>)
    requires Refines(t, hash, m) && i < |t| && Placed(ps, hash, |t|, i)
    requires forall k :: Index(hash, |t|, k) == i ==> Get(ps, k) == Lookup(m', k)
    requires forall k :: Index(hash, |t|, k) != i ==> Lookup(m, k) == Lookup(m', k)
    ensures Refines(t[i := ps], hash, m')
  {
    var t' := t[i := ps];
    forall k
      ensures Shows(t', hash, m', k)
    {
      assert Shows(t, hash, m, k);
    }
  }

  lemma ApplyRefines<T>(t: Table<T>, hash: Key -> nat, m: map<Key, T>, key: Key, h: Option<Handler<T>>,
                        c: Option<Creator<T>>)
    requires Refines(t, hash, m)
    ensures var i := Index(hash, |t|, key);
      && Refines(t[i := Applied(t[i], key, h, c).1], hash, AppliedMap(m, key, h, c))
      && Applied(t[i], key, h, c).0 == if key in m then h.Some? && h.value(key, m[key]).0 else c.Some?
  {
    var i := Index(hash, |t|, key);
    assert Shows(t, hash, m, key);
    forall k | Index(hash, |t|, k) == i
      ensures Get(Applied(t[i], key, h, c).1, k) == Lookup(AppliedMap(m, key, h, c), k)
    {
      assert Shows(t, hash, m, k);
      GetApplied(t[i], key, h, c, k);
    }
    AppliedPlaced(t[i], hash, |t|, key, h, c);
    hide Applied, Get;
    BucketRefines(t, hash, m, i, Applied(t[i], key, h, c).1, AppliedMap(m, key, h, c));
  }

  lemma AppliedPlaced<T>(ps: seq<(Key, T)>, hash: Key -> nat, size: nat, key: Key, h: Option<Handler<T>>,
                         c: Option<Creator<T>>)
    requires size > 0 && Placed(ps, hash, size, Index(hash, size, key))
    ensures Placed(Applied(ps, key, h, c).1, hash, size, Index(hash, size, key))
  {
    if Find(ps, key) == |ps| && c.Some? { MoreDistinct(ps, key, c.value(key)); }
  }

  lemma WithoutPlaced<T>(ps: seq<(Key, T)>, hash: Key -> nat, size: nat, i: nat, n: nat)
    requires size > 0 && Placed(ps, hash, size, i) && n < |ps|
    ensures Placed(Without(ps, n), hash, size, i)
  {
    StillDistinct(ps, n);
    assert forall j :: 0 <= j < |ps| - 1 ==> Without(ps, n)[j] == ps[if j < n then j else j + 1];
  }

  lemma RemoveRefines<T>(t: Table<T>, hash: Key -> nat, m: map<Key, T>, key: Key)
    requires Refines(t, hash, m)
    ensures var i := Index(hash, |t|, key);
      && (Find(t[i], key) < |t[i]| <==> key in m)
      && (key in m ==> Refines(t[i := Without(t[i], Find(t[i], key))], hash, m - {key}))
  {
    var i := Index(hash, |t|, key);
    var n := Find(t[i], key);
    assert Shows(t, hash, m, key);
    if key in m {
      var ps := Without(t[i], n);
      forall k | Index(hash, |t|, k) == i
        ensures Get(ps, k) == Lookup(m - {key}, k)
      {
        assert Shows(t, hash, m, k);
        GetWithout(t[i], key, k);
      }
      WithoutPlaced(t[i], hash, |t|, i, n);
      hide Get, Placed;
      BucketRefines(t, hash, m, i, ps, m - {key});
    }
  }

  /** The map without what the predicate selects, the rest as the predicate leaves it. */
  function SweptMap<T>(m: map<Key, T>, goes: (Key, T) -> bool, becomes: (Key, T) -> T): map<Key, T> {
    map k | k in m && !goes(k, m[k]) :: becomes(k, m[k])
  }

  /** Bucket `i` swept. */
  function SweptAt<T>(m: map<Key, T>, hash: Key -> nat, size: nat, i: nat, goes: (Key, T) -> bool,
                      becomes: (Key, T) -> T): map<Key, T>
    requires size > 0
  {
    map k | k in m && (Index(hash, size, k) == i ==> !goes(k, m[k])) ::
      if Index(hash, size, k) == i then becomes(k, m[k]) else m[k]
  }

  lemma GcRefines<T(!new), A(!new)>(t: Table<T>, hash: Key -> nat, m: map<Key, T>, i: nat, pred: Predicate<T, A>, a: A,
                                    goes: (Key, T) -> bool, becomes: (Key, T) -> T)
    requires Refines(t, hash, m) && i < |t| && Stateless(pred, goes, becomes)
    ensures Refines(t[i := Swept(t[i], pred, a).0], hash, SweptAt(m, hash, |t|, i, goes, becomes))
  {
    var ps, m' := Swept(t[i], pred, a).0, SweptAt(m, hash, |t|, i, goes, becomes);
    assert Placed(t[i], hash, |t|, i);
    forall k | Index(hash, |t|, k) == i
      ensures Get(ps, k) == Lookup(m', k)
    {
      assert Shows(t, hash, m, k);
      GetSwept(t[i], pred, a, goes, becomes, k);
    }
    SweptDistinct(t[i], pred, a);
    forall j | 0 <= j < |ps|
      ensures Index(hash, |t|, ps[j].0) == i
    {
      SweptKeys(t[i], pred, a, j);
    }
    BucketRefines(t, hash, m, i, ps, m');
  }

  /** The first `n` buckets swept one after the other. */
  function SweptTable<T, A>(t: Table<T>, pred: Predicate<T, A>, a: A, n: nat): (Table<T>, A)
    requires n <= |t|
    ensures |SweptTable(t, pred, a, n).0| == |t|
  {
    if n == 0 then (t, a)
    else
      var r := SweptTable(t, pred, a, n - 1);
      var s := Swept(r.0[n - 1], pred, r.1);
      (r.0[n - 1 := s.0], s.1)
  }

  function SweptFirst<T>(m: map<Key, T>, hash: Key -> nat, size: nat, n: nat, goes: (Key, T) -> bool,
                         becomes: (Key, T) -> T): map<Key, T>
    requires size > 0
  {
    map k | k in m && (Index(hash, size, k) < n ==> !goes(k, m[k])) ::
      if Index(hash, size, k) < n then becomes(k, m[k]) else m[k]
  }

  lemma {:induction false} GcFirst<T(!new), A(!new)>(t: Table<T>, hash: Key -> nat, m: map<Key, T>,
                                                     pred: Predicate<T, A>, a: A, n: nat,
                                                     goes: (Key, T) -> bool, becomes: (Key, T) -> T)
    requires Refines(t, hash, m) && Stateless(pred, goes, becomes) && n <= |t|
    ensures Refines(SweptTable(t, pred, a, n).0, hash, SweptFirst(m, hash, |t|, n, goes, becomes))
    decreases n
  {
    if n == 0 {
      assert SweptFirst(m, hash, |t|, n, goes, becomes) == m;
    } else {
      GcFirst(t, hash, m, pred, a, n - 1, goes, becomes);
      var r := SweptTable(t, pred, a, n - 1);
      var m1 := SweptFirst(m, hash, |t|, n - 1, goes, becomes);
      GcRefines(r.0, hash, m1, n - 1, pred, r.1, goes, becomes);
      assert SweptAt(m1, hash, |t|, n - 1, goes, becomes) == SweptFirst(m, hash, |t|, n, goes, becomes);
    }
  }

  /** A pass over all buckets removes exactly the items the predicate selects. */
  lemma GcAll<T(!new), A(!new)>(t: Table<T>, hash: Key -> nat, m: map<Key, T>, pred: Predicate<T, A>, a: A,
                                goes: (Key, T) -> bool, becomes: (Key, T) -> T)
    requires Refines(t, hash, m) && Stateless(pred, goes, becomes)
    ensures Refines(SweptTable(t, pred, a, |t|).0, hash, SweptMap(m, goes, becomes))
  {
    GcFirst(t, hash, m, pred, a, |t|, goes, becomes);
    assert SweptFirst(m, hash, |t|, |t|, goes, becomes) == SweptMap(m, goes, becomes);
  }
}
