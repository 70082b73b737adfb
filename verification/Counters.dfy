/**
  The counter server: counters shared by all connections, and what each connection has acquired.
  A bucket operation under the bucket lock is one step; `release_all` is one step per entry; the
  GC deletes one counter per step.
*/
module Counters {
  import opened Seqs
  import opened Numeric
  import opened Objects
  import opened CounterObjects

  type Name = seq<byte>

  /** A hash item; a deleted item never comes back. */
  datatype Item = Item(id: nat, counter: Counter)

  /** The address of a hash item's key, which is what a connection remembers. */
  datatype Ref = Ref(name: Name, id: nat)

  type Table = map<Name, Item>
  type Entries = map<Ref, nat>

  datatype Status = Ok | NotFound | NotAvailable | NotAcquired | Bug

  /** What a command leaves of the table and of the connection's entries. */
  datatype Result = Result(table: Table, next: nat, entries: Entries, status: Status)

  /** `on_acquire`; the sum is taken in 32 bits. */
  function OnAcquire(entries: Entries, r: Ref, n: nat): Entries {
    entries[r := if r in entries then (entries[r] + n) % TWO32 else n]
  }

  /** `on_release`; None when the connection has not acquired as much. */
  function OnRelease(entries: Entries, r: Ref, n: nat): Option<Entries> {
    if r !in entries || entries[r] < n then None
    else if entries[r] == n then Some(entries - {r})
    else Some(entries[r := entries[r] - n])
  }

  function Acquire(table: Table, next: nat, entries: Entries, name: Name, n: nat, maximum: nat, now: nat,
                   interval: nat): Result
    requires interval > 0
  {
    if name !in table then
      Result(table[name := Item(next, NewCounter(n, now))], next + 1, OnAcquire(entries, Ref(name, next), n), Ok)
    else
      var i := table[name];
      match Acquired(i.counter, n, maximum, now, interval)
      case None => Result(table, next, entries, NotAvailable)
      case Some(c) => Result(table[name := i.(counter := c)], next, OnAcquire(entries, Ref(name, i.id), n), Ok)
  }

  function Release(table: Table, next: nat, entries: Entries, name: Name, n: nat, now: nat, interval: nat): Result
    requires interval > 0
  {
    if name !in table then Result(table, next, entries, NotFound)
    else
      var i := table[name];
      match OnRelease(entries, Ref(name, i.id), n)
      case None => Result(table, next, entries, NotAcquired)
      case Some(entries') =>
        match Released(i.counter, n, now, interval)
        case None => Result(table, next, entries', Bug)
        case Some(c) => Result(table[name := i.(counter := c)], next, entries', Ok)
  }

  /** One turn of the loop in `release_all`: the key is read through the reference. */
  function ReleaseEntry(table: Table, next: nat, entries: Entries, r: Ref, now: nat, interval: nat): Result
    requires interval > 0 && r in entries
  {
    if r.name !in table || table[r.name].id != r.id then Result(table, next, entries, Bug)
    else
      match Released(table[r.name].counter, entries[r], now, interval)
      case None => Result(table, next, entries, Bug)
      case Some(c) => Result(table[r.name := Item(r.id, c)], next, entries - {r}, Ok)
  }

  // ---------------------------------------------------------------- the machine

  /** `releasing[x]` holds while connection x is inside `release_all`. */
  datatype State = State(table: Table, next: nat, conns: seq<Entries>, releasing: seq<bool>)

  datatype Step =
    | Connect
    | DoAcquire(x: nat, name: Name, n: nat, maximum: nat, now: nat)
    | DoRelease(x: nat, name: Name, n: nat, now: nat)
    | ReleaseStart(x: nat)
    | ReleaseOne(x: nat, ref: Ref, now: nat)
    | ReleaseEnd(x: nat)
    | Collect(name: Name, now: nat)

  predicate Active(s: State, x: nat) {
    x < |s.conns| && x < |s.releasing| && !s.releasing[x]
  }

  predicate Leaving(s: State, x: nat) {
    x < |s.conns| && x < |s.releasing| && s.releasing[x]
  }

  predicate Guard(s: State, st: Step, interval: nat)
    requires interval > 0
  {
    match st
    case Connect => true
    case DoAcquire(x, name, n, maximum, _) => Active(s, x) && 1 <= n <= maximum < TWO32 && name != []
    case DoRelease(x, name, n, _) => Active(s, x) && n < TWO32 && name != []
    case ReleaseStart(x) => Active(s, x)
    case ReleaseOne(x, ref, _) => Leaving(s, x) && ref in s.conns[x]
    case ReleaseEnd(x) => Leaving(s, x) && s.conns[x] == map[]
    case Collect(name, now) => name in s.table && Deletable(s.table[name].counter, now, interval)
  }

  function ResultOf(s: State, st: Step, interval: nat): Result
    requires interval > 0 && Guard(s, st, interval)
  {
    match st
    case DoAcquire(x, name, n, maximum, now) => Acquire(s.table, s.next, s.conns[x], name, n, maximum, now, interval)
    case DoRelease(x, name, n, now) => Release(s.table, s.next, s.conns[x], name, n, now, interval)
    case ReleaseOne(x, ref, now) => ReleaseEntry(s.table, s.next, s.conns[x], ref, now, interval)
    case Collect(name, _) => Result(s.table - {name}, s.next, map[], Ok)
    case _ => Result(s.table, s.next, map[], Ok)
  }

  /** The logic errors of `cmd_release` and `release_all`, or a dangling reference. */
  predicate Faults(s: State, st: Step, interval: nat)
    requires interval > 0 && Guard(s, st, interval)
  {
    ResultOf(s, st, interval).status.Bug?
  }

  function Do(s: State, st: Step, interval: nat): State
    requires interval > 0 && Guard(s, st, interval)
  {
    var r := ResultOf(s, st, interval);
    match st
    case Connect => s.(conns := s.conns + [map[]], releasing := s.releasing + [false])
    case ReleaseStart(x) => s.(releasing := s.releasing[x := true])
    case ReleaseEnd(x) => s.(releasing := s.releasing[x := false])
    case Collect(_, _) => s.(table := r.table)
    case _ => State(r.table, r.next, s.conns[st.x := r.entries], s.releasing)
  }

  function Init(): State { State(map[], 0, [], []) }

  // ---------------------------------------------------------------- sums

  function Entry(e: Entries, r: Ref): nat { if r in e then e[r] else 0 }

  /** What all connections together hold of the counter. */
  function Held(conns: seq<Entries>, r: Ref): nat {
    if conns == [] then 0 else Held(conns[..|conns| - 1], r) + Entry(conns[|conns| - 1], r)
  }

  lemma {:induction false} HeldUpdate(conns: seq<Entries>, x: nat, e: Entries, r: Ref)
    requires x < |conns|
    ensures Held(conns[x := e], r) == Held(conns, r) - Entry(conns[x], r) + Entry(e, r)
    ensures Held(conns, r) >= Entry(conns[x], r)
    decreases |conns|
  {
    var n := |conns| - 1;
    if x == n {
      assert conns[x := e][..n] == conns[..n];
    } else {
      HeldUpdate(conns[..n], x, e, r);
      assert conns[x := e][..n] == conns[..n][x := e];
    }
  }

  lemma HeldExtended(conns: seq<Entries>, r: Ref)
    ensures Held(conns + [map[]], r) == Held(conns, r)
  {
    assert (conns + [map[]])[..|conns|] == conns;
  }

  lemma {:induction false} HeldNone(conns: seq<Entries>, r: Ref)
    requires forall x :: 0 <= x < |conns| ==> r !in conns[x]
    ensures Held(conns, r) == 0
    decreases |conns|
  {
    if conns != [] { HeldNone(conns[..|conns| - 1], r); }
  }

  // ---------------------------------------------------------------- conservation

  predicate AliveRef(table: Table, r: Ref) {
    r.name in table && table[r.name].id == r.id
  }

  ghost predicate Ids(table: Table, next: nat, conns: seq<Entries>, releasing: seq<bool>) {
    && |conns| == |releasing|
    && (forall k :: k in table ==> table[k].id < next && table[k].counter.consumption < TWO32)
    && (forall x, r :: 0 <= x < |conns| && r in conns[x] ==> r.id < next)
  }

  /** The counter's consumption is what the connections hold of it. */
  predicate Balanced(table: Table, conns: seq<Entries>, k: Name) {
    k in table ==> table[k].counter.consumption == Held(conns, Ref(k, table[k].id))
  }

  predicate Proper(table: Table, e: Entries, r: Ref) {
    r in e ==> e[r] > 0 && AliveRef(table, r)
  }

  /** Every entry is positive and belongs to a living counter. */
  ghost predicate Sound(table: Table, conns: seq<Entries>) {
    forall x, r :: 0 <= x < |conns| ==> Proper(table, conns[x], r)
  }

  ghost predicate Conserved(s: State) {
    && Ids(s.table, s.next, s.conns, s.releasing)
    && (forall k :: Balanced(s.table, s.conns, k))
    && Sound(s.table, s.conns)
  }

  /** The 32-bit sum of an acquisition that is granted overflows. */
  predicate Wraps(s: State, st: Step) {
    st.DoAcquire? && st.name in s.table
    && var c := s.table[st.name].counter.consumption;
       c + st.n >= TWO32 && (c + st.n) % TWO32 <= st.maximum
  }

  /** The acquiring connection's own entry overflows too, and leaves something. */
  predicate EntryWrapsToo(s: State, st: Step) {
    st.DoAcquire? && st.name in s.table && st.x < |s.conns|
    && Entry(s.conns[st.x], Ref(st.name, s.table[st.name].id)) + st.n > TWO32
  }

  /** One connection's part of what the counter says. */
  lemma EntryBound(s: State, x: nat, k: Name)
    requires Conserved(s) && x < |s.conns| && k in s.table
    ensures Entry(s.conns[x], Ref(k, s.table[k].id)) <= s.table[k].counter.consumption
  {
    assert Balanced(s.table, s.conns, k);
    HeldUpdate(s.conns, x, map[], Ref(k, s.table[k].id));
  }

  /** With the books balanced, neither logic error can happen. */
  lemma NoBug(s: State, st: Step, interval: nat)
    requires interval > 0 && Conserved(s) && Guard(s, st, interval)
    ensures !Faults(s, st, interval)
  {
    hide Conserved, Balanced;
    if st.DoRelease? && st.name in s.table {
      EntryBound(s, st.x, st.name);
    } else if st.ReleaseOne? {
      assert AliveRef(s.table, st.ref) by { EntryAlive(s, st.x, st.ref); }
      EntryBound(s, st.x, st.ref.name);
    }
  }

  lemma EntryAlive(s: State, x: nat, r: Ref)
    requires Conserved(s) && x < |s.conns| && r in s.conns[x]
    ensures s.conns[x][r] > 0 && AliveRef(s.table, r)
  {
    assert Proper(s.table, s.conns[x], r);
  }

  // ---------------------------------------------------------------- each step

  /** Connection x and counter `r.name` change by the same amount; nothing else does. */
  lemma Moved(s: State, x: nat, r: Ref, c: Counter, e: Entries)
    requires Conserved(s) && x < |s.conns| && AliveRef(s.table, r) && c.consumption < TWO32
    requires forall q :: q != r ==> (q in e <==> q in s.conns[x]) && (q in e ==> e[q] == s.conns[x][q])
    requires r in e ==> e[r] > 0
    requires c.consumption - Entry(e, r) == s.table[r.name].counter.consumption - Entry(s.conns[x], r)
    ensures Conserved(State(s.table[r.name := Item(r.id, c)], s.next, s.conns[x := e], s.releasing))
  {
    var table, conns := s.table[r.name := Item(r.id, c)], s.conns[x := e];
    forall k
      ensures Balanced(table, conns, k)
    {
      if k in table {
        var q := Ref(k, table[k].id);
        assert Balanced(s.table, s.conns, k);
        HeldUpdate(s.conns, x, e, q);
      }
    }
    forall y, q | 0 <= y < |conns|
      ensures Proper(table, conns[y], q)
    {
      assert Proper(s.table, s.conns[y], q);
    }
    assert forall y, q: Ref :: 0 <= y < |conns| && q in conns[y] ==> q.id < s.next;
  }

  /** A new counter, held by the connection that asked for it. */
  lemma Created(s: State, x: nat, name: Name, n: nat, now: nat)
    requires Conserved(s) && x < |s.conns| && name !in s.table && 0 < n < TWO32
    ensures var r := Ref(name, s.next);
      Conserved(State(s.table[name := Item(s.next, NewCounter(n, now))], s.next + 1,
                      s.conns[x := OnAcquire(s.conns[x], r, n)], s.releasing))
  {
    var r := Ref(name, s.next);
    var table, e := s.table[name := Item(s.next, NewCounter(n, now))], OnAcquire(s.conns[x], r, n);
    var conns := s.conns[x := e];
    assert forall y :: 0 <= y < |s.conns| ==> r !in s.conns[y];
    assert Entry(e, r) == n;
    HeldNone(s.conns, r);
    forall k
      ensures Balanced(table, conns, k)
    {
      if k in table {
        assert Balanced(s.table, s.conns, k);
        HeldUpdate(s.conns, x, e, Ref(k, table[k].id));
      }
    }
    forall y, q | 0 <= y < |conns|
      ensures Proper(table, conns[y], q)
    {
      assert Proper(s.table, s.conns[y], q);
    }
  }

  /** The GC takes only counters that nobody holds. */
  lemma Collected(s: State, name: Name)
    requires Conserved(s) && name in s.table && s.table[name].counter.consumption == 0
    ensures forall x, r :: 0 <= x < |s.conns| && r in s.conns[x] ==> r.name != name
    ensures Conserved(s.(table := s.table - {name}))
  {
    forall x, r | 0 <= x < |s.conns| && r in s.conns[x]
      ensures r.name != name
    {
      EntryAlive(s, x, r);
      if r.name == name { EntryBound(s, x, name); }
    }
    forall x, r | 0 <= x < |s.conns|
      ensures Proper(s.table - {name}, s.conns[x], r)
    {
      assert Proper(s.table, s.conns[x], r);
    }
    forall k
      ensures Balanced(s.table - {name}, s.conns, k)
    {
      assert Balanced(s.table, s.conns, k);
    }
  }

  lemma Connected(s: State)
    requires Conserved(s)
    ensures Conserved(s.(conns := s.conns + [map[]], releasing := s.releasing + [false]))
  {
    var conns := s.conns + [map[]];
    forall k
      ensures Balanced(s.table, conns, k)
    {
      assert Balanced(s.table, s.conns, k);
      if k in s.table { HeldExtended(s.conns, Ref(k, s.table[k].id)); }
    }
    forall x, r | 0 <= x < |conns|
      ensures Proper(s.table, conns[x], r) && (r in conns[x] ==> r.id < s.next)
    {
      if x < |s.conns| { assert Proper(s.table, s.conns[x], r); }
    }
  }

  lemma AcquireKeeps(s: State, st: Step, interval: nat)
    requires interval > 0 && Conserved(s) && st.DoAcquire? && Guard(s, st, interval)
    requires !Wraps(s, st) || EntryWrapsToo(s, st)
    ensures Conserved(Do(s, st, interval))
  {
    hide Conserved, Held;
    if st.name !in s.table {
      FreshRef(s, st.x, st.name);
      Created(s, st.x, st.name, st.n, st.now);
    } else {
      var i := s.table[st.name];
      var r := Ref(st.name, i.id);
      EntryBound(s, st.x, st.name);
      assert i.counter.consumption < TWO32 by { CounterFits(s, st.name); }
      var c := Acquired(i.counter, st.n, st.maximum, st.now, interval);
      if c.Some? {
        var e := OnAcquire(s.conns[st.x], r, st.n);
        assert e[r] == (Entry(s.conns[st.x], r) + st.n) % TWO32;
        if r in s.conns[st.x] { EntryAlive(s, st.x, r); }
        Moved(s, st.x, r, c.value, e);
      } else {
        assert s.conns[st.x := s.conns[st.x]] == s.conns;
      }
    }
  }

  lemma CounterFits(s: State, k: Name)
    requires Conserved(s) && k in s.table
    ensures s.table[k].counter.consumption < TWO32
  {}

  lemma FreshRef(s: State, x: nat, name: Name)
    requires Conserved(s) && x < |s.conns|
    ensures Ref(name, s.next) !in s.conns[x]
  {}

  lemma ReleaseKeeps(s: State, st: Step, interval: nat)
    requires interval > 0 && Conserved(s) && (st.DoRelease? || st.ReleaseOne?) && Guard(s, st, interval)
    ensures Conserved(Do(s, st, interval))
  {
    hide Conserved, Held;
    var x := st.x;
    assert s.conns[x := s.conns[x]] == s.conns;
    NoBug(s, st, interval);
    if st.DoRelease? {
      if st.name in s.table {
        var i := s.table[st.name];
        var r := Ref(st.name, i.id);
        var e := OnRelease(s.conns[x], r, st.n);
        CounterFits(s, st.name);
        if e.Some? {
          EntryAlive(s, x, r);
          Moved(s, x, r, Released(i.counter, st.n, st.now, interval).value, e.value);
        }
      }
    } else {
      EntryAlive(s, x, st.ref);
      CounterFits(s, st.ref.name);
      Moved(s, x, st.ref, Released(s.table[st.ref.name].counter, s.conns[x][st.ref], st.now, interval).value,
            s.conns[x] - {st.ref});
    }
  }

  lemma StepKeeps(s: State, st: Step, interval: nat)
    requires interval > 0 && Conserved(s) && Guard(s, st, interval)
    requires !Wraps(s, st) || EntryWrapsToo(s, st)
    ensures Conserved(Do(s, st, interval))
  {
    match st {
      case Connect => Connected(s);
      case DoAcquire(_, _, _, _, _) => AcquireKeeps(s, st, interval);
      case DoRelease(_, _, _, _) => ReleaseKeeps(s, st, interval);
      case ReleaseOne(_, _, _) => ReleaseKeeps(s, st, interval);
      case Collect(name, _) => Collected(s, name);
      case ReleaseStart(_) =>
      case ReleaseEnd(_) =>
    }
  }

  /** A granted acquisition whose sum wraps unbalances the books, unless the entry wraps with it. */
  lemma WrapUnbalances(s: State, st: Step, interval: nat)
    requires interval > 0 && Conserved(s) && Guard(s, st, interval)
    requires Wraps(s, st) && !EntryWrapsToo(s, st)
    ensures !Conserved(Do(s, st, interval))
  {
    hide Held;
    var i := s.table[st.name];
    var r := Ref(st.name, i.id);
    var e := OnAcquire(s.conns[st.x], r, st.n);
    var t := Do(s, st, interval);
    assert Balanced(s.table, s.conns, st.name);
    HeldUpdate(s.conns, st.x, e, r);
    assert t.conns[st.x] == e && r in e;
    assert e[r] > 0 || !Proper(t.table, t.conns[st.x], r);
    assert e[r] == 0 || !Balanced(t.table, t.conns, st.name);
  }

  /** The exact condition under which a step keeps the books balanced. */
  lemma ConservedExactly(s: State, st: Step, interval: nat)
    requires interval > 0 && Conserved(s) && Guard(s, st, interval)
    ensures Conserved(Do(s, st, interval)) <==> !Wraps(s, st) || EntryWrapsToo(s, st)
  {
    if !Wraps(s, st) || EntryWrapsToo(s, st) {
      StepKeeps(s, st, interval);
    } else {
      WrapUnbalances(s, st, interval);
    }
  }

  // ---------------------------------------------------------------- runs

  /** A run without an overflow. */
  ghost predicate Run(s: State, steps: seq<Step>, t: State, interval: nat)
    requires interval > 0
    decreases |steps|
  {
    if steps == [] then s == t
    else Guard(s, steps[0], interval) && !Wraps(s, steps[0]) && Run(Do(s, steps[0], interval), steps[1..], t, interval)
  }

  lemma {:induction false} RunKeeps(s: State, steps: seq<Step>, t: State, interval: nat)
    requires interval > 0 && Conserved(s) && Run(s, steps, t, interval)
    ensures Conserved(t)
    decreases |steps|
  {
    hide Conserved, Guard, Do, Wraps;
    if steps != [] {
      StepKeeps(s, steps[0], interval);
      RunKeeps(Do(s, steps[0], interval), steps[1..], t, interval);
    }
  }

  /**
    Conservation over every interleaving: each counter's consumption is the sum of what the
    connections hold of it, every entry is positive and its counter alive, and no step fails.
  */
  lemma Conservation(steps: seq<Step>, s: State, interval: nat)
    requires interval > 0 && Run(Init(), steps, s, interval)
    ensures forall k :: k in s.table ==> s.table[k].counter.consumption == Held(s.conns, Ref(k, s.table[k].id))
    ensures forall x, r :: 0 <= x < |s.conns| ==> Proper(s.table, s.conns[x], r)
    ensures forall st :: Guard(s, st, interval) ==> !Faults(s, st, interval)
  {
    RunKeeps(Init(), steps, s, interval);
    forall k | k in s.table
      ensures s.table[k].counter.consumption == Held(s.conns, Ref(k, s.table[k].id))
    {
      assert Balanced(s.table, s.conns, k);
    }
    forall st | Guard(s, st, interval)
      ensures !Faults(s, st, interval)
    {
      NoBug(s, st, interval);
    }
  }

  /** The GC never deletes a counter that a connection holds. */
  lemma HeldNeverCollected(steps: seq<Step>, s: State, name: Name, now: nat, interval: nat)
    requires interval > 0 && Run(Init(), steps, s, interval)
    requires Guard(s, Collect(name, now), interval)
    ensures forall x, r :: 0 <= x < |s.conns| && r in s.conns[x] ==> r.name != name
  {
    RunKeeps(Init(), steps, s, interval);
    Collected(s, name);
  }

  /** After a grant the connections together hold no more than the maximum asked with it. */
  lemma GrantWithinMaximum(steps: seq<Step>, s: State, st: Step, interval: nat)
    requires interval > 0 && Run(Init(), steps, s, interval)
    requires Guard(s, st, interval) && st.DoAcquire? && !Wraps(s, st) && ResultOf(s, st, interval).status.Ok?
    ensures var t := Do(s, st, interval);
      && st.name in t.table && Held(t.conns, Ref(st.name, t.table[st.name].id)) <= st.maximum
      && Entry(t.conns[st.x], Ref(st.name, t.table[st.name].id)) >= st.n
  {
    RunKeeps(Init(), steps, s, interval);
    StepKeeps(s, st, interval);
    var t := Do(s, st, interval);
    assert Balanced(t.table, t.conns, st.name);
    if st.name in s.table { EntryBound(s, st.x, st.name); CounterFits(s, st.name); }
  }

  /** What all connections together hold of the named counter. */
  function Total(s: State, name: Name): nat {
    if name in s.table then Held(s.conns, Ref(name, s.table[name].id)) else 0
  }

  /** What one connection holds of it. */
  function Share(s: State, x: nat, name: Name): nat
    requires x < |s.conns|
  {
    if name in s.table then Entry(s.conns[x], Ref(name, s.table[name].id)) else 0
  }

  /**
    An acquire is granted exactly if what all hold stays within the maximum; then the connection holds
    as much more, and otherwise nothing changes.
  */
  lemma GrantExactly(steps: seq<Step>, s: State, st: Step, interval: nat)
    requires interval > 0 && Run(Init(), steps, s, interval)
    requires Guard(s, st, interval) && st.DoAcquire? && !Wraps(s, st)
    ensures var t := Do(s, st, interval);
      if Total(s, st.name) + st.n <= st.maximum then
        && ResultOf(s, st, interval).status.Ok?
        && Total(t, st.name) == Total(s, st.name) + st.n && st.x < |t.conns|
        && Share(t, st.x, st.name) == Share(s, st.x, st.name) + st.n
        && forall y :: 0 <= y < |s.conns| && y != st.x ==> t.conns[y] == s.conns[y]
      else ResultOf(s, st, interval).status.NotAvailable? && t == s
  {
    RunKeeps(Init(), steps, s, interval);
    StepKeeps(s, st, interval);
    var t := Do(s, st, interval);
    assert Balanced(s.table, s.conns, st.name) && Balanced(t.table, t.conns, st.name);
    if st.name in s.table {
      EntryBound(s, st.x, st.name);
      CounterFits(s, st.name);
    } else {
      FreshRef(s, st.x, st.name);
    }
    if ResultOf(s, st, interval).status.NotAvailable? { assert s.conns[st.x := s.conns[st.x]] == s.conns; }
  }

  /** A release is granted exactly if the connection holds as much; then it holds as much less. */
  lemma GiveBackExactly(steps: seq<Step>, s: State, st: Step, interval: nat)
    requires interval > 0 && Run(Init(), steps, s, interval)
    requires Guard(s, st, interval) && st.DoRelease?
    ensures var t := Do(s, st, interval);
      if st.name !in s.table then ResultOf(s, st, interval).status.NotFound? && t == s
      else if Share(s, st.x, st.name) >= st.n && Share(s, st.x, st.name) > 0 then
        && ResultOf(s, st, interval).status.Ok?
        && Total(t, st.name) == Total(s, st.name) - st.n && st.x < |t.conns|
        && Share(t, st.x, st.name) == Share(s, st.x, st.name) - st.n
        && forall y :: 0 <= y < |s.conns| && y != st.x ==> t.conns[y] == s.conns[y]
      else ResultOf(s, st, interval).status.NotAcquired? && t == s
  {
    RunKeeps(Init(), steps, s, interval);
    StepKeeps(s, st, interval);
    NoBug(s, st, interval);
    var t := Do(s, st, interval);
    assert Balanced(s.table, s.conns, st.name) && Balanced(t.table, t.conns, st.name);
    if st.name in s.table {
      EntryBound(s, st.x, st.name);
      assert Proper(s.table, s.conns[st.x], Ref(st.name, s.table[st.name].id));
    }
    if !ResultOf(s, st, interval).status.Ok? { assert s.conns[st.x := s.conns[st.x]] == s.conns; }
  }

  /**
    The GC may take a counter exactly if nobody holds any of it and its last use lies in an interval
    before the present one.
  */
  lemma CollectedExactly(steps: seq<Step>, s: State, name: Name, now: nat, interval: nat)
    requires interval > 0 && Run(Init(), steps, s, interval)
    ensures Guard(s, Collect(name, now), interval) <==>
              name in s.table && Total(s, name) == 0 && s.table[name].counter.last / interval < now / interval
  {
    RunKeeps(Init(), steps, s, interval);
    if name in s.table {
      assert Balanced(s.table, s.conns, name);
      LaterInterval(s.table[name].counter.last, now, interval);
    }
  }

  /** When connection x leaves `release_all`, it holds nothing of any counter. */
  lemma LeavesNothing(steps: seq<Step>, s: State, x: nat, interval: nat)
    requires interval > 0 && Run(Init(), steps, s, interval) && Guard(s, ReleaseEnd(x), interval)
    ensures forall k :: k in s.table ==>
      s.table[k].counter.consumption == Held(s.conns[x := map[]], Ref(k, s.table[k].id))
  {
    RunKeeps(Init(), steps, s, interval);
    assert s.conns[x := map[]] == s.conns;
    forall k | k in s.table
      ensures s.table[k].counter.consumption == Held(s.conns, Ref(k, s.table[k].id))
    {
      assert Balanced(s.table, s.conns, k);
    }
  }

  /**
    With an overflow it goes wrong: connection 0 holds all 2^32 - 1, connection 1 asks for one
    more, the sum is 0, the GC deletes the counter, and connection 0's release fails.
  */
  lemma OverflowFails(name: Name, interval: nat)
    requires interval > 0 && name != []
    ensures exists steps, t ::
      && FreeRun(Init(), steps, t, interval)
      && Guard(t, ReleaseOne(0, Ref(name, 0), interval), interval)
      && Faults(t, ReleaseOne(0, Ref(name, 0), interval), interval)
  {
    hide FreeRun, Do, Guard, Faults;
    var all := TWO32 - 1;
    var r := Ref(name, 0);
    var s2 := State(map[], 0, [map[], map[]], [false, false]);
    var s4 := State(map[name := Item(0, Counter(0, all, 0))], 1, [map[r := all], map[r := 1]], [false, false]);
    var s6 := State(map[], 1, [map[r := all], map[r := 1]], [true, false]);
    OverflowConnect(interval);
    OverflowAcquire(name, interval);
    OverflowCollect(name, interval);
    FreeRunChain(Init(), [Connect, Connect], s2, [DoAcquire(0, name, all, all, 0), DoAcquire(1, name, 1, all, 0)], s4,
                 interval);
    FreeRunChain(Init(), [Connect, Connect] + [DoAcquire(0, name, all, all, 0), DoAcquire(1, name, 1, all, 0)], s4,
                 [Collect(name, interval), ReleaseStart(0)], s6, interval);
  }

  lemma OverflowConnect(interval: nat)
    requires interval > 0
    ensures FreeRun(Init(), [Connect, Connect], State(map[], 0, [map[], map[]], [false, false]), interval)
  {
    var s1 := State(map[], 0, [map[]], [false]);
    var s2 := State(map[], 0, [map[], map[]], [false, false]);
    assert Do(Init(), Connect, interval) == s1 && Do(s1, Connect, interval) == s2;
    FreeRunStep(s1, Connect, [], s2, interval);
    FreeRunStep(Init(), Connect, [Connect], s2, interval);
  }

  lemma OverflowAcquire(name: Name, interval: nat)
    requires interval > 0 && name != []
    ensures var all := TWO32 - 1;
      FreeRun(State(map[], 0, [map[], map[]], [false, false]),
              [DoAcquire(0, name, all, all, 0), DoAcquire(1, name, 1, all, 0)],
              State(map[name := Item(0, Counter(0, all, 0))], 1, [map[Ref(name, 0) := all], map[Ref(name, 0) := 1]],
                    [false, false]), interval)
  {
    var all := TWO32 - 1;
    var r := Ref(name, 0);
    var a, b := DoAcquire(0, name, all, all, 0), DoAcquire(1, name, 1, all, 0);
    var s2 := State(map[], 0, [map[], map[]], [false, false]);
    var s3 := State(map[name := Item(0, Counter(all, all, 0))], 1, [map[r := all], map[]], [false, false]);
    var s4 := State(map[name := Item(0, Counter(0, all, 0))], 1, [map[r := all], map[r := 1]], [false, false]);
    assert Do(s2, a, interval) == s3 && Do(s3, b, interval) == s4;
    FreeRunStep(s3, b, [], s4, interval);
    FreeRunStep(s2, a, [b], s4, interval);
  }

  lemma OverflowCollect(name: Name, interval: nat)
    requires interval > 0 && name != []
    ensures var all, r := TWO32 - 1, Ref(name, 0);
      var t := State(map[], 1, [map[r := all], map[r := 1]], [true, false]);
      && FreeRun(State(map[name := Item(0, Counter(0, all, 0))], 1, [map[r := all], map[r := 1]], [false, false]),
                 [Collect(name, interval), ReleaseStart(0)], t, interval)
      && Guard(t, ReleaseOne(0, r, interval), interval) && Faults(t, ReleaseOne(0, r, interval), interval)
  {
    var all, r := TWO32 - 1, Ref(name, 0);
    var s4 := State(map[name := Item(0, Counter(0, all, 0))], 1, [map[r := all], map[r := 1]], [false, false]);
    var s5 := State(map[], 1, [map[r := all], map[r := 1]], [false, false]);
    var s6 := s5.(releasing := [true, false]);
    assert Boundary(interval, interval) == interval;
    assert Do(s4, Collect(name, interval), interval) == s5 && Do(s5, ReleaseStart(0), interval) == s6;
    FreeRunStep(s5, ReleaseStart(0), [], s6, interval);
    FreeRunStep(s4, Collect(name, interval), [ReleaseStart(0)], s6, interval);
  }

  lemma {:induction false} FreeRunChain(s: State, a: seq<Step>, t: State, b: seq<Step>, u: State, interval: nat)
    requires interval > 0 && FreeRun(s, a, t, interval) && FreeRun(t, b, u, interval)
    ensures FreeRun(s, a + b, u, interval)
    decreases |a|
  {
    if a == [] {
      assert a + b == b;
    } else {
      FreeRunChain(Do(s, a[0], interval), a[1..], t, b, u, interval);
      assert a + b == [a[0]] + (a[1..] + b);
      FreeRunStep(s, a[0], a[1..] + b, u, interval);
    }
  }

  /** A run that may overflow. */
  ghost predicate FreeRun(s: State, steps: seq<Step>, t: State, interval: nat)
    requires interval > 0
    decreases |steps|
  {
    if steps == [] then s == t
    else
      && Guard(s, steps[0], interval) && !Faults(s, steps[0], interval)
      && FreeRun(Do(s, steps[0], interval), steps[1..], t, interval)
  }

  lemma FreeRunStep(s: State, st: Step, rest: seq<Step>, t: State, interval: nat)
    requires interval > 0 && Guard(s, st, interval) && !Faults(s, st, interval)
    requires FreeRun(Do(s, st, interval), rest, t, interval)
    ensures FreeRun(s, [st] + rest, t, interval)
  {
    assert ([st] + rest)[1..] == rest;
  }

  // ---------------------------------------------------------------- with overflow: modulo 2^32

  predicate Multiple(d: int) { d % TWO32 == 0 }

  predicate Congruent(table: Table, conns: seq<Entries>, k: Name) {
    k in table ==> Multiple(table[k].counter.consumption - Held(conns, Ref(k, table[k].id)))
  }

  ghost predicate Modular(s: State) {
    Ids(s.table, s.next, s.conns, s.releasing) && forall k :: Congruent(s.table, s.conns, k)
  }

  lemma MultipleSum(a: int, b: int)
    requires Multiple(a) && Multiple(b)
    ensures Multiple(a + b)
  {}

  lemma WrapIsMultiple(a: int)
    ensures Multiple(a - a % TWO32)
  {}

  lemma ModularMoved(s: State, x: nat, r: Ref, c: Counter, e: Entries)
    requires Modular(s) && x < |s.conns| && AliveRef(s.table, r) && c.consumption < TWO32
    requires forall q :: q != r ==> (q in e <==> q in s.conns[x]) && (q in e ==> e[q] == s.conns[x][q])
    requires Multiple((c.consumption - Entry(e, r)) - (s.table[r.name].counter.consumption - Entry(s.conns[x], r)))
    ensures Modular(State(s.table[r.name := Item(r.id, c)], s.next, s.conns[x := e], s.releasing))
  {
    var table, conns := s.table[r.name := Item(r.id, c)], s.conns[x := e];
    forall k
      ensures Congruent(table, conns, k)
    {
      assert Congruent(s.table, s.conns, k);
      if k in table {
        HeldUpdate(s.conns, x, e, Ref(k, table[k].id));
        if k == r.name {
          MultipleSum((c.consumption - Entry(e, r)) - (s.table[k].counter.consumption - Entry(s.conns[x], r)),
                      s.table[k].counter.consumption - Held(s.conns, r));
        }
      }
    }
    assert forall y, q: Ref :: 0 <= y < |conns| && q in conns[y] ==> q.id < s.next;
  }

  lemma ModularGrant(s: State, x: nat, r: Ref, n: nat, c: Counter)
    requires Modular(s) && x < |s.conns| && AliveRef(s.table, r) && n < TWO32
    requires c.consumption == (s.table[r.name].counter.consumption + n) % TWO32
    ensures Modular(State(s.table[r.name := Item(r.id, c)], s.next, s.conns[x := OnAcquire(s.conns[x], r, n)],
                          s.releasing))
  {
    hide Held, Modular;
    var e := OnAcquire(s.conns[x], r, n);
    assert Entry(e, r) == (Entry(s.conns[x], r) + n) % TWO32;
    WrapIsMultiple(s.table[r.name].counter.consumption + n);
    WrapIsMultiple(Entry(s.conns[x], r) + n);
    MultipleSum(c.consumption - (s.table[r.name].counter.consumption + n), Entry(s.conns[x], r) + n - Entry(e, r));
    ModularMoved(s, x, r, c, e);
  }

  lemma ModularCreated(s: State, x: nat, name: Name, n: nat, now: nat)
    requires Modular(s) && x < |s.conns| && name !in s.table && n < TWO32
    ensures Modular(State(s.table[name := Item(s.next, NewCounter(n, now))], s.next + 1,
                          s.conns[x := OnAcquire(s.conns[x], Ref(name, s.next), n)], s.releasing))
  {
    var r := Ref(name, s.next);
    var table, e := s.table[name := Item(s.next, NewCounter(n, now))], OnAcquire(s.conns[x], r, n);
    var conns := s.conns[x := e];
    assert forall y :: 0 <= y < |s.conns| ==> r !in s.conns[y];
    HeldNone(s.conns, r);
    forall k
      ensures Congruent(table, conns, k)
    {
      assert Congruent(s.table, s.conns, k);
      if k in table {
        HeldUpdate(s.conns, x, e, Ref(k, table[k].id));
      }
    }
  }

  lemma ModularAcquire(s: State, st: Step, interval: nat)
    requires interval > 0 && Modular(s) && st.DoAcquire? && Guard(s, st, interval)
    ensures Modular(Do(s, st, interval))
  {
    hide Held, Modular;
    if st.name !in s.table {
      ModularCreated(s, st.x, st.name, st.n, st.now);
    } else {
      var i := s.table[st.name];
      var c := Acquired(i.counter, st.n, st.maximum, st.now, interval);
      if c.Some? {
        ModularGrant(s, st.x, Ref(st.name, i.id), st.n, c.value);
      } else {
        assert s.conns[st.x := s.conns[st.x]] == s.conns;
      }
    }
  }

  lemma ModularRelease(s: State, st: Step, interval: nat)
    requires interval > 0 && Modular(s) && (st.DoRelease? || st.ReleaseOne?) && Guard(s, st, interval)
    requires !Faults(s, st, interval)
    ensures Modular(Do(s, st, interval))
  {
    hide Held;
    var x := st.x;
    assert s.conns[x := s.conns[x]] == s.conns;
    if st.ReleaseOne? {
      ModularMoved(s, x, st.ref, Released(s.table[st.ref.name].counter, s.conns[x][st.ref], st.now, interval).value,
                   s.conns[x] - {st.ref});
    } else if st.name in s.table {
      var i := s.table[st.name];
      var r := Ref(st.name, i.id);
      var e := OnRelease(s.conns[x], r, st.n);
      if e.Some? {
        ModularMoved(s, x, r, Released(i.counter, st.n, st.now, interval).value, e.value);
      }
    }
  }

  lemma ModularStep(s: State, st: Step, interval: nat)
    requires interval > 0 && Modular(s) && Guard(s, st, interval) && !Faults(s, st, interval)
    ensures Modular(Do(s, st, interval))
  {
    var t := Do(s, st, interval);
    if st.DoAcquire? {
      ModularAcquire(s, st, interval);
    } else if st.DoRelease? || st.ReleaseOne? {
      ModularRelease(s, st, interval);
    } else {
      forall k
        ensures Congruent(t.table, t.conns, k)
      {
        assert Congruent(s.table, s.conns, k);
        if st.Connect? && k in s.table { HeldExtended(s.conns, Ref(k, s.table[k].id)); }
      }
      assert forall y, q: Ref :: 0 <= y < |t.conns| && q in t.conns[y] ==> q.id < s.next;
    }
  }

  /** Whatever overflows, each counter's consumption is what its holders have modulo 2^32. */
  lemma {:induction false} ModularConservation(s: State, steps: seq<Step>, t: State, interval: nat)
    requires interval > 0 && Modular(s) && FreeRun(s, steps, t, interval)
    ensures Modular(t)
    decreases |steps|
  {
    hide Modular, Guard, Faults, Do;
    if steps != [] {
      ModularStep(s, steps[0], interval);
      ModularConservation(Do(s, steps[0], interval), steps[1..], t, interval);
    }
  }

  lemma ModularFromStart(steps: seq<Step>, s: State, k: Name, interval: nat)
    requires interval > 0 && FreeRun(Init(), steps, s, interval) && k in s.table
    ensures s.table[k].counter.consumption == Held(s.conns, Ref(k, s.table[k].id)) % TWO32
  {
    ModularConservation(Init(), steps, s, interval);
    assert Congruent(s.table, s.conns, k);
  }
}
