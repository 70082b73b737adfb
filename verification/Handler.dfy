/**
  The reactor thread's objects in their own form: the memcache handler with its slave lists, the
  reactor's tables, the worker finder, and the lock list of a connection.  Module Protocol has the
  interleavings of what they do.
*/
module Handler {
  import opened Seqs
  import opened Sync
  import opened Objects
  import opened Commands
  import P = Protocol
  import W = World

  type Id = P.Id
  type Fd = P.Fd

  const MAX_CONSECUTIVE_GCS: nat := 3

  // ---------------------------------------------------------------- the purge of slaves

  /** What the loop sees of a slave when it comes to it. */
  datatype Look = Keep | Gone | TimedOut

  /** The slaves that stay, in order. */
  function Staying(slaves: seq<Id>, looks: nat -> Look): (r: seq<Id>)
    ensures forall x :: x in r ==> x in slaves
  {
    if slaves == [] then []
    else
      var n := |slaves| - 1;
      assert slaves == slaves[..n] + [slaves[n]];
      Staying(slaves[..n], looks) + if looks(n).Keep? then [slaves[n]] else []
  }

  function Expelled(slaves: seq<Id>, looks: nat -> Look): seq<Id> {
    if slaves == [] then []
    else
      var n := |slaves| - 1;
      Expelled(slaves[..n], looks) + if looks(n).TimedOut? then [slaves[n]] else []
  }

  /** No invalid and no silent slave is kept, and no other is lost. */
  lemma {:induction false} StayingExactly(slaves: seq<Id>, looks: nat -> Look, x: Id)
    ensures x in Staying(slaves, looks) <==> exists i :: 0 <= i < |slaves| && slaves[i] == x && looks(i).Keep?
    decreases |slaves|
  {
    if slaves != [] {
      var n := |slaves| - 1;
      StayingExactly(slaves[..n], looks, x);
      if x in Staying(slaves[..n], looks) {
        var i :| 0 <= i < n && slaves[..n][i] == x && looks(i).Keep?;
        assert slaves[i] == x;
      }
      if i :| 0 <= i < |slaves| && slaves[i] == x && looks(i).Keep? {
        if i < n { assert slaves[..n][i] == x; }
      }
    }
  }

  lemma StepStaying(slaves: seq<Id>, looks: nat -> Look, n: nat)
    requires n < |slaves|
    ensures Staying(slaves[..n + 1], looks) == Staying(slaves[..n], looks) + if looks(n).Keep? then [slaves[n]] else []
    ensures Expelled(slaves[..n + 1], looks) ==
            Expelled(slaves[..n], looks) + if looks(n).TimedOut? then [slaves[n]] else []
  {
    assert slaves[..n + 1][..n] == slaves[..n];
  }

  // ---------------------------------------------------------------- the memcache handler

  datatype GcThread = NoThread | Running | Finished

  class MemcacheHandler {
    var slaves: seq<Id>
    var newcomers: seq<Id>
    var gcThread: GcThread
    var lastGc: int
    var consecutiveGcs: nat

    constructor ()
      ensures slaves == [] && newcomers == [] && gcThread.NoThread? && lastGc == 0 && consecutiveGcs == 0
    {
      slaves, newcomers, gcThread, lastGc, consecutiveGcs := [], [], NoThread, 0, 0;
    }

    /** The loop of `on_master_interval`, which erases while it walks; `removed` go to the reactor. */
    method Purge(looks: nat -> Look) returns (removed: seq<Id>)
      modifies `slaves
      ensures slaves == Staying(old(slaves), looks) && removed == Expelled(old(slaves), looks)
    {
      ghost var before := slaves;
      removed := [];
      var it := 0;
      var seen := 0;
      while it < |slaves|
        invariant 0 <= it <= |slaves| && seen + |slaves| - it == |before|
        invariant 0 <= seen && slaves[..it] == Staying(before[..seen], looks) && slaves[it..] == before[seen..]
        invariant removed == Expelled(before[..seen], looks)
        decreases |slaves| - it
      {
        StepStaying(before, looks, seen);
        var slave := slaves[it];
        assert slave == before[seen];
        match looks(seen) {
          case Gone => slaves := slaves[..it] + slaves[it + 1..];
          case TimedOut =>
            removed := removed + [slave];
            slaves := slaves[..it] + slaves[it + 1..];
          case Keep =>
            assert slaves[..it + 1] == slaves[..it] + [slave];
            it := it + 1;
        }
        seen := seen + 1;
      }
      assert before[..seen] == before && slaves[..it] == slaves;
    }

    /** `gc_ready`: join a finished thread, then decide whether to start another. */
    method GcReady(now: int, flushTime: int, used: nat, memoryLimit: nat, gcInterval: nat) returns (ready: bool)
      requires consecutiveGcs <= MAX_CONSECUTIVE_GCS
      modifies `gcThread, `lastGc, `consecutiveGcs
      ensures old(gcThread).Running? ==>
        !ready && gcThread.Running? && lastGc == old(lastGc) && consecutiveGcs == old(consecutiveGcs)
      ensures !old(gcThread).Running? ==>
        && gcThread.NoThread? && lastGc == (if old(gcThread).Finished? then now else old(lastGc))
        && (ready <==>
              || (flushTime != 0 && now >= flushTime) || used > memoryLimit
              || (newcomers != [] && old(consecutiveGcs) < MAX_CONSECUTIVE_GCS) || now > lastGc + gcInterval)
        && consecutiveGcs == (
             if (flushTime != 0 && now >= flushTime) || used > memoryLimit then old(consecutiveGcs)
             else if newcomers != [] && old(consecutiveGcs) < MAX_CONSECUTIVE_GCS then old(consecutiveGcs) + 1
             else if ready then 0 else old(consecutiveGcs))
      ensures consecutiveGcs <= MAX_CONSECUTIVE_GCS
    {
      if !gcThread.NoThread? {
        if gcThread.Running? { return false; }
        lastGc, gcThread := now, NoThread;
      }
      if flushTime != 0 && now >= flushTime { return true; }
      if used > memoryLimit { return true; }
      if newcomers != [] && consecutiveGcs < MAX_CONSECUTIVE_GCS {
        consecutiveGcs := consecutiveGcs + 1;
        return true;
      }
      if now > lastGc + gcInterval {
        consecutiveGcs := 0;
        return true;
      }
      return false;
    }

    /** `on_master_interval` after the purge: the thread takes both lists and the new slaves. */
    method StartGc(ready: bool) returns (targets: seq<Id>, news: seq<Id>)
      requires ready ==> gcThread.NoThread?
      modifies `gcThread, `newcomers
      ensures ready ==> targets == P.Merge(old(slaves), old(newcomers)) && news == old(newcomers)
      ensures ready ==> newcomers == [] && gcThread.Running?
      ensures !ready ==> newcomers == old(newcomers) && gcThread == old(gcThread) && targets == [] && news == []
    {
      targets, news := [], [];
      if ready {
        targets := Union(slaves, newcomers);
        news := newcomers;
        newcomers, gcThread := [], Running;
      }
    }

    /** `make_repl_socket`: the slave is on the list at once, and new once every worker was seen idle. */
    method AddSlave(s: Id, syncer: Syncer<P.What>, idle: seq<bool>) returns (ok: bool)
      requires syncer.Valid() && |idle| <= MAX_WORKERS
      modifies this, syncer
      ensures syncer.Valid() && ok == (|old(slaves)| != P.MAX_SLAVES)
      ensures ok ==> slaves == old(slaves) + [s]
      ensures ok && All(FirstFlags(idle)) ==>
        newcomers == old(newcomers) + [s] && syncer.requests == old(syncer.requests)
      ensures ok && !All(FirstFlags(idle)) ==>
        newcomers == old(newcomers)
        && syncer.requests == old(syncer.requests) + [Request(FirstFlags(idle), P.Admit(s))]
      ensures !ok ==> slaves == old(slaves) && newcomers == old(newcomers) && syncer.requests == old(syncer.requests)
    {
      if |slaves| == P.MAX_SLAVES { return false; }
      slaves := slaves + [s];
      var done := syncer.AddRequest(P.Admit(s), idle);
      if done { newcomers := newcomers + [s]; }
      return true;
    }
  }

  /** The constructor of the GC thread: new slaves not among the slaves are added. */
  method Union(slaves: seq<Id>, newcomers: seq<Id>) returns (r: seq<Id>)
    ensures r == P.Merge(slaves, newcomers)
  {
    r := slaves;
    var i := 0;
    while i < |newcomers|
      invariant 0 <= i <= |newcomers| && r == P.Merge(slaves, newcomers[..i])
    {
      assert newcomers[..i + 1][..i] == newcomers[..i];
      if newcomers[i] !in slaves { r := r + [newcomers[i]]; }
      i := i + 1;
    }
    assert newcomers[..i] == newcomers;
  }

  // ---------------------------------------------------------------- the worker finder

  /** The worker `d` places after `index`, around the end. */
  function Turn(index: nat, d: nat, n: nat): (i: nat)
    requires index < n && d <= n
    ensures i < n
  {
    if index + d < n then index + d else index + d - n
  }

  /** Round robin: the first worker from `index` on that is not running, and where to look next. */
  method FindWorker(running: seq<bool>, index: nat) returns (w: Option<nat>, next: nat, ghost d: nat)
    requires index < |running|
    ensures d <= |running| && forall e :: 0 <= e < d ==> running[Turn(index, e, |running|)]
    ensures w.None? ==> next == index && forall i :: 0 <= i < |running| ==> running[i]
    ensures w.Some? ==>
      && d < |running| && w.value == Turn(index, d, |running|) && !running[w.value]
      && next == Turn(index, d + 1, |running|)
  {
    var n := |running|;
    next, d := index, 0;
    var i := 0;
    while i < n
      invariant 0 <= i == d <= n && next == Turn(index, i, n)
      invariant forall e :: 0 <= e < d ==> running[Turn(index, e, n)]
    {
      var pw := next;
      WrapAround(next, n);
      next := (next + 1) % n;
      if !running[pw] { return Some(pw), next, d; }
      i, d := i + 1, d + 1;
    }
    forall k | 0 <= k < n
      ensures running[k]
    {
      assert k == Turn(index, if k >= index then k - index else k + n - index, n);
    }
    return None, next, d;
  }

  lemma WrapAround(i: nat, n: nat)
    requires i < n
    ensures (i + 1) % n == if i + 1 == n then 0 else i + 1
  {
    if i + 1 < n { assert (i + 1) / n == 0; }
  }

  // ---------------------------------------------------------------- the reactor

  /** The resources of the list whose descriptor no thread is using: the write lock can be had. */
  function Free(ids: seq<Id>, busy: set<Id>): set<Id> {
    set x | x in ids && x !in busy
  }

  lemma FreeLast(ids: seq<Id>, x: Id, busy: set<Id>)
    ensures Free(ids + [x], busy) == Free(ids, busy) + if x in busy then {} else {x}
  {}

  /** The descriptors of the list but these, in order. */
  function Cleared(s: seq<Fd>, gone: set<Fd>): seq<Fd> {
    if s == [] then []
    else Cleared(s[..|s| - 1], gone) + if s[|s| - 1] in gone then [] else [s[|s| - 1]]
  }

  lemma ClearedLast(s: seq<Fd>, fd: Fd, gone: set<Fd>)
    ensures Cleared(s + [fd], gone) == if fd in gone then Cleared(s, gone) else Cleared(s, gone) + [fd]
  {
    assert (s + [fd])[..|s|] == s;
  }

  lemma {:induction false} ClearedExactly(s: seq<Fd>, gone: set<Fd>, fd: Fd)
    ensures fd in Cleared(s, gone) <==> fd in s && fd !in gone
    decreases |s|
  {
    if s != [] {
      ClearedExactly(s[..|s| - 1], gone, fd);
      assert s == s[..|s| - 1] + [s[|s| - 1]];
    }
  }

  lemma {:induction false} ClearedMore(s: seq<Fd>, gone: set<Fd>, fd: Fd)
    ensures Cleared(Cleared(s, gone), {fd}) == Cleared(s, gone + {fd})
    ensures Cleared(s, {}) == s
    decreases |s|
  {
    if s == [] {
      assert Cleared(s, gone) == [] && Cleared(s, gone + {fd}) == [] && Cleared(s, {}) == [];
    } else {
      hide Cleared;
      var n := |s| - 1;
      ClearedMore(s[..n], gone, fd);
      ClearedLast(Cleared(s[..n], gone), s[n], {fd});
      assert s == s[..n] + [s[n]];
      ClearedLast(s[..n], s[n], gone);
      ClearedLast(s[..n], s[n], gone + {fd});
      ClearedLast(s[..n], s[n], {});
    }
  }

  datatype Fixed = Bug | Nothing | Collected

  /** The reactor's tables, by resource identity; `closed` are the resources whose descriptor is closed. */
  class Reactor {
    var polled: set<Fd>
    var readables: seq<Fd>
    var resources: map<Fd, Id>
    var drops: seq<Fd>
    var garbage: seq<Id>
    var saved: seq<Id>
    var closed: set<Id>

    constructor ()
      ensures resources == map[] && drops == [] && garbage == [] && saved == [] && closed == {}
      ensures polled == {} && readables == []
    {
      polled, readables := {}, [];
      resources, drops, garbage, saved, closed := map[], [], [], [], {};
    }

    /** `resource::try_close`; `busy` are the resources whose read lock some thread holds. */
    method TryClose(x: Id, busy: set<Id>) returns (done: bool)
      modifies `closed
      ensures done == (x !in busy) && closed == if done then old(closed) + {x} else old(closed)
    {
      if x in busy { return false; }
      if x !in closed { closed := closed + {x}; }
      return true;
    }

    /** `remove_resource`; false is "bug in remove_resource". */
    method Remove(fd: Fd, busy: set<Id>) returns (ok: bool)
      modifies `resources, `garbage, `closed, `polled, `readables
      ensures ok == (fd in old(resources))
      ensures polled == if ok then old(polled) - {fd} else old(polled)
      ensures readables == if ok then Cleared(old(readables), {fd}) else old(readables)
      ensures resources == old(resources) - {fd}
      ensures garbage == if ok then old(garbage) + [old(resources)[fd]] else old(garbage)
      ensures closed == if ok then old(closed) + Free([old(resources)[fd]], busy) else old(closed)
    {
      if fd !in resources {
        assert resources - {fd} == resources;
        return false;
      }
      var x := resources[fd];
      garbage := garbage + [x];
      resources := resources - {fd};
      polled := polled - {fd};
      readables := Cleared(readables, {fd});
      var _ := TryClose(x, busy);
      return true;
    }

    /** The drop requests of one `poll`, taken over in one swap. */
    method ProcessDrops(busy: set<Id>) returns (ok: bool)
      modifies this
      ensures drops == [] && saved == old(saved)
      ensures ok <==> NoDup(old(drops)) && forall i :: 0 <= i < |old(drops)| ==> old(drops)[i] in old(resources)
      ensures ok ==> garbage == old(garbage) + Dropped(old(resources), old(drops))
      ensures ok ==> resources == old(resources) - Fds(old(drops))
      ensures ok ==> closed == old(closed) + Free(Dropped(old(resources), old(drops)), busy)
      ensures ok ==> polled == old(polled) - Fds(old(drops)) && readables == Cleared(old(readables), Fds(old(drops)))
    {
      hide Fds, Dropped, NoDup, Cleared;
      var todo := drops;
      NoDrops(resources, todo);
      ghost var table, was, open := resources, garbage, closed;
      drops := [];
      var i := 0;
      ClearedMore(readables, {}, 0);
      while i < |todo|
        invariant 0 <= i <= |todo| && drops == [] && saved == old(saved)
        invariant NoDup(todo[..i]) && forall j :: 0 <= j < i ==> todo[j] in table
        invariant resources == table - Fds(todo[..i])
        invariant garbage == was + Dropped(table, todo[..i])
        invariant closed == open + Free(Dropped(table, todo[..i]), busy)
        invariant polled == old(polled) - Fds(todo[..i]) && readables == Cleared(old(readables), Fds(todo[..i]))
      {
        var fd := todo[i];
        DropOne(table, todo, i);
        var done := Remove(fd, busy);
        if !done { return false; }
        FreeLast(Dropped(table, todo[..i]), table[fd], busy);
        ClearedMore(old(readables), Fds(todo[..i]), fd);
        FdsLast(todo, i);
        i := i + 1;
      }
      assert todo[..i] == todo;
      return true;
    }

    /** `fix_garbage`; Bug is "No gc() was called after fix_garbage()!". */
    method FixGarbage(busy: set<Id>) returns (r: Fixed)
      modifies `garbage, `saved, `closed
      ensures r == if old(saved) != [] then Bug else if old(garbage) == [] then Nothing else Collected
      ensures r.Collected? ==> saved == old(garbage) && garbage == [] && closed == old(closed) + Free(saved, busy)
      ensures !r.Collected? ==> saved == old(saved) && garbage == old(garbage) && closed == old(closed)
    {
      if saved != [] { return Bug; }
      if garbage == [] { return Nothing; }
      saved, garbage := garbage, [];
      ghost var open := closed;
      var i := 0;
      while i < |saved|
        invariant saved == old(garbage) && garbage == []
        invariant 0 <= i <= |saved| && closed == open + Free(saved[..i], busy)
      {
        var _ := TryClose(saved[i], busy);
        assert saved[..i + 1] == saved[..i] + [saved[i]];
        FreeLast(saved[..i], saved[i], busy);
        i := i + 1;
      }
      assert saved[..i] == saved;
      return Collected;
    }
  }

  ghost function Fds(drops: seq<Fd>): set<Fd> { set fd | fd in drops }

  /** The resources dropped, in the order of the requests. */
  ghost function Dropped(table: map<Fd, Id>, drops: seq<Fd>): seq<Id> {
    if drops == [] then []
    else
      var fd := drops[|drops| - 1];
      Dropped(table, drops[..|drops| - 1]) + if fd in table then [table[fd]] else []
  }

  lemma NoDrops(table: map<Fd, Id>, drops: seq<Fd>)
    ensures table - Fds(drops[..0]) == table && Dropped(table, drops[..0]) == [] && NoDup(drops[..0])
    ensures Fds(drops[..0]) == {}
  {}

  lemma FdsLast(drops: seq<Fd>, i: nat)
    requires i < |drops|
    ensures Fds(drops[..i + 1]) == Fds(drops[..i]) + {drops[i]}
  {}

  /** A drop fails if the descriptor is unknown or was dropped before. */
  lemma DropOne(table: map<Fd, Id>, drops: seq<Fd>, i: nat)
    requires i < |drops| && NoDup(drops[..i])
    ensures var fd := drops[i];
      && (fd in table - Fds(drops[..i]) ==>
            && NoDup(drops[..i + 1]) && fd in table
            && table - Fds(drops[..i]) - {fd} == table - Fds(drops[..i + 1])
            && Dropped(table, drops[..i + 1]) == Dropped(table, drops[..i]) + [table[fd]])
      && (fd !in table - Fds(drops[..i]) ==> fd !in table || !NoDup(drops))
  {
    var fd := drops[i];
    assert drops[..i + 1] == drops[..i] + [fd];
    assert drops[..i + 1][..i] == drops[..i];
    if fd in Fds(drops[..i]) {
      var j :| 0 <= j < i && drops[..i][j] == fd;
      assert drops[j] == drops[i];
    } else {
      assert Fds(drops[..i + 1]) == Fds(drops[..i]) + {fd};
    }
  }

  // ---------------------------------------------------------------- a connection's locks

  /** The objects, as the connections share them. */
  class Store {
    var items: map<Key, W.Item>
    constructor ()
      ensures items == map[]
    {
      items := map[];
    }
  }

  predicate Mine(items: map<Key, W.Item>, r: W.Ref, context: int) {
    r.key in items && items[r.key].id == r.item && items[r.key].obj.lock == context
  }

  /** The items with the locks of the first `n` references released. */
  function Released(items: map<Key, W.Item>, refs: seq<W.Ref>): (m: map<Key, W.Item>)
    ensures m.Keys == items.Keys
  {
    map k | k in items ::
      if exists i :: 0 <= i < |refs| && refs[i].key == k then items[k].(obj := items[k].obj.(lock := UNLOCKED))
      else items[k]
  }

  class LockList {
    const store: Store
    var locks: seq<W.Ref>

    constructor (store: Store)
      ensures this.store == store && locks == []
    {
      this.store, locks := store, [];
    }

    method Add(r: W.Ref)
      modifies this
      ensures locks == old(locks) + [r]
    {
      locks := locks + [r];
    }

    /** `remove_lock`; false is its logic error. */
    method Remove(k: Key) returns (ok: bool)
      modifies this
      ensures var i := W.Find(old(locks), k);
        ok == (i < |old(locks)|) && locks == if ok then Without(old(locks), i) else old(locks)
    {
      var i := 0;
      while i < |locks|
        invariant 0 <= i <= |locks| && locks == old(locks)
        invariant forall j :: 0 <= j < i ==> locks[j].key != k
      {
        if locks[i].key == k {
          locks := locks[..i] + locks[i + 1..];
          return true;
        }
        i := i + 1;
      }
      return false;
    }

    /**
      `unlock_all`: it ends well exactly when every listed item is alive and locked by this
      context, and then releases exactly those locks.
    */
    method UnlockAll(context: int) returns (ok: bool)
      requires forall i, j :: 0 <= i < j < |locks| ==> locks[i].key != locks[j].key
      modifies this, store
      ensures ok <==> forall i :: 0 <= i < |old(locks)| ==> Mine(old(store.items), old(locks)[i], context)
      ensures ok ==> locks == [] && store.items == Released(old(store.items), old(locks))
    {
      ghost var items := store.items;
      var i := 0;
      assert Released(items, locks[..0]) == items;
      while i < |locks|
        invariant 0 <= i <= |locks| && locks == old(locks)
        invariant forall j :: 0 <= j < i ==> Mine(items, locks[j], context)
        invariant store.items == Released(items, locks[..i])
      {
        var r := locks[i];
        NotYet(items, locks, i);
        if r.key !in store.items || store.items[r.key].id != r.item || store.items[r.key].obj.lock != context {
          assert !Mine(items, r, context);
          return false;
        }
        OneMore(items, locks, i);
        store.items := store.items[r.key := store.items[r.key].(obj := store.items[r.key].obj.(lock := UNLOCKED))];
        i := i + 1;
      }
      assert locks[..i] == locks;
      locks := [];
      return true;
    }
  }

  lemma NotYet(items: map<Key, W.Item>, refs: seq<W.Ref>, i: nat)
    requires i < |refs| && forall j :: 0 <= j < i ==> refs[j].key != refs[i].key
    ensures var m := Released(items, refs[..i]); refs[i].key in items ==> m[refs[i].key] == items[refs[i].key]
  {}

  lemma OneMore(items: map<Key, W.Item>, refs: seq<W.Ref>, i: nat)
    requires i < |refs| && refs[i].key in items && forall j :: 0 <= j < i ==> refs[j].key != refs[i].key
    ensures var k := refs[i].key;
      Released(items, refs[..i + 1]) ==
      Released(items, refs[..i])[k := items[k].(obj := items[k].obj.(lock := UNLOCKED))]
  {
    var a, b := refs[..i], refs[..i + 1];
    assert b[i].key == refs[i].key;
    forall k | k in items && k != refs[i].key
      ensures (exists j :: 0 <= j < |b| && b[j].key == k) <==> (exists j :: 0 <= j < |a| && a[j].key == k)
    {
      if j :| 0 <= j < |b| && b[j].key == k { assert a[j].key == k; }
      if j :| 0 <= j < |a| && a[j].key == k { assert b[j].key == k; }
    }
  }
}
