/**
  The master with its data: the protocol machine, the object store, the connections' lock lists
  and the messages sent to each slave.  A bucket operation under the bucket lock is one step, and
  the GC thread handles one item per step while it holds the lock of the bucket.
*/
module World {
  import opened Seqs
  import opened Numeric
  import opened Objects
  import opened Commands
  import opened Wire
  import opened Replicas
  import Sync
  import P = Protocol

  type Id = P.Id

  /** A hash item.  A deleted item never comes back: a new item has a new identity. */
  datatype Item = Item(id: nat, obj: Obj)

  /** A reference of a lock list into a hash item. */
  datatype Ref = Ref(key: Key, item: nat)

  /**
    A receive job: not begun; context set; context not set because the socket was invalid
    already; inside `unlock_all`, with the context set or not.
  */
  datatype Stage = Fresh | Ready | Stale | Unlocking(known: bool)

  /** The GC thread is at bucket `pos`; `todo` are the items left of a bucket it has locked. */
  datatype Scan = Scan(pos: nat, todo: Option<seq<Key>>)

  datatype Config = Config(hash: Key -> nat, buckets: nat, maxData: nat, heapLimit: nat)

  /**
    `locks` are the `m_locks` of the client sockets, `ctxs` the workers' `g_context`.
    `streams` and `missed` are history: the messages a slave was sent, and the keys removed by a
    thread whose slave list lacked it.
  */
  datatype World = World(
    p: P.State, store: map<Key, Item>, nextItem: nat,
    locks: map<Id, seq<Ref>>, ctxs: seq<int>, stages: seq<Stage>,
    scan: Scan, streams: map<Id, seq<Msg>>, missed: map<Id, set<Key>>)

  datatype Step =
    | Proto(st: P.Step)
    | Begin(w: nat)
    | Execute(w: nat, key: Key, cmd: Cmd, now: int, flushTime: int)
    | UnlockStart(w: nat)
    | UnlockOne(w: nat)
    | UnlockEnd(w: nat)
    | DestructUnlock
    | ScanLock(keys: seq<Key>)
    | ScanItem(flush: bool, evictAge: nat, now: int, flushTime: int)
    | ScanUnlock

  function Bucket(cfg: Config, k: Key): (b: nat)
    requires cfg.buckets > 0
    ensures b < cfg.buckets
  {
    cfg.hash(k) % cfg.buckets
  }

  predicate GcRunning(p: P.State) { p.gc.Some? && !p.gc.value.done }

  /** The GC thread holds the lock of the key's bucket. */
  predicate BucketBusy(cfg: Config, s: World, k: Key)
    requires cfg.buckets > 0
  {
    GcRunning(s.p) && s.scan.todo.Some? && Bucket(cfg, k) == s.scan.pos
  }

  predicate Receiving(s: World, w: nat) {
    w < |s.p.jobs| && w < |s.stages| && w < |s.ctxs| && s.p.jobs[w].Recv?
    && s.p.jobs[w].sock in s.p.res && s.p.jobs[w].sock in s.locks
  }

  /** What the parser guarantees of a request. */
  predicate Parsed(key: Key, cmd: Cmd) {
    && |key| >= 1
    && (cmd.Store? || cmd.CompareAndSwap? || cmd.ReplaceAndUnlock? ==> cmd.flags < TWO32)
    && (cmd.Increment? || cmd.Decrement? ==> cmd.initial.Some? ==> |key| <= MAX_KEY_LENGTH)
  }

  /** And does guarantee, for every good binary request. */
  lemma BinaryRequestsAreParsed(p: seq<byte>, now: int)
    requires Parse(p, now).Some? && Parse(p, now).value.status.Good?
    requires CommandOf(Parse(p, now).value).Some?
    ensures var r := Parse(p, now).value; Parsed(r.key, CommandOf(r).value) && |r.key| <= MAX_KEY_LENGTH
  {
    assert Pow256(4) == TWO32;
    if |p| >= 28 { UnBeBound(p[24..28]); }
    hide UnBe, Pow256;
  }

  /** The predicate of the memcache GC: flush, evict or expire. */
  predicate Collects(o: Obj, flush: bool, evictAge: nat, now: int, flushTime: int) {
    || (flush && !Locked(o))
    || (evictAge > 0 && o.age >= evictAge && !Locked(o))
    || Expired(o, now, flushTime)
  }

  function Sent(streams: map<Id, seq<Msg>>, p: P.State, targets: seq<Id>, m: Msg): (r: map<Id, seq<Msg>>)
    ensures r.Keys == streams.Keys
  {
    map x | x in streams :: if x in targets && P.Valid(p, x) then streams[x] + [m] else streams[x]
  }

  function Forgotten(missed: map<Id, set<Key>>, told: seq<Id>, k: Key): (r: map<Id, set<Key>>)
    ensures r.Keys == missed.Keys
  {
    map x | x in missed :: if x in told then missed[x] else missed[x] + {k}
  }

  function Lookup(store: map<Key, Item>, k: Key): Option<Obj> {
    if k in store then Some(store[k].obj) else None
  }

  /** The store after the bucket operation left `entry` for `k`. */
  function Updated(store: map<Key, Item>, k: Key, entry: Option<Obj>, nextItem: nat): map<Key, Item> {
    match entry
    case None => store - {k}
    case Some(o) => store[k := if k in store then store[k].(obj := o) else Item(nextItem, o)]
  }

  /** Position of the first reference with this key (`remove_lock`), or the length. */
  function Find(refs: seq<Ref>, k: Key): (i: nat)
    ensures i <= |refs|
    ensures i < |refs| ==> refs[i].key == k
    ensures forall j :: 0 <= j < i ==> refs[j].key != k
  {
    if refs == [] || refs[0].key == k then 0 else 1 + Find(refs[1..], k)
  }

  function EnvOf(cfg: Config, s: World, w: nat, now: int, flushTime: int): Env
    requires w < |s.ctxs|
  {
    Env(s.ctxs[w], now, flushTime, cfg.maxData, cfg.heapLimit)
  }

  function OutcomeOf(cfg: Config, s: World, w: nat, k: Key, c: Cmd, now: int, flushTime: int): Outcome
    requires w < |s.ctxs|
  {
    Exec(c, EnvOf(cfg, s, w, now, flushTime), |k|, Lookup(s.store, k))
  }

  ghost predicate Guard(cfg: Config, s: World, st: Step)
    requires cfg.buckets > 0
  {
    match st
    case Proto(st) =>
      && |s.p.jobs| <= Sync.MAX_WORKERS && Sync.WellFormed(s.p.requests)
      && P.Guard(s.p, st) && !P.Faults(s.p, st)
      && (st.Destroy? ==> s.p.saved[0] in s.locks ==> s.locks[s.p.saved[0]] == [])
      && (st.EndJob? ==> st.w < |s.stages| && (s.stages[st.w].Ready? || s.stages[st.w].Stale?))
      && (st.PostRecv? ==> st.w < |s.stages|)
      && (st.GcFinish? ==> s.scan == Scan(cfg.buckets, None))
    case Begin(w) => Receiving(s, w) && s.stages[w].Fresh?
    case Execute(w, key, cmd, _, _) =>
      Receiving(s, w) && s.stages[w].Ready? && !BucketBusy(cfg, s, key) && Parsed(key, cmd)
    case UnlockStart(w) => Receiving(s, w) && (s.stages[w].Ready? || s.stages[w].Stale?)
    case UnlockOne(w) =>
      Receiving(s, w) && s.stages[w].Unlocking? && s.locks[s.p.jobs[w].sock] != []
      && !BucketBusy(cfg, s, s.locks[s.p.jobs[w].sock][0].key)
    case UnlockEnd(w) =>
      Receiving(s, w) && s.stages[w].Unlocking? && s.locks[s.p.jobs[w].sock] == []
    case DestructUnlock =>
      s.p.phase.Destroying? && s.p.saved != [] && s.p.saved[0] in s.locks && s.locks[s.p.saved[0]] != []
      && !BucketBusy(cfg, s, s.locks[s.p.saved[0]][0].key)
    case ScanLock(keys) =>
      GcRunning(s.p) && s.scan.todo.None? && s.scan.pos < cfg.buckets && NoDup(keys)
      && forall k :: k in keys <==> k in s.store && Bucket(cfg, k) == s.scan.pos
    case ScanItem(_, _, _, _) =>
      GcRunning(s.p) && s.scan.todo.Some? && s.scan.todo.value != [] && s.scan.todo.value[0] in s.store
    case ScanUnlock => GcRunning(s.p) && s.scan.todo == Some([])
  }

  /** The reference leads to the item it was taken from. */
  predicate RefAlive(s: World, r: Ref) {
    r.key in s.store && s.store[r.key].id == r.item
  }

  /** The logic errors of `remove_lock` and `object::unlock`, and the use of a dangling reference. */
  ghost predicate Faults(cfg: Config, s: World, st: Step)
    requires cfg.buckets > 0 && Guard(cfg, s, st)
  {
    match st
    case Execute(w, key, cmd, now, flushTime) =>
      var refs := s.locks[s.p.jobs[w].sock];
      OutcomeOf(cfg, s, w, key, cmd, now, flushTime).lockOp.RemoveLock? && Find(refs, key) == |refs|
    case UnlockOne(w) =>
      var r := s.locks[s.p.jobs[w].sock][0];
      !RefAlive(s, r) || s.store[r.key].obj.lock != s.ctxs[w]
    case DestructUnlock => !RefAlive(s, s.locks[s.p.saved[0]][0])
    case _ => false
  }

  function Unlocked(store: map<Key, Item>, k: Key): map<Key, Item>
    requires k in store
  {
    store[k := store[k].(obj := store[k].obj.(lock := UNLOCKED))]
  }

  ghost function DoProto(cfg: Config, s: World, st: P.Step): World
    requires cfg.buckets > 0 && Guard(cfg, s, Proto(st))
  {
    var t := s.(p := P.Do(s.p, st));
    match st
    case AcceptClient(_) => t.(locks := s.locks[s.p.next := []])
    case AcceptSlave(_, _) => t.(streams := s.streams[s.p.next := []], missed := s.missed[s.p.next := {}])
    case PostRecv(w, _) => t.(stages := s.stages[w := Fresh])
    case StartGc(start) => if start then t.(scan := Scan(0, None)) else t
    case Destroy => t.(locks := s.locks - {s.p.saved[0]})
    case _ => t
  }

  function LocksAfter(s: World, w: nat, k: Key, op: LockOp, item: nat): map<Id, seq<Ref>>
    requires Receiving(s, w)
  {
    var x := s.p.jobs[w].sock;
    match op
    case NoChange => s.locks
    case AddLock => s.locks[x := s.locks[x] + [Ref(k, item)]]
    case RemoveLock =>
      var i := Find(s.locks[x], k);
      if i < |s.locks[x]| then s.locks[x := Without(s.locks[x], i)] else s.locks
  }

  function DoExecute(cfg: Config, s: World, w: nat, k: Key, c: Cmd, now: int, flushTime: int): World
    requires Receiving(s, w)
  {
    var r := OutcomeOf(cfg, s, w, k, c, now, flushTime);
    var list := s.p.res[s.p.jobs[w].sock].list;
    var store' := Updated(s.store, k, r.entry, s.nextItem);
    var m := MessageOf(k, r);
    s.(store := store',
       nextItem := if k !in s.store && k in store' then s.nextItem + 1 else s.nextItem,
       locks := LocksAfter(s, w, k, r.lockOp, if k in s.store then s.store[k].id else 0),
       streams := if m.Some? then Sent(s.streams, s.p, list, m.value) else s.streams,
       missed := if k in s.store && k !in store' then Forgotten(s.missed, list, k) else s.missed)
  }

  function DoScanItem(s: World, flush: bool, evictAge: nat, now: int, flushTime: int): World
    requires GcRunning(s.p) && s.scan.todo.Some? && s.scan.todo.value != [] && s.scan.todo.value[0] in s.store
  {
    var k := s.scan.todo.value[0];
    var gc := s.p.gc.value;
    var o := s.store[k].obj;
    var t := s.(scan := s.scan.(todo := Some(s.scan.todo.value[1..])));
    if Collects(o, flush, evictAge, now, flushTime) then
      t.(store := s.store - {k},
         streams := Sent(s.streams, s.p, gc.slaves, DeleteMsg(k)),
         missed := Forgotten(s.missed, gc.slaves, k))
    else if gc.newcomers == [] then
      t.(store := s.store[k := s.store[k].(obj := o.(age := o.age + 1))])
    else
      // Reading the data for the new slaves counts as an access.
      t.(store := s.store[k := s.store[k].(obj := o.(age := 0))],
         streams := Sent(s.streams, s.p, gc.newcomers, SetOf(k, o)))
  }

  ghost function Do(cfg: Config, s: World, st: Step): World
    requires cfg.buckets > 0 && Guard(cfg, s, st) && !Faults(cfg, s, st)
  {
    match st
    case Proto(st) => DoProto(cfg, s, st)
    case Begin(w) =>
      var r := s.p.res[s.p.jobs[w].sock];
      if r.valid then s.(ctxs := s.ctxs[w := r.fd], stages := s.stages[w := Ready])
      else s.(stages := s.stages[w := Stale])
    case Execute(w, key, cmd, now, flushTime) => DoExecute(cfg, s, w, key, cmd, now, flushTime)
    case UnlockStart(w) => s.(stages := s.stages[w := Unlocking(s.stages[w].Ready?)])
    case UnlockOne(w) =>
      var x := s.p.jobs[w].sock;
      s.(store := Unlocked(s.store, s.locks[x][0].key), locks := s.locks[x := s.locks[x][1..]])
    case UnlockEnd(w) => s.(stages := s.stages[w := if s.stages[w].known then Ready else Stale])
    case DestructUnlock =>
      var x := s.p.saved[0];
      s.(store := Unlocked(s.store, s.locks[x][0].key), locks := s.locks[x := s.locks[x][1..]])
    case ScanLock(keys) => s.(scan := s.scan.(todo := Some(keys)))
    case ScanItem(flush, evictAge, now, flushTime) => DoScanItem(s, flush, evictAge, now, flushTime)
    case ScanUnlock => s.(scan := Scan(s.scan.pos + 1, None))
  }

  function Init(workers: nat): World {
    World(P.Init(workers), map[], 0, map[], seq(workers, _ => -1), seq(workers, _ => Fresh),
          Scan(0, None), map[], map[])
  }

  // ---------------------------------------------------------------- runs

  /** Any interleaving of steps, up to an internal error of the locking code. */
  ghost predicate Run(cfg: Config, s: World, steps: seq<Step>, t: World)
    requires cfg.buckets > 0
    decreases |steps|
  {
    if steps == [] then s == t
    else
      && Guard(cfg, s, steps[0]) && !Faults(cfg, s, steps[0])
      && Run(cfg, Do(cfg, s, steps[0]), steps[1..], t)
  }

  ghost predicate Reachable(cfg: Config, workers: nat, steps: seq<Step>, t: World) {
    cfg.buckets > 0 && workers <= Sync.MAX_WORKERS && Run(cfg, Init(workers), steps, t)
  }

  /** The step leads from `s` to `t`. */
  ghost predicate Goes(cfg: Config, s: World, st: Step, t: World)
    requires cfg.buckets > 0
  {
    Guard(cfg, s, st) && !Faults(cfg, s, st) && Do(cfg, s, st) == t
  }

  lemma Precede(cfg: Config, s: World, st: Step, t: World, rest: seq<Step>, u: World) returns (steps: seq<Step>)
    requires cfg.buckets > 0 && Goes(cfg, s, st, t) && Run(cfg, t, rest, u)
    ensures Run(cfg, s, steps, u)
  {
    hide Guard, Faults, Do;
    steps := [st] + rest;
    assert steps[1..] == rest;
  }

  lemma Nowhere(cfg: Config, s: World)
    requires cfg.buckets > 0
    ensures Run(cfg, s, [], s)
  {}

  /** The last step of a run. */
  lemma {:induction false} RunLast(cfg: Config, s: World, steps: seq<Step>, t: World) returns (u: World)
    requires cfg.buckets > 0 && steps != [] && Run(cfg, s, steps, t)
    ensures Run(cfg, s, steps[..|steps| - 1], u) && Goes(cfg, u, steps[|steps| - 1], t)
    decreases |steps|
  {
    hide Guard, Faults, Do;
    if |steps| == 1 {
      u := s;
      assert steps[1..] == [];
    } else {
      var s', rest := Do(cfg, s, steps[0]), steps[1..];
      u := RunLast(cfg, s', rest, t);
      assert steps[..|steps| - 1][1..] == rest[..|rest| - 1];
    }
  }
}
