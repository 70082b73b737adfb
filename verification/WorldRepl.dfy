/** Replica agreement: what every step of the world keeps between the master and its slaves. */
module WorldRepl {
  import opened Seqs
  import opened Objects
  import opened Commands
  import opened Wire
  import opened Replicas
  import opened World
  import P = Protocol
  import I = ProtocolInv
  import F = ProtocolFrame
  import R = ProtocolRuns

  /** The clock of each slave, message by message. */
  type Clocks = Id -> nat -> int

  /** The initial scan for slave `x` has passed key `k`, or is over. */
  predicate Scanned(cfg: Config, gc: Option<P.Gc>, scan: Scan, x: Id, k: Key)
    requires cfg.buckets > 0
  {
    gc.Some? && !gc.value.done && x in gc.value.newcomers ==>
      Bucket(cfg, k) < scan.pos || (Bucket(cfg, k) == scan.pos && scan.todo.Some? && k !in scan.todo.value)
  }

  /** On every scanned key, the slave's table follows the master. */
  ghost predicate AgreeOn(cfg: Config, gc: Option<P.Gc>, scan: Scan, store: map<Key, Item>, x: Id, t: Table)
    requires cfg.buckets > 0
  {
    forall k :: k in store && Scanned(cfg, gc, scan, x, k) ==> Follows(Some(store[k].obj), t, k)
  }

  /** A key that only the slave has was removed by a thread that did not know the slave. */
  ghost predicate ExtraOn(store: map<Key, Item>, t: Table, missed: set<Key>) {
    forall k :: k in t ==> k in store || k in missed
  }

  ghost predicate SlaveOk(cfg: Config, s: World, clock: Clocks, x: Id)
    requires cfg.buckets > 0
  {
    && x in s.streams && x in s.missed
    && (P.Valid(s.p, x) ==>
         var t := Replay(s.streams[x], clock(x));
         && ExtraOn(s.store, t, s.missed[x])
         && (x in s.p.started ==> AgreeOn(cfg, s.p.gc, s.scan, s.store, x, t)))
  }

  ghost predicate ScanOk(cfg: Config, s: World)
    requires cfg.buckets > 0
  {
    GcRunning(s.p) ==>
      && s.scan.pos <= cfg.buckets
      && (s.scan.todo.Some? ==> s.scan.pos < cfg.buckets && TodoOk(cfg, s.scan.pos, s.scan.todo.value, s.store))
  }

  /** The items left of the locked bucket. */
  ghost predicate TodoOk(cfg: Config, pos: nat, todo: seq<Key>, store: map<Key, Item>)
    requires cfg.buckets > 0
  {
    NoDup(todo) && forall k :: k in todo ==> k in store && Bucket(cfg, k) == pos
  }

  lemma TodoNext(cfg: Config, pos: nat, todo: seq<Key>, store: map<Key, Item>, store': map<Key, Item>)
    requires cfg.buckets > 0 && todo != [] && TodoOk(cfg, pos, todo, store)
    requires forall k :: k in store && k != todo[0] ==> k in store'
    ensures TodoOk(cfg, pos, todo[1..], store')
  {
    assert todo == [todo[0]] + todo[1..];
    assert todo[0] !in todo[1..];
  }

  ghost predicate StoreOk(store: map<Key, Item>) {
    forall k :: k in store ==> GoodKey(k) && store[k].obj.flags < TWO32
  }

  /** Every message sent has a key the protocol allows and 32-bit flags. */
  ghost predicate StreamsOk(streams: map<Id, seq<Msg>>) {
    forall x :: x in streams ==> AllGood(streams[x])
  }

  ghost predicate ReplInv(cfg: Config, s: World, clock: Clocks)
    requires cfg.buckets > 0
  {
    && I.Inv(s.p) && ScanOk(cfg, s) && StoreOk(s.store) && StreamsOk(s.streams)
    && forall x :: I.IsSlave(s.p.res, x) ==> SlaveOk(cfg, s, clock, x)
  }

  // ---------------------------------------------------------------- one message more

  lemma ReplayMore(ms: seq<Msg>, m: Msg, clock: nat -> int)
    ensures Replay(ms + [m], clock) == Apply(Replay(ms, clock), m, clock(|ms|))
  {
    assert (ms + [m])[..|ms|] == ms;
  }

  // ---------------------------------------------------------------- commands

  /** A slave of the job's list: it receives the message and follows. */
  lemma ExecuteTold(cfg: Config, gc: Option<P.Gc>, scan: Scan, store: map<Key, Item>, nextItem: nat,
                    x: Id, t: Table, missed: set<Key>, k: Key, c: Cmd, env: Env, now: int,
                    store': map<Key, Item>, t': Table)
    requires cfg.buckets > 0
    requires var r := Exec(c, env, |k|, Lookup(store, k));
      store' == Updated(store, k, r.entry, nextItem) && t' == Told(t, MessageOf(k, r), now)
    ensures ExtraOn(store, t, missed) ==> ExtraOn(store', t', missed)
    ensures AgreeOn(cfg, gc, scan, store, x, t) ==> AgreeOn(cfg, gc, scan, store', x, t')
  {
    hide Exec, MessageOf, Told;
    var entry := Lookup(store, k);
    CommandTouchesOneKey(c, env, entry, k, t, now);
    if AgreeOn(cfg, gc, scan, store, x, t) && Scanned(cfg, gc, scan, x, k) {
      CommandReplicates(c, env, entry, k, t, now);
    }
  }

  /** A slave the job does not know: it hears nothing, and a removed key is noted as missed. */
  lemma ExecuteUntold(store: map<Key, Item>, nextItem: nat, t: Table, missed: set<Key>,
                      k: Key, entry: Option<Obj>, store': map<Key, Item>, missed': set<Key>)
    requires store' == Updated(store, k, entry, nextItem)
    requires missed' == if k in store && k !in store' then missed + {k} else missed
    requires ExtraOn(store, t, missed)
    ensures ExtraOn(store', t, missed')
  {}

  lemma ExecuteSlave(cfg: Config, s: World, clock: Clocks, x: Id, w: nat, k: Key, c: Cmd, now: int, flushTime: int)
    requires cfg.buckets > 0 && Receiving(s, w) && SlaveOk(cfg, s, clock, x)
    requires P.Valid(s.p, x) && x in s.p.started ==> P.Has(s.p, w, x)
    ensures SlaveOk(cfg, DoExecute(cfg, s, w, k, c, now, flushTime), clock, x)
  {
    hide Exec, AgreeOn, ExtraOn, Scanned, Replay, MessageOf;
    var s' := DoExecute(cfg, s, w, k, c, now, flushTime);
    var env := EnvOf(cfg, s, w, now, flushTime);
    var r := Exec(c, env, |k|, Lookup(s.store, k));
    var list := s.p.res[s.p.jobs[w].sock].list;
    var m := MessageOf(k, r);
    if P.Valid(s.p, x) {
      var t := Replay(s.streams[x], clock(x));
      if x in list {
        if m.Some? {
          ReplayMore(s.streams[x], m.value, clock(x));
        }
        ExecuteTold(cfg, s.p.gc, s.scan, s.store, s.nextItem, x, t, s.missed[x], k, c, env,
                    clock(x)(|s.streams[x]|), s'.store, Replay(s'.streams[x], clock(x)));
      } else {
        ExecuteUntold(s.store, s.nextItem, t, s.missed[x], k, r.entry, s'.store, s'.missed[x]);
      }
    }
  }

  // ---------------------------------------------------------------- the GC thread

  lemma Removal(cfg: Config, gc: Option<P.Gc>, scan: Scan, scan': Scan, store: map<Key, Item>,
                x: Id, t: Table, missed: set<Key>, k: Key, now: int)
    requires cfg.buckets > 0
    requires forall j :: j in store && j != k && Scanned(cfg, gc, scan', x, j) ==> Scanned(cfg, gc, scan, x, j)
    ensures ExtraOn(store, t, missed) ==> ExtraOn(store - {k}, Apply(t, DeleteMsg(k), now), missed)
    ensures ExtraOn(store, t, missed) ==> ExtraOn(store - {k}, t, missed + {k})
    ensures AgreeOn(cfg, gc, scan, store, x, t) ==>
            AgreeOn(cfg, gc, scan', store - {k}, x, Apply(t, DeleteMsg(k), now))
  {}

  /** The initial replication of one item. */
  lemma Replication(cfg: Config, gc: Option<P.Gc>, scan: Scan, scan': Scan, store: map<Key, Item>,
                    x: Id, t: Table, missed: set<Key>, k: Key, age: nat, now: int)
    requires cfg.buckets > 0 && k in store
    requires forall j :: j in store && j != k && Scanned(cfg, gc, scan', x, j) ==> Scanned(cfg, gc, scan, x, j)
    ensures var store' := store[k := store[k].(obj := store[k].obj.(age := age))];
      var t' := Apply(t, SetOf(k, store[k].obj), now);
      && (ExtraOn(store, t, missed) ==> ExtraOn(store', t', missed))
      && (AgreeOn(cfg, gc, scan, store, x, t) ==> AgreeOn(cfg, gc, scan', store', x, t'))
  {
    SetFollows(store[k].obj, t, k, now);
    assert forall o: Obj, a: nat :: DataSurvives(o) == DataSurvives(o.(age := a));
  }

  /** Items change in what slaves do not hold. */
  ghost predicate SameStore(store: map<Key, Item>, store': map<Key, Item>) {
    store'.Keys == store.Keys && forall k :: k in store ==> SameContent(store[k].obj, store'[k].obj)
  }

  lemma Unchanged(cfg: Config, gc: Option<P.Gc>, gc': Option<P.Gc>, scan: Scan, scan': Scan,
                  store: map<Key, Item>, store': map<Key, Item>, x: Id, t: Table, missed: set<Key>)
    requires cfg.buckets > 0 && SameStore(store, store')
    requires forall j :: j in store && Scanned(cfg, gc', scan', x, j) ==> Scanned(cfg, gc, scan, x, j)
    ensures ExtraOn(store, t, missed) ==> ExtraOn(store', t, missed)
    ensures AgreeOn(cfg, gc, scan, store, x, t) ==> AgreeOn(cfg, gc', scan', store', x, t)
  {}

  lemma ScanItemSlave(cfg: Config, s: World, clock: Clocks, x: Id, flush: bool, evictAge: nat, now: int, flushTime: int)
    requires cfg.buckets > 0 && Guard(cfg, s, ScanItem(flush, evictAge, now, flushTime))
    requires ScanOk(cfg, s) && SlaveOk(cfg, s, clock, x)
    requires P.Valid(s.p, x) && x in s.p.started ==> x in s.p.gc.value.slaves
    ensures SlaveOk(cfg, DoScanItem(s, flush, evictAge, now, flushTime), clock, x)
  {
    hide AgreeOn, ExtraOn, Replay, Apply, Collects, P.Guard, P.Faults, P.Do, Exec, BucketBusy;
    var s' := DoScanItem(s, flush, evictAge, now, flushTime);
    var k := s.scan.todo.value[0];
    var gc := s.p.gc.value;
    assert s.scan.todo.value == [k] + s.scan.todo.value[1..];
    if P.Valid(s.p, x) {
      var t := Replay(s.streams[x], clock(x));
      var at := clock(x)(|s.streams[x]|);
      ReplayMore(s.streams[x], DeleteMsg(k), clock(x));
      ReplayMore(s.streams[x], SetOf(k, s.store[k].obj), clock(x));
      if Collects(s.store[k].obj, flush, evictAge, now, flushTime) {
        Removal(cfg, s.p.gc, s.scan, s'.scan, s.store, x, t, s.missed[x], k, at);
      } else if x in gc.newcomers {
        Replication(cfg, s.p.gc, s.scan, s'.scan, s.store, x, t, s.missed[x], k, 0, at);
      } else {
        Unchanged(cfg, s.p.gc, s.p.gc, s.scan, s'.scan, s.store, s'.store, x, t, s.missed[x]);
      }
    }
  }

  // ---------------------------------------------------------------- the store's shape

  lemma ExecuteStore(cfg: Config, s: World, w: nat, k: Key, c: Cmd, now: int, flushTime: int)
    requires cfg.buckets > 0 && Guard(cfg, s, Execute(w, k, c, now, flushTime))
    requires ScanOk(cfg, s) && StoreOk(s.store)
    ensures var s' := DoExecute(cfg, s, w, k, c, now, flushTime);
      StoreOk(s'.store) && ScanOk(cfg, s')
  {
    var env := EnvOf(cfg, s, w, now, flushTime);
    var r := Exec(c, env, |k|, Lookup(s.store, k));
    assert r.entry.Some? ==> GoodKey(k) && r.entry.value.flags < TWO32 by {
      ExecKeepsFlags(c, env, k, Lookup(s.store, k));
    }
  }

  lemma ExecKeepsFlags(c: Cmd, env: Env, k: Key, entry: Option<Obj>)
    requires Parsed(k, c) && (entry.Some? ==> GoodKey(k) && entry.value.flags < TWO32)
    ensures var r := Exec(c, env, |k|, entry);
      r.entry.Some? ==> GoodKey(k) && r.entry.value.flags < TWO32
  {}

  lemma ScanItemStore(cfg: Config, s: World, flush: bool, evictAge: nat, now: int, flushTime: int)
    requires cfg.buckets > 0 && Guard(cfg, s, ScanItem(flush, evictAge, now, flushTime))
    requires ScanOk(cfg, s) && StoreOk(s.store)
    ensures var s' := DoScanItem(s, flush, evictAge, now, flushTime);
      StoreOk(s'.store) && ScanOk(cfg, s')
  {
    hide TodoOk, Collects, Sent, Forgotten;
    TodoNext(cfg, s.scan.pos, s.scan.todo.value, s.store, DoScanItem(s, flush, evictAge, now, flushTime).store);
  }

  /** What a command tells the slaves about a key is a good message. */
  lemma ExecSpeaksWell(c: Cmd, env: Env, k: Key, entry: Option<Obj>)
    requires Parsed(k, c) && (entry.Some? ==> GoodKey(k) && entry.value.flags < TWO32)
    ensures var m := MessageOf(k, Exec(c, env, |k|, entry)); m.Some? ==> GoodMsg(m.value)
  {}

  lemma SentOk(streams: map<Id, seq<Msg>>, p: P.State, targets: seq<Id>, m: Msg)
    requires StreamsOk(streams) && GoodMsg(m)
    ensures StreamsOk(Sent(streams, p, targets, m))
  {}

  lemma ExecuteStreams(cfg: Config, s: World, w: nat, k: Key, c: Cmd, now: int, flushTime: int)
    requires cfg.buckets > 0 && Guard(cfg, s, Execute(w, k, c, now, flushTime))
    requires StoreOk(s.store) && StreamsOk(s.streams)
    ensures StreamsOk(DoExecute(cfg, s, w, k, c, now, flushTime).streams)
  {
    hide Exec, MessageOf, StreamsOk, GoodMsg, Sent;
    var env := EnvOf(cfg, s, w, now, flushTime);
    var m := MessageOf(k, Exec(c, env, |k|, Lookup(s.store, k)));
    ExecSpeaksWell(c, env, k, Lookup(s.store, k));
    if m.Some? {
      SentOk(s.streams, s.p, s.p.res[s.p.jobs[w].sock].list, m.value);
    }
  }

  lemma ScanItemStreams(cfg: Config, s: World, flush: bool, evictAge: nat, now: int, flushTime: int)
    requires cfg.buckets > 0 && Guard(cfg, s, ScanItem(flush, evictAge, now, flushTime))
    requires StoreOk(s.store) && StreamsOk(s.streams)
    ensures StreamsOk(DoScanItem(s, flush, evictAge, now, flushTime).streams)
  {
    hide Collects, Sent, StreamsOk;
    var k := s.scan.todo.value[0];
    SentOk(s.streams, s.p, s.p.gc.value.slaves, DeleteMsg(k));
    SentOk(s.streams, s.p, s.p.gc.value.newcomers, SetOf(k, s.store[k].obj));
  }

  // ---------------------------------------------------------------- protocol steps

  lemma NewIsNew(p: P.State)
    requires I.Tabled(p.res, p.table, p.garbage, p.saved, p.next)
    requires I.Scanning(p.res, p.gc, p.started, p.next)
    ensures p.next !in p.res && p.next !in p.started
  {}

  /** A newly accepted slave holds nothing and has no scan behind it. */
  lemma NewSlave(cfg: Config, s: World, clock: Clocks, fd: P.Fd, idle: seq<bool>)
    requires cfg.buckets > 0 && Guard(cfg, s, Proto(P.AcceptSlave(fd, idle)))
    requires s.p.next !in s.p.started
    ensures SlaveOk(cfg, DoProto(cfg, s, P.AcceptSlave(fd, idle)), clock, s.p.next)
  {
    assert Replay([], clock(s.p.next)) == map[];
  }

  /** Starting a scan leaves nothing scanned for the newcomers and everything for the others. */
  lemma StartGcScans(cfg: Config, s: World, start: bool, x: Id, k: Key)
    requires cfg.buckets > 0 && Guard(cfg, s, Proto(P.StartGc(start)))
    ensures var s' := DoProto(cfg, s, P.StartGc(start));
      && (Scanned(cfg, s'.p.gc, s'.scan, x, k) ==> Scanned(cfg, s.p.gc, s.scan, x, k))
      && (x in s'.p.started && x !in s.p.started ==> !Scanned(cfg, s'.p.gc, s'.scan, x, k))
  {}

  lemma StartGcSlave(cfg: Config, s: World, clock: Clocks, start: bool, x: Id)
    requires cfg.buckets > 0 && Guard(cfg, s, Proto(P.StartGc(start)))
    requires SlaveOk(cfg, s, clock, x)
    ensures SlaveOk(cfg, DoProto(cfg, s, P.StartGc(start)), clock, x)
  {
    hide Follows, Replay;
    forall k
      ensures var s' := DoProto(cfg, s, P.StartGc(start));
        && (Scanned(cfg, s'.p.gc, s'.scan, x, k) ==> Scanned(cfg, s.p.gc, s.scan, x, k))
        && (x in s'.p.started && x !in s.p.started ==> !Scanned(cfg, s'.p.gc, s'.scan, x, k))
    {
      StartGcScans(cfg, s, start, x, k);
    }
  }

  /** The scan ends only past the last bucket. */
  lemma GcFinishSlave(cfg: Config, s: World, clock: Clocks, x: Id)
    requires cfg.buckets > 0 && Guard(cfg, s, Proto(P.GcFinish))
    requires SlaveOk(cfg, s, clock, x)
    ensures SlaveOk(cfg, DoProto(cfg, s, P.GcFinish), clock, x)
  {
    hide Follows, Replay;
    assert forall k :: Scanned(cfg, s.p.gc, s.scan, x, k);
  }

  lemma ProtoSlave(cfg: Config, s: World, clock: Clocks, st: P.Step, x: Id)
    requires cfg.buckets > 0 && ReplInv(cfg, s, clock) && Guard(cfg, s, Proto(st))
    requires I.IsSlave(DoProto(cfg, s, st).p.res, x)
    ensures SlaveOk(cfg, DoProto(cfg, s, st), clock, x)
  {
    hide I.Inv, P.Guard, P.Faults, P.Do, AgreeOn, ExtraOn, Scanned;
    InvNew(s.p);
    F.FrameRes(s.p, st, x);
    F.FrameGc(s.p, st);
    if st.AcceptSlave? && x == s.p.next {
      NewSlave(cfg, s, clock, st.fd, st.idle);
    } else {
      assert SlaveOk(cfg, s, clock, x);
      if st.StartGc? {
        StartGcSlave(cfg, s, clock, st.start, x);
      } else if st.GcFinish? {
        GcFinishSlave(cfg, s, clock, x);
      }
    }
  }

  lemma InvNew(p: P.State)
    requires I.Inv(p)
    ensures p.next !in p.res && p.next !in p.started
  {
    hide I.Opened, I.Counted, I.Dropping, I.Using, I.Working, I.Alive, I.Joining, I.Unlisted, I.Reclaiming, I.Purged;
  }

  lemma ProtoStore(cfg: Config, s: World, st: P.Step)
    requires cfg.buckets > 0 && Guard(cfg, s, Proto(st)) && ScanOk(cfg, s) && s.p.next !in s.p.res
    requires StreamsOk(s.streams)
    ensures ScanOk(cfg, DoProto(cfg, s, st)) && DoProto(cfg, s, st).store == s.store
    ensures StreamsOk(DoProto(cfg, s, st).streams)
  {
    hide P.Guard, P.Faults, P.Do;
    F.FrameGc(s.p, st);
  }

  lemma ProtoKeeps(cfg: Config, s: World, clock: Clocks, st: P.Step)
    requires cfg.buckets > 0 && ReplInv(cfg, s, clock) && Guard(cfg, s, Proto(st))
    ensures ReplInv(cfg, DoProto(cfg, s, st), clock)
  {
    hide I.Inv, P.Guard, P.Faults, P.Do, SlaveOk, ScanOk, StreamsOk;
    R.StepKeeps(s.p, st);
    InvNew(s.p);
    ProtoStore(cfg, s, st);
    forall x | I.IsSlave(DoProto(cfg, s, st).p.res, x)
      ensures SlaveOk(cfg, DoProto(cfg, s, st), clock, x)
    {
      ProtoSlave(cfg, s, clock, st, x);
    }
  }

  // ---------------------------------------------------------------- data steps

  /** A step that leaves the protocol, the streams and the shared content alone. */
  lemma QuietSlave(cfg: Config, s: World, s': World, clock: Clocks, x: Id)
    requires cfg.buckets > 0 && SlaveOk(cfg, s, clock, x)
    requires s'.p == s.p && s'.streams == s.streams && s'.missed == s.missed && SameStore(s.store, s'.store)
    requires forall k :: k in s.store && Scanned(cfg, s.p.gc, s'.scan, x, k) ==> Scanned(cfg, s.p.gc, s.scan, x, k)
    ensures SlaveOk(cfg, s', clock, x)
  {
    hide Replay;
    if P.Valid(s.p, x) {
      Unchanged(cfg, s.p.gc, s.p.gc, s.scan, s'.scan, s.store, s'.store, x, Replay(s.streams[x], clock(x)),
                s.missed[x]);
    }
  }

  /** Taking and leaving a bucket moves the border of what is scanned over no item of the store. */
  lemma BorderMoves(cfg: Config, s: World, st: Step, x: Id, k: Key)
    requires cfg.buckets > 0 && (st.ScanLock? || st.ScanUnlock?) && Guard(cfg, s, st)
    requires k in s.store && Scanned(cfg, s.p.gc, Do(cfg, s, st).scan, x, k)
    ensures Scanned(cfg, s.p.gc, s.scan, x, k)
  {}

  lemma QuietStep(cfg: Config, s: World, st: Step)
    requires cfg.buckets > 0 && Guard(cfg, s, st) && !Faults(cfg, s, st)
    requires !st.Proto? && !st.Execute? && !st.ScanItem?
    requires ScanOk(cfg, s) && StoreOk(s.store)
    ensures var s' := Do(cfg, s, st);
      && s'.p == s.p && s'.streams == s.streams && s'.missed == s.missed && SameStore(s.store, s'.store)
      && (!st.ScanLock? && !st.ScanUnlock? ==> s'.scan == s.scan)
      && ScanOk(cfg, s') && StoreOk(s'.store)
  {
    hide TodoOk, StoreOk, SameStore, ScanOk;
    QuietFrame(cfg, s, st);
    SameStoreKeeps(s.store, Do(cfg, s, st).store);
    QuietScan(cfg, s, st);
  }

  lemma QuietFrame(cfg: Config, s: World, st: Step)
    requires cfg.buckets > 0 && Guard(cfg, s, st) && !Faults(cfg, s, st)
    requires !st.Proto? && !st.Execute? && !st.ScanItem?
    ensures var s' := Do(cfg, s, st);
      && s'.p == s.p && s'.streams == s.streams && s'.missed == s.missed && SameStore(s.store, s'.store)
      && (!st.ScanLock? && !st.ScanUnlock? ==> s'.scan == s.scan)
  {
    hide P.Guard, P.Faults, P.Do, Exec, OutcomeOf, DoProto, DoExecute, DoScanItem, Find, BucketBusy, NoDup;
  }

  lemma SameStoreKeeps(store: map<Key, Item>, store': map<Key, Item>)
    requires SameStore(store, store') && StoreOk(store)
    ensures StoreOk(store')
  {}

  lemma QuietScan(cfg: Config, s: World, st: Step)
    requires cfg.buckets > 0 && Guard(cfg, s, st) && !Faults(cfg, s, st)
    requires !st.Proto? && !st.Execute? && !st.ScanItem? && ScanOk(cfg, s)
    requires SameStore(s.store, Do(cfg, s, st).store)
    ensures ScanOk(cfg, Do(cfg, s, st))
  {
    hide P.Guard, P.Faults, P.Do, Exec, OutcomeOf, DoProto, DoExecute, DoScanItem, Find, BucketBusy, NoDup;
  }

  lemma DataKeeps(cfg: Config, s: World, clock: Clocks, st: Step, x: Id)
    requires cfg.buckets > 0 && ReplInv(cfg, s, clock)
    requires Guard(cfg, s, st) && !Faults(cfg, s, st) && !st.Proto?
    requires I.IsSlave(s.p.res, x)
    ensures SlaveOk(cfg, Do(cfg, s, st), clock, x)
  {
    hide I.Inv, SlaveOk, ScanOk, StoreOk, Scanned, DoExecute, DoScanItem, SameStore;
    assert SlaveOk(cfg, s, clock, x);
    StartedServed(s.p, x);
    if st.Execute? {
      ExecuteSlave(cfg, s, clock, x, st.w, st.key, st.cmd, st.now, st.flushTime);
    } else if st.ScanItem? {
      ScanItemSlave(cfg, s, clock, x, st.flush, st.evictAge, st.now, st.flushTime);
    } else {
      QuietStep(cfg, s, st);
      forall k | k in s.store && Scanned(cfg, s.p.gc, Do(cfg, s, st).scan, x, k)
        ensures Scanned(cfg, s.p.gc, s.scan, x, k)
      {
        if st.ScanLock? || st.ScanUnlock? {
          BorderMoves(cfg, s, st, x, k);
        }
      }
      QuietSlave(cfg, s, Do(cfg, s, st), clock, x);
    }
  }

  lemma StartedServed(p: P.State, x: Id)
    requires I.Inv(p)
    ensures x in p.started && P.Valid(p, x) ==>
              (forall w :: 0 <= w < |p.jobs| ==> P.Has(p, w, x)) && (p.gc.Some? ==> x in p.gc.value.slaves)
  {
    hide I.Tabled, I.Opened, I.Counted, I.Dropping, I.Using, I.Working, I.Alive, I.Joining, I.Scanning,
         I.Unlisted, I.Reclaiming, I.Purged;
    if x in p.started && P.Valid(p, x) {
      R.StartedFacts(p, x);
    }
  }

  /** Every step keeps the agreement, for every clock of every slave. */
  lemma StepKeeps(cfg: Config, s: World, clock: Clocks, st: Step)
    requires cfg.buckets > 0 && ReplInv(cfg, s, clock)
    requires Guard(cfg, s, st) && !Faults(cfg, s, st)
    ensures ReplInv(cfg, Do(cfg, s, st), clock)
  {
    hide I.Inv, SlaveOk, ScanOk, StoreOk, StreamsOk, DoExecute, DoScanItem, DoProto;
    if st.Proto? {
      ProtoKeeps(cfg, s, clock, st.st);
    } else {
      DataShape(cfg, s, st);
      forall x | I.IsSlave(s.p.res, x)
        ensures SlaveOk(cfg, Do(cfg, s, st), clock, x)
      {
        DataKeeps(cfg, s, clock, st, x);
      }
    }
  }

  lemma DataShape(cfg: Config, s: World, st: Step)
    requires cfg.buckets > 0 && Guard(cfg, s, st) && !Faults(cfg, s, st) && !st.Proto?
    requires ScanOk(cfg, s) && StoreOk(s.store) && StreamsOk(s.streams)
    ensures var s' := Do(cfg, s, st); ScanOk(cfg, s') && StoreOk(s'.store) && StreamsOk(s'.streams) && s'.p == s.p
  {
    hide ScanOk, StoreOk, StreamsOk, SameStore;
    if st.Execute? {
      ExecuteStore(cfg, s, st.w, st.key, st.cmd, st.now, st.flushTime);
      ExecuteStreams(cfg, s, st.w, st.key, st.cmd, st.now, st.flushTime);
    } else if st.ScanItem? {
      ScanItemStreams(cfg, s, st.flush, st.evictAge, st.now, st.flushTime);
      ScanItemStore(cfg, s, st.flush, st.evictAge, st.now, st.flushTime);
    } else {
      QuietStep(cfg, s, st);
    }
  }

  // ---------------------------------------------------------------- runs

  lemma {:induction false} RunKeeps(cfg: Config, s: World, clock: Clocks, steps: seq<Step>, t: World)
    requires cfg.buckets > 0 && ReplInv(cfg, s, clock) && Run(cfg, s, steps, t)
    ensures ReplInv(cfg, t, clock)
    decreases |steps|
  {
    hide ReplInv, Guard, Faults, Do;
    if steps != [] {
      StepKeeps(cfg, s, clock, steps[0]);
      RunKeeps(cfg, Do(cfg, s, steps[0]), clock, steps[1..], t);
    }
  }

  lemma ReachableInv(cfg: Config, workers: nat, clock: Clocks, steps: seq<Step>, t: World)
    requires Reachable(cfg, workers, steps, t)
    ensures ReplInv(cfg, t, clock)
  {
    I.InitInv(workers);
    assert ReplInv(cfg, Init(workers), clock) by { hide I.Inv; }
    RunKeeps(cfg, Init(workers), clock, steps, t);
  }

  /**
    Replica agreement, message by message.  In every run, for every valid slave `x` a scan was
    started for: replaying the messages sent to it, in order and under any clock of its own, gives
    every scanned key the master holds the same data, flags and expiration time, as far as one
    message carries them; data that are empty or over 30 MiB leave neither data nor flags.  WorldWire
    has the same for the bytes of these messages.
  */
  lemma ReplicaAgreement(cfg: Config, workers: nat, clock: Clocks, steps: seq<Step>, s: World, x: Id, k: Key)
    requires Reachable(cfg, workers, steps, s)
    requires P.Valid(s.p, x) && x in s.p.started
    requires k in s.store && Scanned(cfg, s.p.gc, s.scan, x, k)
    ensures x in s.streams
    ensures var t := Replay(s.streams[x], clock(x));
      var o := s.store[k].obj;
      && k in t
      && (if DataSurvives(o) then t[k].data == o.data && t[k].flags == o.flags else t[k].data == [] && t[k].flags == 0)
      && (DataSurvives(o) && ExptimeSurvives(o.exptime) ==> t[k] == Replica(o.data, o.flags, o.exptime))
  {
    ReachableInv(cfg, workers, clock, steps, s);
    StartedIsSlave(s.p, x);
    assert SlaveOk(cfg, s, clock, x);
  }

  lemma SentMessagesAreGood(cfg: Config, workers: nat, steps: seq<Step>, s: World, x: Id)
    requires Reachable(cfg, workers, steps, s) && I.IsSlave(s.p.res, x)
    ensures x in s.streams && AllGood(s.streams[x])
  {
    hide I.Inv, ScanOk, StoreOk;
    var clock := (_: Id) => (_: nat) => 0;
    ReachableInv(cfg, workers, clock, steps, s);
    assert SlaveOk(cfg, s, clock, x);
  }

  /** A key that only the replayed messages hold was removed by a thread whose list lacked the slave. */
  lemma SlaveExtras(cfg: Config, workers: nat, clock: Clocks, steps: seq<Step>, s: World, x: Id, k: Key)
    requires Reachable(cfg, workers, steps, s)
    requires P.Valid(s.p, x) && I.IsSlave(s.p.res, x)
    ensures x in s.streams && x in s.missed
    ensures k in Replay(s.streams[x], clock(x)) && k !in s.store ==> k in s.missed[x]
  {
    ReachableInv(cfg, workers, clock, steps, s);
    assert SlaveOk(cfg, s, clock, x);
  }

  /** Once a scan was started for the slave, no thread misses it any more. */
  lemma NothingMissedAfterStart(cfg: Config, workers: nat, steps: seq<Step>, s: World, st: Step, x: Id)
    requires Reachable(cfg, workers, steps, s) && Guard(cfg, s, st) && !Faults(cfg, s, st)
    requires P.Valid(s.p, x) && x in s.p.started && x in s.missed
    ensures x in Do(cfg, s, st).missed && Do(cfg, s, st).missed[x] == s.missed[x]
  {
    hide Guard, Faults, Do, SlaveOk, ScanOk, StoreOk, I.Inv;
    ReachableInv(cfg, workers, (_: Id) => (_: nat) => 0, steps, s);
    StartedServed(s.p, x);
    InvNew(s.p);
    ServedNotMissed(cfg, s, st, x);
  }

  lemma ServedNotMissed(cfg: Config, s: World, st: Step, x: Id)
    requires cfg.buckets > 0 && Guard(cfg, s, st) && !Faults(cfg, s, st)
    requires x in s.missed && x != s.p.next
    requires forall w :: 0 <= w < |s.p.jobs| ==> P.Has(s.p, w, x)
    requires s.p.gc.Some? ==> x in s.p.gc.value.slaves
    ensures x in Do(cfg, s, st).missed && Do(cfg, s, st).missed[x] == s.missed[x]
  {
    hide P.Guard, P.Faults, P.Do, Exec, Collects;
    if st.Execute? {
      assert P.Has(s.p, st.w, x);
    }
  }

  lemma StartedIsSlave(p: P.State, x: Id)
    requires I.Inv(p) && x in p.started && P.Valid(p, x)
    ensures I.IsSlave(p.res, x)
  {
    hide I.Tabled, I.Opened, I.Counted, I.Dropping, I.Using, I.Working, I.Alive, I.Joining, I.Scanning,
         I.Unlisted, I.Reclaiming, I.Purged;
    R.StartedFacts(p, x);
  }
}
