/**
  Lock ownership: the lock field of an object and the lock lists of the connections agree, so
  the references the lists hold stay valid, and the internal errors of locking are two exactly.
*/
module WorldLocks {
  import opened Seqs
  import opened Objects
  import opened Commands
  import opened Replicas
  import opened World
  import P = Protocol
  import I = ProtocolInv
  import F = ProtocolFrame
  import R = ProtocolRuns

  predicate IsClient(res: map<Id, P.Res>, x: Id) {
    x in res && res[x].kind.Client?
  }

  /** Descriptor numbers serve as lock contexts; no two sockets that still exist share one. */
  ghost predicate Contexts(res: map<Id, P.Res>) {
    forall x, y :: IsClient(res, x) && IsClient(res, y) && x != y ==> res[x].fd != res[y].fd
  }

  predicate HasKey(refs: seq<Ref>, k: Key) {
    exists i :: 0 <= i < |refs| && refs[i].key == k
  }

  /** The client sockets have a list each, and a key is on one list at most, once. */
  ghost predicate Lists(res: map<Id, P.Res>, locks: map<Id, seq<Ref>>) {
    && (forall x :: x in locks <==> IsClient(res, x))
    && (forall x, i, j :: x in locks && 0 <= i < j < |locks[x]| ==> locks[x][i].key != locks[x][j].key)
    && (forall x, y, i, j :: x in locks && y in locks && x != y && 0 <= i < |locks[x]| && 0 <= j < |locks[y]| ==>
          locks[x][i].key != locks[y][j].key)
  }

  predicate Owns(fd: int, store: map<Key, Item>, r: Ref) {
    r.key in store && store[r.key].id == r.item && store[r.key].obj.lock == fd
  }

  /** Every listed reference leads to its item, and the connection owns that item. */
  ghost predicate Held(res: map<Id, P.Res>, store: map<Key, Item>, locks: map<Id, seq<Ref>>) {
    forall x, i :: x in locks && x in res && 0 <= i < |locks[x]| ==> Owns(res[x].fd, store, locks[x][i])
  }

  predicate Lists1(res: map<Id, P.Res>, locks: map<Id, seq<Ref>>, x: Id, lock: int, k: Key) {
    x in locks && x in res && res[x].fd == lock && HasKey(locks[x], k)
  }

  /** Every locked object is on the list of a connection with that context. */
  ghost predicate Owned(res: map<Id, P.Res>, store: map<Key, Item>, locks: map<Id, seq<Ref>>) {
    forall k :: k in store && Locked(store[k].obj) ==> exists x :: Lists1(res, locks, x, store[k].obj.lock, k)
  }

  /** A worker past the begin of a job whose socket was valid has the socket's context. */
  predicate StagedOne(p: P.State, ctxs: seq<int>, stages: seq<Stage>, w: nat)
    requires |ctxs| == |p.jobs| == |stages| && w < |p.jobs|
  {
    p.jobs[w].Recv? && (stages[w].Ready? || stages[w] == Unlocking(true)) ==>
      p.jobs[w].sock in p.res ==> ctxs[w] == p.res[p.jobs[w].sock].fd
  }

  ghost predicate Staged(p: P.State, ctxs: seq<int>, stages: seq<Stage>) {
    && |ctxs| == |p.jobs| == |stages|
    && forall w :: 0 <= w < |p.jobs| ==> StagedOne(p, ctxs, stages, w)
  }

  ghost predicate LockInv(s: World) {
    && I.Inv(s.p)
    && Lists(s.p.res, s.locks) && Held(s.p.res, s.store, s.locks) && Owned(s.p.res, s.store, s.locks)
    && Staged(s.p, s.ctxs, s.stages)
  }

  // ---------------------------------------------------------------- three kinds of change

  /** Locked items keep identity and owner, and no item becomes locked. */
  ghost predicate LocksKept(store: map<Key, Item>, store': map<Key, Item>) {
    && (forall k :: k in store && Locked(store[k].obj) ==>
          k in store' && store'[k].id == store[k].id && store'[k].obj.lock == store[k].obj.lock)
    && (forall k :: k in store' && Locked(store'[k].obj) ==>
          k in store && store[k].obj.lock == store'[k].obj.lock)
  }

  lemma KeepLocked(res: map<Id, P.Res>, store: map<Key, Item>, locks: map<Id, seq<Ref>>, store': map<Key, Item>)
    requires LocksKept(store, store')
    requires Held(res, store, locks) && Owned(res, store, locks)
    ensures Held(res, store', locks) && Owned(res, store', locks)
  {
    forall x, i | x in locks && x in res && 0 <= i < |locks[x]|
      ensures Owns(res[x].fd, store', locks[x][i])
    {
      assert Owns(res[x].fd, store, locks[x][i]);
    }
  }

  /** An unlocked item is on no list. */
  lemma UnlockedUnlisted(res: map<Id, P.Res>, store: map<Key, Item>, locks: map<Id, seq<Ref>>, x: Id, k: Key)
    requires Held(res, store, locks) && x in locks && x in res
    requires k in store ==> !Locked(store[k].obj)
    ensures !HasKey(locks[x], k)
  {
    forall i | 0 <= i < |locks[x]|
      ensures locks[x][i].key != k
    {
      assert Owns(res[x].fd, store, locks[x][i]);
    }
  }

  lemma NowhereListed(res: map<Id, P.Res>, store: map<Key, Item>, locks: map<Id, seq<Ref>>, k: Key)
    requires Lists(res, locks) && Held(res, store, locks)
    requires k in store ==> !Locked(store[k].obj)
    ensures forall y, i :: y in locks && 0 <= i < |locks[y]| ==> locks[y][i].key != k
  {
    forall y, i | y in locks && 0 <= i < |locks[y]|
      ensures locks[y][i].key != k
    {
      UnlockedUnlisted(res, store, locks, y, k);
    }
  }

  lemma AddLists(res: map<Id, P.Res>, locks: map<Id, seq<Ref>>, x: Id, r: Ref, locks': map<Id, seq<Ref>>)
    requires Lists(res, locks) && x in locks && locks' == locks[x := locks[x] + [r]]
    requires forall y, i :: y in locks && 0 <= i < |locks[y]| ==> locks[y][i].key != r.key
    ensures Lists(res, locks') && IsClient(res, x)
  {}

  lemma AddOne(res: map<Id, P.Res>, store: map<Key, Item>, locks: map<Id, seq<Ref>>,
               x: Id, k: Key, o: Obj, store': map<Key, Item>, locks': map<Id, seq<Ref>>)
    requires Lists(res, locks) && Held(res, store, locks) && Owned(res, store, locks)
    requires x in locks && k in store && !Locked(store[k].obj) && o.lock == res[x].fd
    requires store' == store[k := store[k].(obj := o)]
    requires locks' == locks[x := locks[x] + [Ref(k, store[k].id)]]
    ensures Lists(res, locks') && Held(res, store', locks') && Owned(res, store', locks')
  {
    hide Lists;
    NowhereListed(res, store, locks, k);
    AddLists(res, locks, x, Ref(k, store[k].id), locks');
    forall y, i | y in locks' && y in res && 0 <= i < |locks'[y]|
      ensures Owns(res[y].fd, store', locks'[y][i])
    {
      if y != x || i < |locks[x]| {
        assert locks'[y][i] == locks[y][i];
        assert Owns(res[y].fd, store, locks[y][i]);
      }
    }
    assert locks'[x][|locks[x]|] == Ref(k, store[k].id);
    assert HasKey(locks'[x], k);
    assert Lists1(res, locks', x, o.lock, k);
    forall j | j in store' && j != k && Locked(store'[j].obj)
      ensures exists y :: Lists1(res, locks', y, store'[j].obj.lock, j)
    {
      var y :| Lists1(res, locks, y, store[j].obj.lock, j);
      var i :| 0 <= i < |locks[y]| && locks[y][i].key == j;
      assert locks'[y][i] == locks[y][i];
      assert Lists1(res, locks', y, store'[j].obj.lock, j);
    }
  }

  /** The owner's reference to `k` goes, together with the lock or the whole item. */
  lemma DropOne(res: map<Id, P.Res>, store: map<Key, Item>, locks: map<Id, seq<Ref>>,
                x: Id, n: nat, store': map<Key, Item>, locks': map<Id, seq<Ref>>)
    requires Lists(res, locks) && Held(res, store, locks) && Owned(res, store, locks)
    requires x in locks && n < |locks[x]|
    requires var k := locks[x][n].key;
      && (forall j :: j != k ==> (j in store' <==> j in store) && (j in store ==> store'[j] == store[j]))
      && (k in store' ==> !Locked(store'[k].obj))
    requires locks' == locks[x := Without(locks[x], n)]
    ensures Lists(res, locks') && Held(res, store', locks') && Owned(res, store', locks')
  {
    var k := locks[x][n].key;
    DropLists(res, locks, x, n, locks');
    forall y, i | y in locks' && y in res && 0 <= i < |locks'[y]|
      ensures Owns(res[y].fd, store', locks'[y][i])
    {
      DropOwns(res, store, locks, x, n, y, i, locks');
    }
    forall j | j in store' && Locked(store'[j].obj)
      ensures exists y :: Lists1(res, locks', y, store'[j].obj.lock, j)
    {
      var y :| Lists1(res, locks, y, store[j].obj.lock, j);
      DropKeepsOther(locks, x, n, y, j, locks');
      assert Lists1(res, locks', y, store'[j].obj.lock, j);
    }
  }

  lemma DropLists(res: map<Id, P.Res>, locks: map<Id, seq<Ref>>, x: Id, n: nat, locks': map<Id, seq<Ref>>)
    requires Lists(res, locks) && x in locks && n < |locks[x]| && locks' == locks[x := Without(locks[x], n)]
    ensures Lists(res, locks')
    ensures !HasKey(locks'[x], locks[x][n].key)
  {
    var r := Without(locks[x], n);
    assert forall j :: 0 <= j < |r| ==> r[j] == locks[x][if j < n then j else j + 1];
  }

  lemma DropOwns(res: map<Id, P.Res>, store: map<Key, Item>, locks: map<Id, seq<Ref>>,
                 x: Id, n: nat, y: Id, i: nat, locks': map<Id, seq<Ref>>)
    requires Lists(res, locks) && Held(res, store, locks)
    requires x in locks && n < |locks[x]| && locks' == locks[x := Without(locks[x], n)]
    requires y in locks' && i < |locks'[y]|
    ensures locks'[y][i].key != locks[x][n].key
    ensures Owns(res[y].fd, store, locks'[y][i])
  {
    DropLists(res, locks, x, n, locks');
    assert Owns(res[x].fd, store, locks[x][n]);
    if y == x {
      var j := if i < n then i else i + 1;
      assert locks'[x][i] == locks[x][j];
      assert Owns(res[x].fd, store, locks[x][j]);
    } else {
      assert Owns(res[y].fd, store, locks[y][i]);
    }
  }

  lemma DropKeepsOther(locks: map<Id, seq<Ref>>, x: Id, n: nat, y: Id, j: Key, locks': map<Id, seq<Ref>>)
    requires x in locks && n < |locks[x]| && locks' == locks[x := Without(locks[x], n)]
    requires y in locks && HasKey(locks[y], j) && j != locks[x][n].key
    ensures HasKey(locks'[y], j)
  {
    var i :| 0 <= i < |locks[y]| && locks[y][i].key == j;
    if y == x {
      assert i != n;
      assert locks'[x][if i < n then i else i - 1] == locks[x][i];
    } else {
      assert locks'[y][i] == locks[y][i];
    }
  }

  // ---------------------------------------------------------------- commands

  lemma ExecuteLocks(cfg: Config, s: World, w: nat, k: Key, c: Cmd, now: int, flushTime: int)
    requires cfg.buckets > 0 && Receiving(s, w)
    requires Lists(s.p.res, s.locks) && Held(s.p.res, s.store, s.locks) && Owned(s.p.res, s.store, s.locks)
    requires s.ctxs[w] == s.p.res[s.p.jobs[w].sock].fd
    requires OutcomeOf(cfg, s, w, k, c, now, flushTime).lockOp.RemoveLock? ==>
               Find(s.locks[s.p.jobs[w].sock], k) < |s.locks[s.p.jobs[w].sock]|
    ensures var s' := DoExecute(cfg, s, w, k, c, now, flushTime);
      Lists(s'.p.res, s'.locks) && Held(s'.p.res, s'.store, s'.locks) && Owned(s'.p.res, s'.store, s'.locks)
  {
    hide Exec, MessageOf, Held, Owned, Lists, Sent, Forgotten;
    var s' := DoExecute(cfg, s, w, k, c, now, flushTime);
    var x := s.p.jobs[w].sock;
    var r := OutcomeOf(cfg, s, w, k, c, now, flushTime);
    LockDiscipline(c, EnvOf(cfg, s, w, now, flushTime), |k|, Lookup(s.store, k));
    match r.lockOp {
      case NoChange =>
        KeepLocked(s.p.res, s.store, s.locks, s'.store);
      case AddLock =>
        AddOne(s.p.res, s.store, s.locks, x, k, r.entry.value, s'.store, s'.locks);
      case RemoveLock =>
        DropOne(s.p.res, s.store, s.locks, x, Find(s.locks[x], k), s'.store, s'.locks);
    }
  }

  // ---------------------------------------------------------------- other steps

  /** Locked objects pass the GC predicate untouched. */
  lemma ScanItemLocks(s: World, flush: bool, evictAge: nat, now: int, flushTime: int)
    requires GcRunning(s.p) && s.scan.todo.Some? && s.scan.todo.value != [] && s.scan.todo.value[0] in s.store
    ensures LocksKept(s.store, DoScanItem(s, flush, evictAge, now, flushTime).store)
    ensures DoScanItem(s, flush, evictAge, now, flushTime).locks == s.locks
  {}

  /** `unlock` of the first listed reference, by the job or by the destructor. */
  lemma UnlockFirst(res: map<Id, P.Res>, store: map<Key, Item>, locks: map<Id, seq<Ref>>, x: Id)
    requires Lists(res, locks) && Held(res, store, locks) && Owned(res, store, locks)
    requires x in locks && locks[x] != []
    ensures Owns(res[x].fd, store, locks[x][0])
    ensures var store' := Unlocked(store, locks[x][0].key);
      var locks' := locks[x := locks[x][1..]];
      Lists(res, locks') && Held(res, store', locks') && Owned(res, store', locks')
  {
    assert Owns(res[x].fd, store, locks[x][0]);
    assert Without(locks[x], 0) == locks[x][1..];
    DropOne(res, store, locks, x, 0, Unlocked(store, locks[x][0].key), locks[x := locks[x][1..]]);
  }

  /** The connection has the same list and context after as before, or its list is empty. */
  predicate SameList(res: map<Id, P.Res>, locks: map<Id, seq<Ref>>,
                     res': map<Id, P.Res>, locks': map<Id, seq<Ref>>, x: Id)
  {
    && (x in locks' && locks'[x] != [] ==> x in locks && locks[x] == locks'[x])
    && (x in locks && locks[x] != [] ==> x in locks' && locks[x] == locks'[x])
    && (x in locks' && locks'[x] != [] ==> (x in res <==> x in res') && (x in res ==> res[x].fd == res'[x].fd))
  }

  /** Destructed sockets have no locks left, new ones have none yet, the others keep list and context. */
  lemma ProtoClient(cfg: Config, s: World, st: P.Step, x: Id)
    requires cfg.buckets > 0 && Guard(cfg, s, Proto(st)) && s.p.next !in s.p.res
    requires x in s.locks <==> IsClient(s.p.res, x)
    ensures var s' := DoProto(cfg, s, st);
      && (x in s'.locks <==> IsClient(s'.p.res, x))
      && SameList(s.p.res, s.locks, s'.p.res, s'.locks, x)
  {
    hide P.Guard, P.Faults, P.Do;
    F.FrameRes(s.p, st, x);
  }

  lemma SameHeld(res: map<Id, P.Res>, store: map<Key, Item>, locks: map<Id, seq<Ref>>,
                 res': map<Id, P.Res>, locks': map<Id, seq<Ref>>)
    requires Lists(res, locks) && Held(res, store, locks) && Owned(res, store, locks)
    requires forall x :: x in locks' <==> IsClient(res', x)
    requires forall x :: SameList(res, locks, res', locks', x)
    ensures Lists(res', locks') && Held(res', store, locks') && Owned(res', store, locks')
  {
    forall x, i, j | x in locks' && 0 <= i < j < |locks'[x]|
      ensures locks'[x][i].key != locks'[x][j].key
    {
      assert SameList(res, locks, res', locks', x);
    }
    forall x, y, i, j | x in locks' && y in locks' && x != y && 0 <= i < |locks'[x]| && 0 <= j < |locks'[y]|
      ensures locks'[x][i].key != locks'[y][j].key
    {
      assert SameList(res, locks, res', locks', x) && SameList(res, locks, res', locks', y);
    }
    forall x, i | x in locks' && x in res' && 0 <= i < |locks'[x]|
      ensures Owns(res'[x].fd, store, locks'[x][i])
    {
      assert SameList(res, locks, res', locks', x);
      assert Owns(res[x].fd, store, locks[x][i]);
    }
    forall k | k in store && Locked(store[k].obj)
      ensures exists x :: Lists1(res', locks', x, store[k].obj.lock, k)
    {
      var x :| Lists1(res, locks, x, store[k].obj.lock, k);
      assert SameList(res, locks, res', locks', x);
      assert Lists1(res', locks', x, store[k].obj.lock, k);
    }
  }

  lemma ProtoHeld(cfg: Config, s: World, st: P.Step)
    requires cfg.buckets > 0 && Guard(cfg, s, Proto(st)) && s.p.next !in s.p.res
    requires Lists(s.p.res, s.locks) && Held(s.p.res, s.store, s.locks) && Owned(s.p.res, s.store, s.locks)
    ensures var s' := DoProto(cfg, s, st);
      Lists(s'.p.res, s'.locks) && Held(s'.p.res, s.store, s'.locks) && Owned(s'.p.res, s.store, s'.locks)
  {
    hide P.Guard, P.Faults, P.Do, DoProto, Held, Owned, SameList, Guard;
    var s' := DoProto(cfg, s, st);
    forall x
      ensures x in s'.locks <==> IsClient(s'.p.res, x)
      ensures SameList(s.p.res, s.locks, s'.p.res, s'.locks, x)
    {
      ProtoClient(cfg, s, st, x);
    }
    SameHeld(s.p.res, s.store, s.locks, s'.p.res, s'.locks);
  }

  lemma ProtoStagedOne(cfg: Config, s: World, st: P.Step, w: nat)
    requires cfg.buckets > 0 && Guard(cfg, s, Proto(st)) && s.p.next !in s.p.res
    requires |s.ctxs| == |s.p.jobs| == |s.stages| && w < |s.p.jobs| && StagedOne(s.p, s.ctxs, s.stages, w)
    requires s.p.jobs[w].Recv? ==> s.p.jobs[w].sock in s.p.res
    ensures var s' := DoProto(cfg, s, st);
      |s'.ctxs| == |s'.p.jobs| == |s'.stages| == |s.p.jobs| && StagedOne(s'.p, s'.ctxs, s'.stages, w)
  {
    hide P.Guard, P.Faults, P.Do;
    JobCount(cfg, s, st);
    F.FrameJobs(s.p, st, w);
    if P.Do(s.p, st).jobs[w].Recv? && !(st.PostRecv? && st.w == w) {
      F.FrameRes(s.p, st, s.p.jobs[w].sock);
    }
  }

  lemma ProtoStaged(cfg: Config, s: World, st: P.Step)
    requires cfg.buckets > 0 && I.Inv(s.p) && Guard(cfg, s, Proto(st)) && s.p.next !in s.p.res
    requires Staged(s.p, s.ctxs, s.stages)
    ensures var s' := DoProto(cfg, s, st); Staged(s'.p, s'.ctxs, s'.stages)
  {
    hide I.Inv, P.Guard, P.Faults, P.Do, DoProto, Guard, StagedOne;
    var s' := DoProto(cfg, s, st);
    JobCount(cfg, s, st);
    forall w | 0 <= w < |s.p.jobs|
      ensures |s'.ctxs| == |s'.p.jobs| == |s'.stages| == |s.p.jobs| && StagedOne(s'.p, s'.ctxs, s'.stages, w)
    {
      if s.p.jobs[w].Recv? { SocketAlive(s.p, w); }
      ProtoStagedOne(cfg, s, st, w);
    }
  }

  lemma JobCount(cfg: Config, s: World, st: P.Step)
    requires cfg.buckets > 0 && Guard(cfg, s, Proto(st))
    requires |s.ctxs| == |s.p.jobs| == |s.stages|
    ensures var s' := DoProto(cfg, s, st); |s'.ctxs| == |s'.p.jobs| == |s'.stages| == |s.p.jobs|
  {
    hide P.Guard, P.Faults, P.Do;
    F.FrameWorkers(s.p, st);
  }

  lemma SocketAlive(p: P.State, w: nat)
    requires I.Inv(p) && w < |p.jobs| && p.jobs[w].Recv?
    ensures p.jobs[w].sock in p.res
  {
    hide I.Tabled, I.Opened, I.Counted, I.Dropping, I.Using, I.Working, I.Joining, I.Scanning, I.Unlisted,
         I.Reclaiming, I.Purged;
    assert P.JobRefers(p.res, p.jobs[w], p.jobs[w].sock);
  }

  lemma ProtoKeeps(cfg: Config, s: World, st: P.Step)
    requires cfg.buckets > 0 && LockInv(s) && Guard(cfg, s, Proto(st))
    ensures LockInv(DoProto(cfg, s, st))
  {
    hide I.Inv, P.Guard, P.Faults, P.Do, Lists, Held, Owned, Staged;
    R.StepKeeps(s.p, st);
    NewIsNew(s.p);
    ProtoHeld(cfg, s, st);
    ProtoStaged(cfg, s, st);
  }

  lemma NewIsNew(p: P.State)
    requires I.Inv(p)
    ensures p.next !in p.res
  {
    hide I.Opened, I.Counted, I.Dropping, I.Using, I.Working, I.Alive, I.Joining, I.Scanning, I.Unlisted,
         I.Reclaiming, I.Purged;
  }

  // ---------------------------------------------------------------- all steps

  /** The job runs with a context that is not its socket's: the socket was invalid when it began. */
  ghost predicate WrongContext(s: World, st: Step) {
    st.UnlockOne? && Receiving(s, st.w) && s.stages[st.w] == Unlocking(false)
    && s.ctxs[st.w] != s.p.res[s.p.jobs[st.w].sock].fd
  }

  lemma StageContext(s: World, w: nat)
    requires Receiving(s, w) && Staged(s.p, s.ctxs, s.stages)
    requires s.stages[w].Ready? || s.stages[w] == Unlocking(true)
    ensures s.ctxs[w] == s.p.res[s.p.jobs[w].sock].fd
  {
    assert StagedOne(s.p, s.ctxs, s.stages, w);
  }

  /**
    The command gives up the lock on a key that is on the list of another socket with the same
    descriptor number, one that was closed and still waits for its destruction.
  */
  ghost predicate SharedContext(cfg: Config, s: World, st: Step) {
    && st.Execute? && Receiving(s, st.w)
    && Releases(st.cmd, EnvOf(cfg, s, st.w, st.now, st.flushTime), |st.key|, Lookup(s.store, st.key))
    && exists y :: y != s.p.jobs[st.w].sock
                   && Lists1(s.p.res, s.locks, y, s.p.res[s.p.jobs[st.w].sock].fd, st.key)
  }

  /** A listed key is found, and a key on another list is not. */
  lemma FoundOrElsewhere(res: map<Id, P.Res>, store: map<Key, Item>, locks: map<Id, seq<Ref>>, x: Id, k: Key)
    requires Lists(res, locks) && Owned(res, store, locks)
    requires x in locks && k in store && store[k].obj.lock == res[x].fd
    ensures Find(locks[x], k) == |locks[x]| <==> exists y :: y != x && Lists1(res, locks, y, res[x].fd, k)
  {
    var y :| Lists1(res, locks, y, store[k].obj.lock, k);
    if y != x {
      var i :| 0 <= i < |locks[y]| && locks[y][i].key == k;
      assert forall j :: 0 <= j < |locks[x]| ==> locks[x][j].key != k;
    } else {
      forall z | z != x
        ensures !Lists1(res, locks, z, res[x].fd, k)
      {}
    }
  }

  lemma ExecuteFaults(cfg: Config, s: World, st: Step)
    requires cfg.buckets > 0 && LockInv(s) && st.Execute? && Guard(cfg, s, st)
    ensures Faults(cfg, s, st) <==> SharedContext(cfg, s, st)
  {
    hide I.Inv, P.Guard, P.Faults, P.Do, Lists, Held, Owned, Staged, Exec, Lists1;
    var env := EnvOf(cfg, s, st.w, st.now, st.flushTime);
    StageContext(s, st.w);
    ReleasesExactly(st.cmd, env, |st.key|, Lookup(s.store, st.key));
    if Releases(st.cmd, env, |st.key|, Lookup(s.store, st.key)) {
      FoundOrElsewhere(s.p.res, s.store, s.locks, s.p.jobs[st.w].sock, st.key);
    }
  }

  /**
    The internal errors of the locking code, exactly: a job that began on an invalid socket
    releases a lock under the context its thread had before, or a command releases a lock that
    another socket with the same number holds.
  */
  lemma FaultsExactly(cfg: Config, s: World, st: Step)
    requires cfg.buckets > 0 && LockInv(s) && Guard(cfg, s, st)
    ensures Faults(cfg, s, st) <==> WrongContext(s, st) || SharedContext(cfg, s, st)
  {
    hide I.Inv, P.Guard, P.Faults, P.Do, Lists, Held, Owned, Staged, Exec, Releases, Lists1;
    if st.Execute? {
      ExecuteFaults(cfg, s, st);
    } else if st.UnlockOne? {
      UnlockFirst(s.p.res, s.store, s.locks, s.p.jobs[st.w].sock);
      if s.stages[st.w].known { StageContext(s, st.w); }
    } else if st.DestructUnlock? {
      UnlockFirst(s.p.res, s.store, s.locks, s.p.saved[0]);
    }
  }

  lemma StagesKeep(cfg: Config, s: World, st: Step)
    requires cfg.buckets > 0 && Guard(cfg, s, st) && !Faults(cfg, s, st) && !st.Proto?
    requires Staged(s.p, s.ctxs, s.stages)
    ensures var s' := Do(cfg, s, st); s'.p == s.p && Staged(s'.p, s'.ctxs, s'.stages)
  {
    hide Exec, Collects, DoExecute, DoScanItem, P.Guard, P.Faults, Unlocked, BucketBusy, Find, OutcomeOf;
    if st.Execute? {
      ExecuteFrame(cfg, s, st.w, st.key, st.cmd, st.now, st.flushTime);
    } else if st.ScanItem? {
      ScanItemFrame(s, st.flush, st.evictAge, st.now, st.flushTime);
    } else {
      var s' := Do(cfg, s, st);
      forall w | 0 <= w < |s.p.jobs|
        ensures StagedOne(s'.p, s'.ctxs, s'.stages, w)
      {
        assert StagedOne(s.p, s.ctxs, s.stages, w);
      }
    }
  }

  lemma ExecuteFrame(cfg: Config, s: World, w: nat, k: Key, c: Cmd, now: int, flushTime: int)
    requires Receiving(s, w)
    ensures var s' := DoExecute(cfg, s, w, k, c, now, flushTime);
      s'.p == s.p && s'.ctxs == s.ctxs && s'.stages == s.stages
  {}

  lemma ScanItemFrame(s: World, flush: bool, evictAge: nat, now: int, flushTime: int)
    requires GcRunning(s.p) && s.scan.todo.Some? && s.scan.todo.value != [] && s.scan.todo.value[0] in s.store
    ensures var s' := DoScanItem(s, flush, evictAge, now, flushTime);
      s'.p == s.p && s'.ctxs == s.ctxs && s'.stages == s.stages
  {}

  lemma StepKeeps(cfg: Config, s: World, st: Step)
    requires cfg.buckets > 0 && LockInv(s) && Guard(cfg, s, st) && !Faults(cfg, s, st)
    ensures LockInv(Do(cfg, s, st))
  {
    hide I.Inv, P.Guard, P.Faults, P.Do, Lists, Held, Owned, Staged, Exec, DoExecute, DoScanItem, LocksKept;
    if st.Proto? {
      ProtoKeeps(cfg, s, st.st);
    } else {
      StagesKeep(cfg, s, st);
      if st.Execute? {
        StageContext(s, st.w);
        ExecuteLocks(cfg, s, st.w, st.key, st.cmd, st.now, st.flushTime);
      } else if st.ScanItem? {
        ScanItemLocks(s, st.flush, st.evictAge, st.now, st.flushTime);
        KeepLocked(s.p.res, s.store, s.locks, Do(cfg, s, st).store);
      } else if st.UnlockOne? {
        UnlockFirst(s.p.res, s.store, s.locks, s.p.jobs[st.w].sock);
      } else if st.DestructUnlock? {
        UnlockFirst(s.p.res, s.store, s.locks, s.p.saved[0]);
      }
    }
  }

  // ---------------------------------------------------------------- runs

  lemma {:induction false} RunKeeps(cfg: Config, s: World, steps: seq<Step>, t: World)
    requires cfg.buckets > 0 && LockInv(s) && Run(cfg, s, steps, t)
    ensures LockInv(t)
    decreases |steps|
  {
    hide LockInv, Guard, Faults, Do;
    if steps != [] {
      StepKeeps(cfg, s, steps[0]);
      RunKeeps(cfg, Do(cfg, s, steps[0]), steps[1..], t);
    }
  }

  lemma ReachableInv(cfg: Config, workers: nat, steps: seq<Step>, t: World)
    requires Reachable(cfg, workers, steps, t)
    ensures LockInv(t)
  {
    I.InitInv(workers);
    assert LockInv(Init(workers)) by { hide I.Inv; }
    RunKeeps(cfg, Init(workers), steps, t);
  }

  /**
    Lock ownership: in every run an object is locked by number `c` exactly when its key is on the
    list of a socket with that number; it is on one list only, there once, and the reference leads
    to the living item.
  */
  lemma LockOwnership(cfg: Config, workers: nat, steps: seq<Step>, s: World, c: nat, k: Key)
    requires Reachable(cfg, workers, steps, s)
    ensures k in s.store && s.store[k].obj.lock == c <==> exists x :: Lists1(s.p.res, s.locks, x, c, k)
    ensures forall x, y :: x in s.locks && y in s.locks && HasKey(s.locks[x], k) && HasKey(s.locks[y], k) ==> x == y
    ensures forall x, i, j :: x in s.locks && 0 <= i < j < |s.locks[x]| ==> s.locks[x][i].key != s.locks[x][j].key
    ensures forall x, i :: x in s.locks && 0 <= i < |s.locks[x]| ==> RefAlive(s, s.locks[x][i])
  {
    hide I.Inv, Staged;
    ReachableInv(cfg, workers, steps, s);
    forall x, i | x in s.locks && 0 <= i < |s.locks[x]|
      ensures Owns(s.p.res[x].fd, s.store, s.locks[x][i])
    {}
    OneList(s, k);
  }

  lemma OneList(s: World, k: Key)
    requires Lists(s.p.res, s.locks)
    ensures forall x, y :: x in s.locks && y in s.locks && HasKey(s.locks[x], k) && HasKey(s.locks[y], k) ==> x == y
  {
    forall x, y | x in s.locks && y in s.locks && HasKey(s.locks[x], k) && HasKey(s.locks[y], k)
      ensures x == y
    {
      var i :| 0 <= i < |s.locks[x]| && s.locks[x][i].key == k;
      var j :| 0 <= j < |s.locks[y]| && s.locks[y][j].key == k;
    }
  }

  /** In every run the two conditions are the only ways into an internal error. */
  lemma RunsFaultExactly(cfg: Config, workers: nat, steps: seq<Step>, s: World, st: Step)
    requires Reachable(cfg, workers, steps, s) && Guard(cfg, s, st)
    ensures Faults(cfg, s, st) <==> WrongContext(s, st) || SharedContext(cfg, s, st)
  {
    ReachableInv(cfg, workers, steps, s);
    FaultsExactly(cfg, s, st);
  }

  /** The step is a command on `k` by a connection with number `c`, or releases the listed lock on `k`. */
  ghost predicate ActionOn(s: World, st: Step, c: int, k: Key) {
    || (st.Execute? && Receiving(s, st.w) && st.key == k && s.p.res[s.p.jobs[st.w].sock].fd == c)
    || (st.UnlockOne? && Receiving(s, st.w) && HasKey(s.locks[s.p.jobs[st.w].sock], k))
    || (st.DestructUnlock? && s.p.saved != [] && s.p.saved[0] in s.locks && HasKey(s.locks[s.p.saved[0]], k))
  }

  /** Owner, identity and content of the item, the expiration time aside. */
  predicate SameLocked(store: map<Key, Item>, store': map<Key, Item>, k: Key)
    requires k in store
  {
    && k in store' && store'[k].id == store[k].id
    && store'[k].obj.lock == store[k].obj.lock && store'[k].obj.data == store[k].obj.data
    && store'[k].obj.flags == store[k].obj.flags && store'[k].obj.cas == store[k].obj.cas
  }

  /**
    A locked object is neither flushed, evicted, expired, deleted nor overwritten: only commands
    under its owner's number and the release of that lock touch it.
  */
  lemma LockedObjectsStay(cfg: Config, workers: nat, steps: seq<Step>, s: World, st: Step, k: Key)
    requires Reachable(cfg, workers, steps, s) && Guard(cfg, s, st) && !Faults(cfg, s, st)
    requires k in s.store && Locked(s.store[k].obj) && !ActionOn(s, st, s.store[k].obj.lock, k)
    ensures SameLocked(s.store, Do(cfg, s, st).store, k)
  {
    ReachableInv(cfg, workers, steps, s);
    LockedStay(cfg, s, st, k);
  }

  lemma LockedStay(cfg: Config, s: World, st: Step, k: Key)
    requires cfg.buckets > 0 && LockInv(s) && Guard(cfg, s, st) && !Faults(cfg, s, st)
    requires k in s.store && Locked(s.store[k].obj) && !ActionOn(s, st, s.store[k].obj.lock, k)
    ensures SameLocked(s.store, Do(cfg, s, st).store, k)
  {
    hide I.Inv, P.Guard, P.Faults, P.Do, Lists, Held, Owned, Staged, Exec;
    if st.Execute? {
      StageContext(s, st.w);
      if st.key == k {
        LockedBySomeoneElse(st.cmd, EnvOf(cfg, s, st.w, st.now, st.flushTime), |st.key|, s.store[k].obj);
      }
    }
  }

  /** The step gives up the lock on `k`: a command of its owner, or the release of a list that begins with it. */
  ghost predicate ReleaseOn(cfg: Config, s: World, st: Step, k: Key) {
    || (st.Execute? && Receiving(s, st.w) && st.key == k
        && Releases(st.cmd, EnvOf(cfg, s, st.w, st.now, st.flushTime), |k|, Lookup(s.store, k)))
    || (st.UnlockOne? && Receiving(s, st.w) && BeginsWith(s.locks[s.p.jobs[st.w].sock], k))
    || (st.DestructUnlock? && s.p.saved != [] && s.p.saved[0] in s.locks && BeginsWith(s.locks[s.p.saved[0]], k))
  }

  predicate BeginsWith(refs: seq<Ref>, k: Key) { refs != [] && refs[0].key == k }

  lemma ExecKeepsLock(c: Cmd, env: Env, keyLength: nat, o: Obj)
    requires env.ctx != UNLOCKED && Locked(o)
    ensures var r := Exec(c, env, keyLength, Some(o));
      r.entry.Some? && r.entry.value.lock == o.lock <==> !Releases(c, env, keyLength, Some(o))
  {}

  /** A lock ends exactly by such a step; until then the item stays. */
  lemma LockEndsExactly(cfg: Config, s: World, st: Step, k: Key)
    requires cfg.buckets > 0 && LockInv(s) && Guard(cfg, s, st) && !Faults(cfg, s, st)
    requires k in s.store && Locked(s.store[k].obj)
    ensures var t := Do(cfg, s, st);
      k in t.store && t.store[k].obj.lock == s.store[k].obj.lock <==> !ReleaseOn(cfg, s, st, k)
  {
    hide I.Inv, P.Guard, P.Faults, P.Do, Lists, Held, Owned, Staged, Exec, Releases;
    if st.Execute? {
      StageContext(s, st.w);
      if st.key == k {
        ExecKeepsLock(st.cmd, EnvOf(cfg, s, st.w, st.now, st.flushTime), |k|, s.store[k].obj);
      }
    }
  }

  // ---------------------------------------------------------------- distinct contexts

  /** While no two sockets share a number, a connection owns exactly what its list holds. */
  lemma DistinctOwnership(cfg: Config, workers: nat, steps: seq<Step>, s: World, x: Id, k: Key)
    requires Reachable(cfg, workers, steps, s) && Contexts(s.p.res) && IsClient(s.p.res, x)
    ensures x in s.locks
    ensures HasKey(s.locks[x], k) <==> k in s.store && s.store[k].obj.lock == s.p.res[x].fd
  {
    hide I.Inv, Staged;
    ReachableInv(cfg, workers, steps, s);
    LockOwnership(cfg, workers, steps, s, s.p.res[x].fd, k);
    if HasKey(s.locks[x], k) {
      assert Lists1(s.p.res, s.locks, x, s.p.res[x].fd, k);
    }
  }

  /** And only the first of the two errors is left. */
  lemma DistinctFaults(cfg: Config, workers: nat, steps: seq<Step>, s: World, st: Step)
    requires Reachable(cfg, workers, steps, s) && Contexts(s.p.res) && Guard(cfg, s, st)
    ensures Faults(cfg, s, st) <==> WrongContext(s, st)
  {
    hide I.Inv, Staged, Guard, Faults, Releases;
    ReachableInv(cfg, workers, steps, s);
    RunsFaultExactly(cfg, workers, steps, s, st);
  }
}
