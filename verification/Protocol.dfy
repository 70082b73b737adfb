/**
  The master's concurrency protocol as a step machine: one reactor thread, a fixed set of
  workers, at most one GC thread.  A step is one atomic load, store, exchange or critical
  section of one thread, so every interleaving is a sequence of steps.

  The state keeps what the threads share: the resources, the reactor's table and lists, the
  jobs, the slave lists, the synchronization requests.  Object data lives in module World.
*/
module Protocol {
  import opened Seqs
  import opened Sync

  /** A resource object.  Identifiers are never reused; descriptor numbers are. */
  type Id = nat
  type Fd = nat

  const MAX_SLAVES: nat := 5

  datatype Kind = Client | Slave

  /** `list` is the copy of the slave list that a client socket carries for its job. */
  datatype Res = Res(kind: Kind, fd: Fd, valid: bool, closed: bool, busy: bool, list: seq<Id>)

  /**
    Where a thread is inside `with_fd`: it took the read lock, it runs the body, it won the
    exchange on the validity flag and owes a removal request, or it is about to unlock.
  */
  datatype Use = Out | Checking(id: Id) | Body(id: Id) | Closing(id: Id) | Leaving(id: Id)

  /** `Done` is the end of a receive job, after `m_busy` was cleared and before the worker is idle. */
  datatype Job = Idle | Recv(sock: Id) | Done(sock: Id) | Send(sock: Id)

  datatype Gc = Gc(slaves: seq<Id>, newcomers: seq<Id>, done: bool)

  /** The two callbacks given to the synchronizer. */
  datatype What = Admit(slave: Id) | Reclaim

  /** Program counter of the reactor thread inside and outside the interval callback. */
  datatype Phase = Poll | Purging(i: nat) | Starting | Fixing | Destroying(inCheck: bool)

  /**
    `uses[a]` belongs to worker a, and the last one to the GC thread.
    `started`, `removals` and `closings` are history: slaves a GC thread was started for, and
    how often each resource left the table and had its descriptor closed.
  */
  datatype State = State(
    res: map<Id, Res>, table: map<Fd, Id>, drops: seq<Fd>, garbage: seq<Id>, saved: seq<Id>,
    jobs: seq<Job>, uses: seq<Use>, gc: Option<Gc>,
    slaves: seq<Id>, newcomers: seq<Id>, requests: seq<Request<What>>, phase: Phase,
    next: nat, started: set<Id>, removals: map<Id, nat>, closings: map<Id, nat>)

  datatype Step =
    | AcceptClient(fd: Fd)
    | AcceptSlave(fd: Fd, idle: seq<bool>)
    | PostRecv(w: nat, id: Id)
    | PostSend(w: nat, id: Id)
    | ReactorRemove(id: Id, close: bool)
    | ProcessDrop(close: bool)
    | IntervalCheck(idle: seq<bool>)
    | PurgeKeep
    | PurgeErase
    | PurgeTimeout(close: bool)
    | PurgeEnd
    | StartGc(start: bool)
    | Fix(idle: seq<bool>, closing: set<Id>)
    | Destroy
    | DestroyEnd
    | EndJob(w: nat)
    | GoIdle(w: nat)
    | TakeLock(a: nat, id: Id)
    | CheckValid(a: nat)
    | BodyOk(a: nat)
    | BodyFail(a: nat)
    | RequestRemoval(a: nat)
    | Leave(a: nat)
    | GcFinish

  // ---------------------------------------------------------------- vocabulary

  predicate InTable(s: State, id: Id) {
    id in s.res && s.res[id].fd in s.table && s.table[s.res[id].fd] == id
  }

  predicate On(u: Use, id: Id) {
    u != Out && u.id == id
  }

  /** Nobody holds the read lock of `id`, so `try_close` can take the write lock. */
  predicate NoReader(s: State, id: Id) {
    forall a :: 0 <= a < |s.uses| ==> !On(s.uses[a], id)
  }

  function List(res: map<Id, Res>, id: Id): seq<Id> {
    if id in res then res[id].list else []
  }

  predicate JobRefers(res: map<Id, Res>, j: Job, id: Id) {
    match j
    case Idle => false
    case Recv(x) => id == x || id in List(res, x)
    case Done(x) => id == x
    case Send(x) => id == x
  }

  predicate GcRefers(gc: Option<Gc>, id: Id) {
    gc.Some? && id in gc.value.slaves
  }

  /** Thread `a` may dereference resource `id`. */
  predicate Refers(s: State, a: nat, id: Id) {
    if a < |s.jobs| then JobRefers(s.res, s.jobs[a], id) else GcRefers(s.gc, id)
  }

  predicate MayUse(s: State, a: nat, id: Id) {
    && Refers(s, a, id)
    && (a < |s.jobs| ==> !s.jobs[a].Done?)
    && (a >= |s.jobs| ==> !s.gc.value.done)
  }

  /** A receive job of worker `w` replicates to slave `x`. */
  predicate Has(s: State, w: nat, x: Id) {
    w < |s.jobs| && s.jobs[w].Recv? ==> x in List(s.res, s.jobs[w].sock)
  }

  /** What the loads of the running flags can show: no busy worker is seen idle. */
  predicate Observed(s: State, idle: seq<bool>) {
    |idle| == |s.jobs| && forall w :: 0 <= w < |idle| && idle[w] ==> s.jobs[w].Idle?
  }

  /** The GC thread's slave list: the current slaves, then the new ones not among them. */
  function Merge(slaves: seq<Id>, newcomers: seq<Id>): (r: seq<Id>)
    ensures forall x :: x in r <==> x in slaves || x in newcomers
  {
    if newcomers == [] then slaves
    else
      var rest := Merge(slaves, newcomers[..|newcomers| - 1]);
      var last := newcomers[|newcomers| - 1];
      assert newcomers == newcomers[..|newcomers| - 1] + [last];
      if last in slaves then rest else rest + [last]
  }

  function Admitted(fired: seq<What>): (r: seq<Id>)
    ensures forall x :: x in r <==> Admit(x) in fired
  {
    if fired == [] then []
    else
      var rest := Admitted(fired[..|fired| - 1]);
      var last := fired[|fired| - 1];
      assert fired == fired[..|fired| - 1] + [last];
      if last.Admit? then rest + [last.slave] else rest
  }

  function Bump(m: map<Id, nat>, ids: set<Id>): (r: map<Id, nat>)
    ensures r.Keys == m.Keys
    ensures forall id :: id in m ==> r[id] == if id in ids then m[id] + 1 else m[id]
  {
    map id | id in m :: if id in ids then m[id] + 1 else m[id]
  }

  /** `remove_resource`: out of the table, into the garbage, descriptor closed if nobody uses it. */
  function Removed(s: State, id: Id, close: bool): State
    requires InTable(s, id)
  {
    var r := s.res[id];
    s.(res := s.res[id := r.(valid := false, closed := r.closed || close)],
       table := s.table - {r.fd},
       garbage := s.garbage + [id],
       removals := Bump(s.removals, {id}),
       closings := if close && !r.closed then Bump(s.closings, {id}) else s.closings)
  }

  predicate GcReadyForReactor(s: State) {
    s.garbage != [] && s.requests == [] && s.gc.None? && s.newcomers == []
  }

  function SetUse(s: State, a: nat, u: Use): State
    requires a < |s.uses|
  {
    s.(uses := s.uses[a := u])
  }

  // ---------------------------------------------------------------- steps

  /** When the code can take the step. */
  predicate Guard(s: State, st: Step) {
    match st
    case AcceptClient(fd) =>
      s.phase.Poll? && FdFree(s, fd)
    case AcceptSlave(fd, idle) =>
      s.phase.Poll? && FdFree(s, fd) && |s.slaves| != MAX_SLAVES && Observed(s, idle)
    case PostRecv(w, id) =>
      s.phase.Poll? && InTable(s, id) && s.res[id].kind.Client? && !s.res[id].busy
      && w < |s.jobs| && s.jobs[w].Idle?
    case PostSend(w, id) =>
      s.phase.Poll? && InTable(s, id) && w < |s.jobs| && s.jobs[w].Idle?
    case ReactorRemove(id, close) =>
      s.phase.Poll? && InTable(s, id) && s.res[id].valid && (close ==> NoReader(s, id))
    case ProcessDrop(close) =>
      s.phase.Poll? && s.drops != []
      && (close && s.drops[0] in s.table ==> NoReader(s, s.table[s.drops[0]]))
    case IntervalCheck(idle) =>
      s.phase.Poll? && Observed(s, idle)
    case PurgeKeep =>
      s.phase.Purging? && s.phase.i < |s.slaves| && Valid(s, s.slaves[s.phase.i])
    case PurgeErase =>
      s.phase.Purging? && s.phase.i < |s.slaves| && !Valid(s, s.slaves[s.phase.i])
    case PurgeTimeout(close) =>
      s.phase.Purging? && s.phase.i < |s.slaves| && Valid(s, s.slaves[s.phase.i])
      && (close ==> NoReader(s, s.slaves[s.phase.i]))
    case PurgeEnd =>
      s.phase.Purging? && s.phase.i >= |s.slaves|
    case StartGc(start) =>
      s.phase.Starting? && (start ==> s.gc.None? || s.gc.value.done)
    case Fix(idle, closing) =>
      s.phase.Fixing? && Observed(s, idle)
      && forall id :: id in closing ==>
           id in s.garbage && id in s.res && !s.res[id].closed && NoReader(s, id)
    case Destroy =>
      s.phase.Destroying? && s.saved != []
    case DestroyEnd =>
      s.phase.Destroying? && s.saved == []
    case EndJob(w) =>
      w < |s.jobs| && w < |s.uses| && s.jobs[w].Recv? && s.uses[w].Out?
    case GoIdle(w) =>
      w < |s.jobs| && w < |s.uses| && (s.jobs[w].Done? || s.jobs[w].Send?) && s.uses[w].Out?
    case TakeLock(a, id) =>
      a < |s.uses| && s.uses[a].Out? && MayUse(s, a, id)
    case CheckValid(a) => a < |s.uses| && s.uses[a].Checking?
    case BodyOk(a) => a < |s.uses| && s.uses[a].Body?
    case BodyFail(a) => a < |s.uses| && s.uses[a].Body?
    case RequestRemoval(a) => a < |s.uses| && s.uses[a].Closing?
    case Leave(a) => a < |s.uses| && s.uses[a].Leaving?
    case GcFinish =>
      s.gc.Some? && !s.gc.value.done && |s.uses| == |s.jobs| + 1 && s.uses[|s.jobs|].Out?
  }

  /** The kernel hands out a number only while no open descriptor has it. */
  predicate FdFree(s: State, fd: Fd) {
    forall id :: id in s.res && !s.res[id].closed ==> s.res[id].fd != fd
  }

  predicate Valid(s: State, id: Id) {
    id in s.res && s.res[id].valid
  }

  /**
    The step would use a destructed object or raise one of the two logic errors:
    "bug in remove_resource", or "No gc() was called after fix_garbage()!".
  */
  predicate Faults(s: State, st: Step)
    requires Guard(s, st)
  {
    match st
    case ProcessDrop(_) => s.drops[0] !in s.table || !InTable(s, s.table[s.drops[0]])
    case PurgeKeep | PurgeErase => s.slaves[s.phase.i] !in s.res
    case PurgeTimeout(_) => !InTable(s, s.slaves[s.phase.i])
    case Fix(_, _) => GcReadyForReactor(s) && s.saved != []
    case Destroy => s.saved[0] !in s.res || !NoReader(s, s.saved[0])
    case EndJob(w) => s.jobs[w].sock !in s.res
    case TakeLock(_, id) => id !in s.res
    case CheckValid(a) => s.uses[a].id !in s.res
    case BodyOk(a) => s.uses[a].id !in s.res
    case BodyFail(a) => s.uses[a].id !in s.res
    case RequestRemoval(a) => s.uses[a].id !in s.res
    case Leave(a) => s.uses[a].id !in s.res
    case _ => false
  }

  function Do(s: State, st: Step): State
    requires |s.jobs| <= MAX_WORKERS && WellFormed(s.requests)
    requires Guard(s, st)
    requires !Faults(s, st)
  {
    match st
    case AcceptClient(fd) => Accepted(s, Client, fd)
    case AcceptSlave(fd, idle) =>
      var t := Accepted(s, Slave, fd).(slaves := s.slaves + [s.next]);
      var flags := FirstFlags(idle);
      if All(flags) then t.(newcomers := s.newcomers + [s.next])
      else t.(requests := s.requests + [Request(flags, Admit(s.next))])
    case PostRecv(w, id) =>
      s.(res := s.res[id := s.res[id].(busy := true, list := s.slaves)],
         jobs := s.jobs[w := Recv(id)])
    case PostSend(w, id) => s.(jobs := s.jobs[w := Send(id)])
    case ReactorRemove(id, close) => Removed(s, id, close)
    case ProcessDrop(close) =>
      Removed(s, s.table[s.drops[0]], close).(drops := s.drops[1..])
    case IntervalCheck(idle) =>
      var rs := MarkAll(s.requests, idle);
      var fired := Fired(rs);
      s.(requests := Waiting(rs),
         newcomers := s.newcomers + Admitted(fired),
         phase := if Reclaim in fired then Destroying(true) else Purging(0))
    case PurgeKeep => s.(phase := Purging(s.phase.i + 1))
    case PurgeErase => s.(slaves := Without(s.slaves, s.phase.i))
    case PurgeTimeout(close) =>
      Removed(s, s.slaves[s.phase.i], close).(slaves := Without(s.slaves, s.phase.i))
    case PurgeEnd => s.(phase := Starting)
    case StartGc(start) =>
      if s.gc.Some? && !s.gc.value.done then s.(phase := Fixing)
      else if start then
        s.(phase := Fixing,
           gc := Some(Gc(Merge(s.slaves, s.newcomers), s.newcomers, false)),
           newcomers := [],
           started := s.started + (set x | x in s.newcomers))
      else s.(phase := Fixing, gc := None)
    case Fix(idle, closing) =>
      if !GcReadyForReactor(s) then s.(phase := Poll)
      else
        var flags := FirstFlags(idle);
        var t := s.(
          res := map id | id in s.res :: if id in closing then s.res[id].(closed := true) else s.res[id],
          closings := Bump(s.closings, closing),
          saved := s.garbage,
          garbage := []);
        if All(flags) then t.(phase := Destroying(false))
        else t.(phase := Poll, requests := [Request(flags, Reclaim)])
    case Destroy =>
      var id := s.saved[0];
      s.(res := s.res - {id},
         saved := s.saved[1..],
         closings := if s.res[id].closed then s.closings else Bump(s.closings, {id}))
    case DestroyEnd => s.(phase := if s.phase.inCheck then Purging(0) else Poll)
    case EndJob(w) =>
      var id := s.jobs[w].sock;
      s.(res := s.res[id := s.res[id].(busy := false)], jobs := s.jobs[w := Done(id)])
    case GoIdle(w) => s.(jobs := s.jobs[w := Idle])
    case TakeLock(a, id) => SetUse(s, a, Checking(id))
    case CheckValid(a) =>
      var id := s.uses[a].id;
      SetUse(s, a, if s.res[id].valid then Body(id) else Out)
    case BodyOk(a) => SetUse(s, a, Out)
    case BodyFail(a) =>
      var id := s.uses[a].id;
      if s.res[id].valid then
        SetUse(s.(res := s.res[id := s.res[id].(valid := false)]), a, Closing(id))
      else SetUse(s, a, Leaving(id))
    case RequestRemoval(a) =>
      var id := s.uses[a].id;
      SetUse(s.(drops := s.drops + [s.res[id].fd]), a, Leaving(id))
    case Leave(a) => SetUse(s, a, Out)
    case GcFinish => s.(gc := Some(s.gc.value.(done := true)))
  }

  function Accepted(s: State, kind: Kind, fd: Fd): State {
    s.(res := s.res[s.next := Res(kind, fd, true, false, false, [])],
       table := s.table[fd := s.next],
       next := s.next + 1,
       removals := s.removals[s.next := 0],
       closings := s.closings[s.next := 0])
  }

  function Init(workers: nat): State {
    State(map[], map[], [], [], [],
          seq(workers, _ => Idle), seq(workers + 1, _ => Out), None,
          [], [], [], Poll, 0, {}, map[], map[])
  }
}
