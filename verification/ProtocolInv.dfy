/** What every step of the protocol keeps. */
module ProtocolInv {
  import opened Seqs
  import opened Sync
  import opened Protocol

  ghost predicate Shape(jobs: seq<Job>, uses: seq<Use>, requests: seq<Request<What>>) {
    |jobs| <= MAX_WORKERS && |uses| == |jobs| + 1 && WellFormed(requests)
  }

  predicate Listed(res: map<Id, Res>, table: map<Fd, Id>, id: Id) {
    id in res && res[id].fd in table && table[res[id].fd] == id
  }

  predicate Live(res: map<Id, Res>, id: Id) {
    id in res && res[id].valid
  }

  /** A resource is in the table, in the garbage or saved for destruction, and in one of them only. */
  ghost predicate Tabled(res: map<Id, Res>, table: map<Fd, Id>, garbage: seq<Id>, saved: seq<Id>, next: nat) {
    && (forall fd :: fd in table ==>
          table[fd] in res && res[table[fd]].fd == fd && !res[table[fd]].closed)
    && (forall id :: id in res ==> Listed(res, table, id) || id in garbage || id in saved)
    && (forall id :: id in garbage || id in saved ==>
          id in res && !Listed(res, table, id) && !res[id].valid)
    && (forall id :: id in garbage ==> id !in saved)
    && NoDup(garbage) && NoDup(saved)
    && (forall id :: id in res ==> id < next)
  }

  /** Open descriptors have distinct numbers, and only invalid resources are closed. */
  ghost predicate Opened(res: map<Id, Res>) {
    && (forall id :: id in res && res[id].closed ==> !res[id].valid)
    && (forall x, y :: x in res && y in res && x != y && !res[x].closed && !res[y].closed ==>
          res[x].fd != res[y].fd)
  }

  /** Each resource left the table once at most, and was closed once at most. */
  ghost predicate Counted(res: map<Id, Res>, table: map<Fd, Id>, next: nat,
                          removals: map<Id, nat>, closings: map<Id, nat>) {
    && removals.Keys == closings.Keys
    && (forall id: nat :: id in removals <==> id < next)
    && (forall id :: id in removals ==> removals[id] == if Listed(res, table, id) then 0 else 1)
    && (forall id :: id in closings ==> closings[id] == if id in res && !res[id].closed then 0 else 1)
  }

  /** A removal is requested, or about to be, exactly for the invalid resources of the table. */
  ghost predicate Dropping(res: map<Id, Res>, table: map<Fd, Id>, drops: seq<Fd>, uses: seq<Use>) {
    && NoDup(drops)
    && (forall fd :: fd in drops ==> fd in table && !Live(res, table[fd]))
    && (forall a :: 0 <= a < |uses| && uses[a].Closing? ==>
          Listed(res, table, uses[a].id) && !Live(res, uses[a].id) && res[uses[a].id].fd !in drops)
    && (forall a, b :: 0 <= a < b < |uses| && uses[a].Closing? && uses[b].Closing? ==>
          uses[a].id != uses[b].id)
    && (forall id :: Listed(res, table, id) && !Live(res, id) ==>
          res[id].fd in drops || exists a :: 0 <= a < |uses| && uses[a] == Closing(id))
  }

  predicate Reaches(res: map<Id, Res>, jobs: seq<Job>, gc: Option<Gc>, a: nat, id: Id) {
    if a < |jobs| then !jobs[a].Done? && JobRefers(res, jobs[a], id)
    else GcRefers(gc, id) && !gc.value.done
  }

  /** A thread inside `with_fd` refers to the resource, and past the check it is open. */
  ghost predicate Using(res: map<Id, Res>, jobs: seq<Job>, uses: seq<Use>, gc: Option<Gc>) {
    && (forall a :: 0 <= a < |uses| && uses[a] != Out ==> Reaches(res, jobs, gc, a, uses[a].id))
    && (forall a :: 0 <= a < |uses| && uses[a] != Out && !uses[a].Checking? ==>
          uses[a].id in res ==> !res[uses[a].id].closed)
  }

  ghost predicate Working(res: map<Id, Res>, jobs: seq<Job>) {
    && (forall w :: 0 <= w < |jobs| && jobs[w].Recv? && jobs[w].sock in res ==>
          res[jobs[w].sock].kind.Client? && res[jobs[w].sock].busy)
    && (forall v, w :: 0 <= v < w < |jobs| && jobs[v].Recv? && jobs[w].Recv? ==>
          jobs[v].sock != jobs[w].sock)
  }

  predicate IsSlave(res: map<Id, Res>, id: Id) {
    id in res && res[id].kind.Slave?
  }

  /** No dangling reference: whatever a thread or a list can reach has not been destructed. */
  ghost predicate Alive(res: map<Id, Res>, jobs: seq<Job>, gc: Option<Gc>,
                        slaves: seq<Id>, newcomers: seq<Id>, requests: seq<Request<What>>) {
    && (forall w, id :: 0 <= w < |jobs| && JobRefers(res, jobs[w], id) ==> id in res)
    && (forall id :: GcRefers(gc, id) ==> IsSlave(res, id))
    && (forall id :: id in slaves || id in newcomers ==> IsSlave(res, id))
    && (forall q :: q in requests && q.what.Admit? ==> IsSlave(res, q.what.slave))
  }

  /** Worker `w` was seen idle since the request was made. */
  predicate Seen(q: Request<What>, w: nat) {
    w < |q.flags| ==> q.flags[w]
  }

  /** Job `j`, if it can mutate objects, replicates to `x`. */
  predicate Covers(res: map<Id, Res>, j: Job, x: Id) {
    j.Recv? ==> x in List(res, j.sock)
  }

  /** The slave-list half of safe join. */
  ghost predicate Joining(res: map<Id, Res>, jobs: seq<Job>, slaves: seq<Id>, newcomers: seq<Id>,
                          requests: seq<Request<What>>, started: set<Id>) {
    && NoDup(slaves)
    && (forall x :: IsSlave(res, x) && res[x].valid ==> x in slaves)
    && (forall q, w :: q in requests && q.what.Admit? && 0 <= w < |jobs| && Seen(q, w) ==>
          Live(res, q.what.slave) ==> Covers(res, jobs[w], q.what.slave))
    && (forall x, w :: (x in newcomers || x in started) && Live(res, x) && 0 <= w < |jobs| ==>
          Covers(res, jobs[w], x))
  }

  ghost predicate Scanning(res: map<Id, Res>, gc: Option<Gc>, started: set<Id>, next: nat) {
    && (forall x :: x in started && Live(res, x) && gc.Some? ==> x in gc.value.slaves)
    && (forall x :: gc.Some? && x in gc.value.newcomers ==> x in started)
    && (forall x :: x in started ==> x < next && (x in res ==> res[x].kind.Slave?))
  }

  ghost predicate JobAvoids(res: map<Id, Res>, j: Job, ids: seq<Id>) {
    forall id :: id in ids ==> !JobRefers(res, j, id)
  }

  /** The saved list is out of reach of every list. */
  ghost predicate Unlisted(gc: Option<Gc>, slaves: seq<Id>, newcomers: seq<Id>,
                           requests: seq<Request<What>>, saved: seq<Id>) {
    && (forall id :: id in saved ==> id !in slaves && id !in newcomers && !GcRefers(gc, id))
    && (forall q :: q in requests && q.what.Admit? ==> q.what.slave !in saved)
  }

  /** The saved list is out of reach of every worker seen idle since it was saved. */
  ghost predicate Reclaiming(res: map<Id, Res>, jobs: seq<Job>,
                             requests: seq<Request<What>>, saved: seq<Id>, destroying: bool) {
    && (saved != [] && !destroying ==> exists q :: q in requests && q.what.Reclaim?)
    && (destroying ==> forall w :: 0 <= w < |jobs| ==> JobAvoids(res, jobs[w], saved))
    && (forall q, w :: q in requests && q.what.Reclaim? && 0 <= w < |jobs| && Seen(q, w) ==>
          JobAvoids(res, jobs[w], saved))
  }

  /** Behind the purge loop, no slave of the list is garbage. */
  ghost predicate Purged(slaves: seq<Id>, garbage: seq<Id>, phase: Phase) {
    && (phase.Purging? ==>
          forall j :: 0 <= j < phase.i && j < |slaves| ==> slaves[j] !in garbage)
    && (phase.Starting? || phase.Fixing? ==> forall x :: x in slaves ==> x !in garbage)
  }

  ghost predicate Inv(s: State) {
    && Shape(s.jobs, s.uses, s.requests)
    && Tabled(s.res, s.table, s.garbage, s.saved, s.next)
    && Opened(s.res)
    && Counted(s.res, s.table, s.next, s.removals, s.closings)
    && Dropping(s.res, s.table, s.drops, s.uses)
    && Using(s.res, s.jobs, s.uses, s.gc)
    && Working(s.res, s.jobs)
    && Alive(s.res, s.jobs, s.gc, s.slaves, s.newcomers, s.requests)
    && Joining(s.res, s.jobs, s.slaves, s.newcomers, s.requests, s.started)
    && Scanning(s.res, s.gc, s.started, s.next)
    && Unlisted(s.gc, s.slaves, s.newcomers, s.requests, s.saved)
    && Reclaiming(s.res, s.jobs, s.requests, s.saved, s.phase.Destroying?)
    && Purged(s.slaves, s.garbage, s.phase)
  }

  lemma InitInv(workers: nat)
    requires workers <= MAX_WORKERS
    ensures Inv(Init(workers))
  {}

  ghost predicate Ok(s: State, st: Step) {
    Inv(s) && Guard(s, st) && !Faults(s, st)
  }

  // ---------------------------------------------------------------- accepting a connection

  ghost predicate Grown(s: State, res: map<Id, Res>, r: Res) {
    && s.next !in s.res && res == s.res[s.next := r]
    && r.valid && !r.closed && r.list == [] && FdFree(s, r.fd)
  }

  lemma GrowTable(s: State, res: map<Id, Res>, r: Res)
    requires Tabled(s.res, s.table, s.garbage, s.saved, s.next) && Opened(s.res) && Grown(s, res, r)
    ensures Tabled(res, s.table[r.fd := s.next], s.garbage, s.saved, s.next + 1)
    ensures Opened(res)
  {}

  lemma GrowCounts(s: State, res: map<Id, Res>, r: Res)
    requires Tabled(s.res, s.table, s.garbage, s.saved, s.next) && Grown(s, res, r)
    requires Counted(s.res, s.table, s.next, s.removals, s.closings)
    ensures Counted(res, s.table[r.fd := s.next], s.next + 1, s.removals[s.next := 0], s.closings[s.next := 0])
  {}

  lemma GrowUses(s: State, res: map<Id, Res>, r: Res)
    requires Tabled(s.res, s.table, s.garbage, s.saved, s.next) && Grown(s, res, r)
    requires Dropping(s.res, s.table, s.drops, s.uses)
    requires Using(s.res, s.jobs, s.uses, s.gc)
    requires Alive(s.res, s.jobs, s.gc, s.slaves, s.newcomers, s.requests)
    ensures Dropping(res, s.table[r.fd := s.next], s.drops, s.uses)
    ensures Using(res, s.jobs, s.uses, s.gc)
  {
    GrowDrops(s, res, r);
    hide Dropping, Tabled;
  }

  lemma GrowDrops(s: State, res: map<Id, Res>, r: Res)
    requires Tabled(s.res, s.table, s.garbage, s.saved, s.next) && Grown(s, res, r)
    requires Dropping(s.res, s.table, s.drops, s.uses) && Using(s.res, s.jobs, s.uses, s.gc)
    ensures Dropping(res, s.table[r.fd := s.next], s.drops, s.uses)
  {
    var table := s.table[r.fd := s.next];
    assert forall id :: id in s.res ==> (Listed(s.res, s.table, id) <==> Listed(res, table, id));
  }

  lemma GrowJobs(s: State, res: map<Id, Res>, r: Res)
    requires Working(s.res, s.jobs) && Grown(s, res, r)
    requires Alive(s.res, s.jobs, s.gc, s.slaves, s.newcomers, s.requests)
    requires Reclaiming(s.res, s.jobs, s.requests, s.saved, s.phase.Destroying?)
    requires Scanning(s.res, s.gc, s.started, s.next)
    ensures Working(res, s.jobs)
    ensures Alive(res, s.jobs, s.gc, s.slaves, s.newcomers, s.requests)
    ensures Reclaiming(res, s.jobs, s.requests, s.saved, s.phase.Destroying?)
    ensures Scanning(res, s.gc, s.started, s.next + 1)
  {}

  lemma GrowClient(s: State, res: map<Id, Res>, r: Res)
    requires Grown(s, res, r) && r.kind.Client?
    requires Alive(s.res, s.jobs, s.gc, s.slaves, s.newcomers, s.requests)
    requires Joining(s.res, s.jobs, s.slaves, s.newcomers, s.requests, s.started)
    requires Scanning(s.res, s.gc, s.started, s.next)
    ensures Joining(res, s.jobs, s.slaves, s.newcomers, s.requests, s.started)
  {}

  lemma FreshId(s: State)
    requires Tabled(s.res, s.table, s.garbage, s.saved, s.next)
    requires Alive(s.res, s.jobs, s.gc, s.slaves, s.newcomers, s.requests)
    ensures s.next !in s.res && s.next !in s.saved && s.next !in s.newcomers
  {}

  lemma AcceptClientKeeps(s: State, fd: Fd)
    requires Ok(s, AcceptClient(fd))
    ensures Inv(Do(s, AcceptClient(fd)))
  {
    hide Tabled, Opened, Counted, Dropping, Using, Working, Alive, Joining, Scanning, Unlisted, Reclaiming, Purged;
    var r := Res(Client, fd, true, false, false, []);
    var res := s.res[s.next := r];
    FreshId(s);
    GrowTable(s, res, r);
    GrowCounts(s, res, r);
    GrowUses(s, res, r);
    GrowJobs(s, res, r);
    GrowClient(s, res, r);
  }

  ghost predicate OnlyIdleSeen(jobs: seq<Job>, q: Request<What>) {
    forall w :: 0 <= w < |jobs| && Seen(q, w) ==> jobs[w].Idle?
  }

  lemma FirstSeen(s: State, idle: seq<bool>, what: What)
    requires |s.jobs| <= MAX_WORKERS && Observed(s, idle)
    ensures OnlyIdleSeen(s.jobs, Request(FirstFlags(idle), what))
    ensures All(FirstFlags(idle)) ==> forall w :: 0 <= w < |s.jobs| ==> s.jobs[w].Idle?
  {
    var flags := FirstFlags(idle);
    if All(flags) {
      forall w | 0 <= w < |s.jobs|
        ensures s.jobs[w].Idle?
      {
        assert flags[w];
      }
    }
  }

  /** The new slave's request has seen idle only workers that are idle now. */
  lemma GrowSlave(s: State, res: map<Id, Res>, r: Res, newcomers: seq<Id>, requests: seq<Request<What>>)
    requires Grown(s, res, r) && r.kind.Slave?
    requires Alive(s.res, s.jobs, s.gc, s.slaves, s.newcomers, s.requests)
    requires Joining(s.res, s.jobs, s.slaves, s.newcomers, s.requests, s.started)
    requires Scanning(s.res, s.gc, s.started, s.next)
    requires forall x :: x in newcomers ==> x in s.newcomers || x == s.next
    requires s.next in newcomers ==> forall w :: 0 <= w < |s.jobs| ==> s.jobs[w].Idle?
    requires forall q :: q in requests ==>
               q in s.requests || (q.what == Admit(s.next) && OnlyIdleSeen(s.jobs, q))
    ensures Joining(res, s.jobs, s.slaves + [s.next], newcomers, requests, s.started)
    ensures Alive(res, s.jobs, s.gc, s.slaves + [s.next], newcomers, requests)
  {
    assert s.next !in s.slaves;
  }

  lemma GrowReclaim(s: State, res: map<Id, Res>, newcomers: seq<Id>, requests: seq<Request<What>>)
    requires Reclaiming(res, s.jobs, s.requests, s.saved, s.phase.Destroying?)
    requires Unlisted(s.gc, s.slaves, s.newcomers, s.requests, s.saved) && s.next !in s.saved
    requires forall x :: x in newcomers ==> x in s.newcomers || x == s.next
    requires forall q :: q in s.requests ==> q in requests
    requires forall q :: q in requests ==> q in s.requests || q.what == Admit(s.next)
    ensures Reclaiming(res, s.jobs, requests, s.saved, s.phase.Destroying?)
    ensures Unlisted(s.gc, s.slaves + [s.next], newcomers, requests, s.saved)
  {}

  lemma PollPurged(s: State, slaves: seq<Id>)
    requires s.phase.Poll?
    ensures Purged(slaves, s.garbage, s.phase)
  {}

  lemma AcceptSlaveKeeps(s: State, fd: Fd, idle: seq<bool>)
    requires Ok(s, AcceptSlave(fd, idle))
    ensures Inv(Do(s, AcceptSlave(fd, idle)))
  {
    hide Tabled, Opened, Counted, Dropping, Using, Working, Alive, Joining, Scanning, Unlisted, Reclaiming, Purged;
    var r := Res(Slave, fd, true, false, false, []);
    var res := s.res[s.next := r];
    var t := Do(s, AcceptSlave(fd, idle));
    FreshId(s);
    GrowTable(s, res, r);
    GrowCounts(s, res, r);
    GrowUses(s, res, r);
    GrowJobs(s, res, r);
    FirstSeen(s, idle, Admit(s.next));
    GrowSlave(s, res, r, t.newcomers, t.requests);
    GrowReclaim(s, res, t.newcomers, t.requests);
    PollPurged(s, t.slaves);
  }

  // ---------------------------------------------------------------- posting and ending jobs

  /** Only a client socket's job fields change. */
  ghost predicate Retasked(res: map<Id, Res>, res': map<Id, Res>) {
    && res'.Keys == res.Keys
    && forall id :: id in res ==>
         && res'[id].kind == res[id].kind && res'[id].fd == res[id].fd
         && res'[id].valid == res[id].valid && res'[id].closed == res[id].closed
  }

  lemma RetaskTable(s: State, res': map<Id, Res>)
    requires Retasked(s.res, res')
    requires Tabled(s.res, s.table, s.garbage, s.saved, s.next) && Opened(s.res)
    requires Counted(s.res, s.table, s.next, s.removals, s.closings)
    ensures Tabled(res', s.table, s.garbage, s.saved, s.next) && Opened(res')
    ensures Counted(res', s.table, s.next, s.removals, s.closings)
  {}

  lemma RetaskDrops(s: State, res': map<Id, Res>)
    requires Retasked(s.res, res') && Dropping(s.res, s.table, s.drops, s.uses)
    ensures Dropping(res', s.table, s.drops, s.uses)
  {
    assert forall id :: Listed(res', s.table, id) && !Live(res', id) ==>
      Listed(s.res, s.table, id) && !Live(s.res, id);
  }

  lemma RejobUses(s: State, w: nat, res': map<Id, Res>, j: Job)
    requires w < |s.jobs| && |s.uses| == |s.jobs| + 1 && s.uses[w].Out? && Retasked(s.res, res')
    requires forall v, x :: 0 <= v < |s.jobs| && v != w && JobRefers(s.res, s.jobs[v], x) ==>
               JobRefers(res', s.jobs[v], x)
    requires Using(s.res, s.jobs, s.uses, s.gc)
    ensures Using(res', s.jobs[w := j], s.uses, s.gc)
  {}

  /** The socket was not busy, so no other receive job reads the list that is overwritten. */
  lemma PostRecvOthers(s: State, w: nat, id: Id, res': map<Id, Res>)
    requires Working(s.res, s.jobs) && id in s.res && !s.res[id].busy
    requires res' == s.res[id := s.res[id].(busy := true, list := s.slaves)]
    ensures forall v :: 0 <= v < |s.jobs| && s.jobs[v].Recv? ==>
              s.jobs[v].sock != id && List(res', s.jobs[v].sock) == List(s.res, s.jobs[v].sock)
    ensures forall v, x :: 0 <= v < |s.jobs| ==>
              (JobRefers(s.res, s.jobs[v], x) <==> JobRefers(res', s.jobs[v], x))
  {}

  lemma PostRecvJobs(s: State, w: nat, id: Id, res': map<Id, Res>)
    requires w < |s.jobs| && id in s.res && s.res[id].kind.Client? && !s.res[id].busy
    requires res' == s.res[id := s.res[id].(busy := true, list := s.slaves)]
    requires Working(s.res, s.jobs)
    requires Alive(s.res, s.jobs, s.gc, s.slaves, s.newcomers, s.requests)
    ensures Working(res', s.jobs[w := Recv(id)])
    ensures Alive(res', s.jobs[w := Recv(id)], s.gc, s.slaves, s.newcomers, s.requests)
  {
    PostRecvOthers(s, w, id, res');
  }

  /** The new job carries the current slave list, which holds every valid slave. */
  lemma PostRecvJoins(s: State, w: nat, id: Id, res': map<Id, Res>)
    requires w < |s.jobs| && id in s.res && s.res[id].kind.Client? && !s.res[id].busy
    requires res' == s.res[id := s.res[id].(busy := true, list := s.slaves)]
    requires Working(s.res, s.jobs)
    requires Alive(s.res, s.jobs, s.gc, s.slaves, s.newcomers, s.requests)
    requires Joining(s.res, s.jobs, s.slaves, s.newcomers, s.requests, s.started)
    requires Scanning(s.res, s.gc, s.started, s.next)
    ensures Joining(res', s.jobs[w := Recv(id)], s.slaves, s.newcomers, s.requests, s.started)
  {
    PostRecvOthers(s, w, id, res');
  }

  lemma PostRecvReclaims(s: State, w: nat, id: Id, res': map<Id, Res>)
    requires w < |s.jobs| && id in s.res && !s.res[id].busy && id !in s.saved && s.phase.Poll?
    requires res' == s.res[id := s.res[id].(busy := true, list := s.slaves)]
    requires Working(s.res, s.jobs)
    requires Unlisted(s.gc, s.slaves, s.newcomers, s.requests, s.saved)
    requires Reclaiming(s.res, s.jobs, s.requests, s.saved, false)
    ensures Reclaiming(res', s.jobs[w := Recv(id)], s.requests, s.saved, false)
  {
    PostRecvOthers(s, w, id, res');
  }

  lemma RetaskScan(s: State, res': map<Id, Res>)
    requires Retasked(s.res, res') && Scanning(s.res, s.gc, s.started, s.next)
    ensures Scanning(res', s.gc, s.started, s.next)
  {}

  lemma TableNotSaved(s: State, id: Id)
    requires Tabled(s.res, s.table, s.garbage, s.saved, s.next) && InTable(s, id)
    ensures id !in s.saved
  {}

  /** An idle worker is outside `with_fd`. */
  lemma IdleOut(s: State, w: nat)
    requires w < |s.jobs| < |s.uses| && (s.jobs[w].Idle? || s.jobs[w].Done?)
    requires Using(s.res, s.jobs, s.uses, s.gc)
    ensures s.uses[w].Out?
  {}

  lemma PostRecvKeeps(s: State, w: nat, id: Id)
    requires Ok(s, PostRecv(w, id))
    ensures Inv(Do(s, PostRecv(w, id)))
  {
    hide Tabled, Opened, Counted, Dropping, Using, Working, Alive, Joining, Scanning, Unlisted, Reclaiming, Purged;
    var res' := s.res[id := s.res[id].(busy := true, list := s.slaves)];
    RetaskTable(s, res');
    RetaskDrops(s, res');
    RetaskScan(s, res');
    TableNotSaved(s, id);
    IdleOut(s, w);
    PostRecvOthers(s, w, id, res');
    RejobUses(s, w, res', Recv(id));
    PostRecvJobs(s, w, id, res');
    PostRecvJoins(s, w, id, res');
    PostRecvReclaims(s, w, id, res');
  }

  /** A job that can reach the socket `id` only, and no slave list. */
  lemma PlainJob(s: State, w: nat, j: Job)
    requires w < |s.jobs| && !j.Recv? && (!j.Idle? ==> j.sock in s.res && j.sock !in s.saved)
    requires Working(s.res, s.jobs)
    requires Alive(s.res, s.jobs, s.gc, s.slaves, s.newcomers, s.requests)
    requires Joining(s.res, s.jobs, s.slaves, s.newcomers, s.requests, s.started)
    requires Reclaiming(s.res, s.jobs, s.requests, s.saved, s.phase.Destroying?)
    ensures Working(s.res, s.jobs[w := j])
    ensures Alive(s.res, s.jobs[w := j], s.gc, s.slaves, s.newcomers, s.requests)
    ensures Joining(s.res, s.jobs[w := j], s.slaves, s.newcomers, s.requests, s.started)
    ensures Reclaiming(s.res, s.jobs[w := j], s.requests, s.saved, s.phase.Destroying?)
  {}

  lemma PostSendKeeps(s: State, w: nat, id: Id)
    requires Ok(s, PostSend(w, id))
    ensures Inv(Do(s, PostSend(w, id)))
  {
    hide Tabled, Opened, Counted, Dropping, Using, Working, Alive, Joining, Scanning, Unlisted, Reclaiming, Purged;
    TableNotSaved(s, id);
    IdleOut(s, w);
    RejobUses(s, w, s.res, Send(id));
    PlainJob(s, w, Send(id));
  }

  lemma GoIdleKeeps(s: State, w: nat)
    requires Ok(s, GoIdle(w))
    ensures Inv(Do(s, GoIdle(w)))
  {
    hide Tabled, Opened, Counted, Dropping, Using, Working, Alive, Joining, Scanning, Unlisted, Reclaiming, Purged;
    RejobUses(s, w, s.res, Idle);
    PlainJob(s, w, Idle);
  }

  /** No other job reads the busy flag or the list of the socket whose job ends. */
  lemma EndJobJobs(s: State, w: nat, id: Id, res': map<Id, Res>)
    requires w < |s.jobs| && s.jobs[w] == Recv(id) && id in s.res
    requires res' == s.res[id := s.res[id].(busy := false)]
    requires Working(s.res, s.jobs)
    requires Alive(s.res, s.jobs, s.gc, s.slaves, s.newcomers, s.requests)
    ensures Working(res', s.jobs[w := Done(id)])
    ensures Alive(res', s.jobs[w := Done(id)], s.gc, s.slaves, s.newcomers, s.requests)
  {}

  lemma EndJobLists(s: State, w: nat, id: Id, res': map<Id, Res>)
    requires w < |s.jobs| && s.jobs[w] == Recv(id) && id in s.res
    requires res' == s.res[id := s.res[id].(busy := false)]
    requires Joining(s.res, s.jobs, s.slaves, s.newcomers, s.requests, s.started)
    requires Reclaiming(s.res, s.jobs, s.requests, s.saved, s.phase.Destroying?)
    ensures Joining(res', s.jobs[w := Done(id)], s.slaves, s.newcomers, s.requests, s.started)
    ensures Reclaiming(res', s.jobs[w := Done(id)], s.requests, s.saved, s.phase.Destroying?)
  {}

  lemma EndJobKeeps(s: State, w: nat)
    requires Ok(s, EndJob(w))
    ensures Inv(Do(s, EndJob(w)))
  {
    hide Tabled, Opened, Counted, Dropping, Using, Working, Alive, Joining, Scanning, Unlisted, Reclaiming, Purged;
    var id := s.jobs[w].sock;
    var res' := s.res[id := s.res[id].(busy := false)];
    RetaskTable(s, res');
    RetaskDrops(s, res');
    RetaskScan(s, res');
    RejobUses(s, w, res', Done(id));
    EndJobJobs(s, w, id, res');
    EndJobLists(s, w, id, res');
  }

  // ---------------------------------------------------------------- with_fd

  lemma UseDrops(s: State, a: nat, u: Use)
    requires a < |s.uses| && !s.uses[a].Closing? && !u.Closing?
    requires Dropping(s.res, s.table, s.drops, s.uses)
    ensures Dropping(s.res, s.table, s.drops, s.uses[a := u])
  {
    var uses := s.uses[a := u];
    forall id | Listed(s.res, s.table, id) && !Live(s.res, id) && s.res[id].fd !in s.drops
      ensures exists b :: 0 <= b < |uses| && uses[b] == Closing(id)
    {
      var b :| 0 <= b < |s.uses| && s.uses[b] == Closing(id);
      assert uses[b] == Closing(id);
    }
  }

  lemma UseUses(s: State, a: nat, u: Use)
    requires a < |s.uses|
    requires u != Out ==> Reaches(s.res, s.jobs, s.gc, a, u.id)
    requires u != Out && !u.Checking? ==> u.id in s.res ==> !s.res[u.id].closed
    requires Using(s.res, s.jobs, s.uses, s.gc)
    ensures Using(s.res, s.jobs, s.uses[a := u], s.gc)
  {}

  /** Where a thread inside `with_fd` stands. */
  lemma InUse(s: State, a: nat)
    requires a < |s.uses| && s.uses[a] != Out
    requires Using(s.res, s.jobs, s.uses, s.gc) && Opened(s.res)
    ensures Reaches(s.res, s.jobs, s.gc, a, s.uses[a].id)
    ensures !s.uses[a].Checking? && s.uses[a].id in s.res ==> !s.res[s.uses[a].id].closed
    ensures Live(s.res, s.uses[a].id) ==> !s.res[s.uses[a].id].closed
  {}

  lemma TakeLockKeeps(s: State, a: nat, id: Id)
    requires Ok(s, TakeLock(a, id))
    ensures Inv(Do(s, TakeLock(a, id)))
  {
    hide Tabled, Opened, Counted, Dropping, Using, Working, Alive, Joining, Scanning, Unlisted, Reclaiming, Purged;
    UseDrops(s, a, Checking(id));
    UseUses(s, a, Checking(id));
  }

  lemma CheckValidKeeps(s: State, a: nat)
    requires Ok(s, CheckValid(a))
    ensures Inv(Do(s, CheckValid(a)))
  {
    hide Tabled, Opened, Counted, Dropping, Using, Working, Alive, Joining, Scanning, Unlisted, Reclaiming, Purged;
    var id := s.uses[a].id;
    var u := if s.res[id].valid then Body(id) else Out;
    InUse(s, a);
    UseDrops(s, a, u);
    UseUses(s, a, u);
  }

  lemma BodyOkKeeps(s: State, a: nat)
    requires Ok(s, BodyOk(a))
    ensures Inv(Do(s, BodyOk(a)))
  {
    hide Tabled, Opened, Counted, Dropping, Using, Working, Alive, Joining, Scanning, Unlisted, Reclaiming, Purged;
    UseDrops(s, a, Out);
    UseUses(s, a, Out);
  }

  lemma LeaveKeeps(s: State, a: nat)
    requires Ok(s, Leave(a))
    ensures Inv(Do(s, Leave(a)))
  {
    hide Tabled, Opened, Counted, Dropping, Using, Working, Alive, Joining, Scanning, Unlisted, Reclaiming, Purged;
    UseDrops(s, a, Out);
    UseUses(s, a, Out);
  }

  /** Resources lose validity or openness and change nothing else. */
  ghost predicate Weaker(res: map<Id, Res>, res': map<Id, Res>) {
    && res'.Keys == res.Keys
    && forall id :: id in res ==>
         && res'[id].kind == res[id].kind && res'[id].fd == res[id].fd
         && res'[id].busy == res[id].busy && res'[id].list == res[id].list
         && (res'[id].valid ==> res[id].valid)
  }

  lemma WeakerJobs(s: State, res': map<Id, Res>)
    requires Weaker(s.res, res')
    requires Working(s.res, s.jobs)
    requires Alive(s.res, s.jobs, s.gc, s.slaves, s.newcomers, s.requests)
    requires Reclaiming(s.res, s.jobs, s.requests, s.saved, s.phase.Destroying?)
    ensures Working(res', s.jobs)
    ensures Alive(res', s.jobs, s.gc, s.slaves, s.newcomers, s.requests)
    ensures Reclaiming(res', s.jobs, s.requests, s.saved, s.phase.Destroying?)
  {}

  lemma WeakerLists(s: State, res': map<Id, Res>)
    requires Weaker(s.res, res')
    requires Joining(s.res, s.jobs, s.slaves, s.newcomers, s.requests, s.started)
    requires Scanning(s.res, s.gc, s.started, s.next)
    ensures Joining(res', s.jobs, s.slaves, s.newcomers, s.requests, s.started)
    ensures Scanning(res', s.gc, s.started, s.next)
  {}

  lemma InvalidateTable(s: State, id: Id, res': map<Id, Res>)
    requires Live(s.res, id) && res' == s.res[id := s.res[id].(valid := false)]
    requires Tabled(s.res, s.table, s.garbage, s.saved, s.next)
    requires Opened(s.res) && Counted(s.res, s.table, s.next, s.removals, s.closings)
    ensures Tabled(res', s.table, s.garbage, s.saved, s.next)
    ensures Opened(res') && Counted(res', s.table, s.next, s.removals, s.closings)
    ensures Listed(s.res, s.table, id)
  {
    hide Tabled;
    InvalidateTabled(s, id, res');
  }

  lemma InvalidateTabled(s: State, id: Id, res': map<Id, Res>)
    requires Live(s.res, id) && res' == s.res[id := s.res[id].(valid := false)]
    requires Tabled(s.res, s.table, s.garbage, s.saved, s.next)
    ensures Tabled(res', s.table, s.garbage, s.saved, s.next) && Listed(s.res, s.table, id)
  {}

  /** The winner of the exchange owes the removal request, and is the only one that does. */
  lemma InvalidateDrops(s: State, a: nat, id: Id, res': map<Id, Res>)
    requires a < |s.uses| && s.uses[a] == Body(id)
    requires Live(s.res, id) && Listed(s.res, s.table, id)
    requires res' == s.res[id := s.res[id].(valid := false)]
    requires Dropping(s.res, s.table, s.drops, s.uses)
    ensures Dropping(res', s.table, s.drops, s.uses[a := Closing(id)])
  {
    var uses := s.uses[a := Closing(id)];
    assert uses[a] == Closing(id);
    forall x | x != id && Listed(s.res, s.table, x) && !Live(s.res, x) && s.res[x].fd !in s.drops
      ensures exists b :: 0 <= b < |uses| && uses[b] == Closing(x)
    {
      var b :| 0 <= b < |s.uses| && s.uses[b] == Closing(x);
      assert uses[b] == Closing(x);
    }
  }

  lemma InvalidateUses(s: State, a: nat, id: Id, res': map<Id, Res>)
    requires a < |s.uses| && s.uses[a] == Body(id) && Live(s.res, id)
    requires res' == s.res[id := s.res[id].(valid := false)]
    requires Using(s.res, s.jobs, s.uses, s.gc)
    ensures Using(res', s.jobs, s.uses[a := Closing(id)], s.gc)
  {}

  lemma BodyFailKeeps(s: State, a: nat)
    requires Ok(s, BodyFail(a))
    ensures Inv(Do(s, BodyFail(a)))
  {
    hide Tabled, Opened, Counted, Dropping, Using, Working, Alive, Joining, Scanning, Unlisted, Reclaiming, Purged;
    var id := s.uses[a].id;
    if s.res[id].valid {
      var res' := s.res[id := s.res[id].(valid := false)];
      InvalidateTable(s, id, res');
      InvalidateDrops(s, a, id, res');
      InvalidateUses(s, a, id, res');
      WeakerJobs(s, res');
      WeakerLists(s, res');
    } else {
      InUse(s, a);
      UseDrops(s, a, Leaving(id));
      UseUses(s, a, Leaving(id));
    }
  }

  lemma RequestDrops(s: State, a: nat, id: Id)
    requires a < |s.uses| && s.uses[a] == Closing(id)
    requires Dropping(s.res, s.table, s.drops, s.uses)
    ensures id in s.res && Dropping(s.res, s.table, s.drops + [s.res[id].fd], s.uses[a := Leaving(id)])
  {
    var uses := s.uses[a := Leaving(id)];
    forall x | x != id && Listed(s.res, s.table, x) && !Live(s.res, x) && s.res[x].fd !in s.drops
      ensures exists b :: 0 <= b < |uses| && uses[b] == Closing(x)
    {
      var b :| 0 <= b < |s.uses| && s.uses[b] == Closing(x);
      assert uses[b] == Closing(x);
    }
  }

  lemma RequestRemovalKeeps(s: State, a: nat)
    requires Ok(s, RequestRemoval(a))
    ensures Inv(Do(s, RequestRemoval(a)))
  {
    hide Tabled, Opened, Counted, Dropping, Using, Working, Alive, Joining, Scanning, Unlisted, Reclaiming, Purged;
    var id := s.uses[a].id;
    InUse(s, a);
    RequestDrops(s, a, id);
    UseUses(s, a, Leaving(id));
  }

  // ---------------------------------------------------------------- leaving the table

  ghost predicate Dropped(s: State, id: Id, close: bool, res': map<Id, Res>, table': map<Fd, Id>) {
    && InTable(s, id) && (close ==> NoReader(s, id))
    && res' == s.res[id := s.res[id].(valid := false, closed := s.res[id].closed || close)]
    && table' == s.table - {s.res[id].fd}
  }

  lemma OthersStay(s: State, id: Id, close: bool, res': map<Id, Res>, table': map<Fd, Id>)
    requires Dropped(s, id, close, res', table')
    requires Tabled(s.res, s.table, s.garbage, s.saved, s.next)
    ensures forall x :: x in s.res && x != id ==> (Listed(s.res, s.table, x) <==> Listed(res', table', x))
    ensures !Listed(res', table', id) && id !in s.garbage && id !in s.saved
    ensures !s.res[id].closed
  {}

  lemma RemoveTable(s: State, id: Id, close: bool, res': map<Id, Res>, table': map<Fd, Id>)
    requires Dropped(s, id, close, res', table')
    requires Tabled(s.res, s.table, s.garbage, s.saved, s.next)
    ensures Tabled(res', table', s.garbage + [id], s.saved, s.next)
  {
    OthersStay(s, id, close, res', table');
  }

  lemma RemoveOpened(s: State, id: Id, close: bool, res': map<Id, Res>, table': map<Fd, Id>)
    requires Dropped(s, id, close, res', table') && Opened(s.res)
    ensures Opened(res')
  {}

  lemma RemoveCounts(s: State, id: Id, close: bool, res': map<Id, Res>, table': map<Fd, Id>)
    requires Dropped(s, id, close, res', table')
    requires Tabled(s.res, s.table, s.garbage, s.saved, s.next)
    requires Counted(s.res, s.table, s.next, s.removals, s.closings)
    ensures Counted(res', table', s.next, Bump(s.removals, {id}),
                    if close && !s.res[id].closed then Bump(s.closings, {id}) else s.closings)
  {
    OthersStay(s, id, close, res', table');
  }

  lemma RemoveDrops(s: State, id: Id, close: bool, res': map<Id, Res>, table': map<Fd, Id>, drops: seq<Fd>)
    requires Dropped(s, id, close, res', table')
    requires Tabled(s.res, s.table, s.garbage, s.saved, s.next)
    requires Dropping(s.res, s.table, s.drops, s.uses)
    requires NoDup(drops) && forall fd :: fd in drops <==> fd in s.drops && fd != s.res[id].fd
    requires s.res[id].valid || s.res[id].fd in s.drops
    ensures Dropping(res', table', drops, s.uses)
  {
    OthersStay(s, id, close, res', table');
    assert forall x :: Listed(res', table', x) ==> x != id && s.res[x].fd != s.res[id].fd;
    forall x | Listed(res', table', x) && !Live(res', x)
      ensures res'[x].fd in drops || exists a :: 0 <= a < |s.uses| && s.uses[a] == Closing(x)
    {
      assert Listed(s.res, s.table, x) && !Live(s.res, x);
    }
  }

  lemma RemoveUses(s: State, id: Id, close: bool, res': map<Id, Res>, table': map<Fd, Id>)
    requires Dropped(s, id, close, res', table') && Using(s.res, s.jobs, s.uses, s.gc)
    ensures Using(res', s.jobs, s.uses, s.gc)
  {}

  lemma RemoveKeeps(s: State, id: Id, close: bool, drops: seq<Fd>)
    requires Inv(s) && InTable(s, id) && (close ==> NoReader(s, id))
    requires NoDup(drops) && forall fd :: fd in drops <==> fd in s.drops && fd != s.res[id].fd
    requires s.res[id].valid || s.res[id].fd in s.drops
    requires Purged(s.slaves, s.garbage + [id], s.phase)
    ensures Inv(Removed(s, id, close).(drops := drops))
  {
    hide Tabled, Opened, Counted, Dropping, Using, Working, Alive, Joining, Scanning, Unlisted, Reclaiming, Purged;
    var t := Removed(s, id, close);
    RemoveTable(s, id, close, t.res, t.table);
    RemoveOpened(s, id, close, t.res, t.table);
    RemoveCounts(s, id, close, t.res, t.table);
    RemoveDrops(s, id, close, t.res, t.table, drops);
    RemoveUses(s, id, close, t.res, t.table);
    WeakerJobs(s, t.res);
    WeakerLists(s, t.res);
  }

  /** A valid resource has no removal request queued. */
  lemma LiveNotDropped(s: State, id: Id)
    requires Dropping(s.res, s.table, s.drops, s.uses) && InTable(s, id) && s.res[id].valid
    ensures NoDup(s.drops) && s.res[id].fd !in s.drops
  {}

  lemma DropHead(s: State)
    requires Dropping(s.res, s.table, s.drops, s.uses) && s.drops != []
    ensures NoDup(s.drops[1..])
    ensures forall fd :: fd in s.drops[1..] <==> fd in s.drops && fd != s.drops[0]
  {
    assert s.drops == [s.drops[0]] + s.drops[1..];
  }

  lemma ReactorRemoveKeeps(s: State, id: Id, close: bool)
    requires Ok(s, ReactorRemove(id, close))
    ensures Inv(Do(s, ReactorRemove(id, close)))
  {
    hide Tabled, Opened, Counted, Dropping, Using, Working, Alive, Joining, Scanning, Unlisted, Reclaiming, Purged;
    var t := Removed(s, id, close);
    LiveNotDropped(s, id);
    PollPurged(s.(garbage := t.garbage), s.slaves);
    RemoveKeeps(s, id, close, s.drops);
  }

  lemma ProcessDropKeeps(s: State, close: bool)
    requires Ok(s, ProcessDrop(close))
    ensures Inv(Do(s, ProcessDrop(close)))
  {
    hide Tabled, Opened, Counted, Dropping, Using, Working, Alive, Joining, Scanning, Unlisted, Reclaiming, Purged;
    var id := s.table[s.drops[0]];
    var t := Removed(s, id, close);
    HeadMatches(s);
    DropHead(s);
    PollPurged(s.(garbage := t.garbage), s.slaves);
    RemoveKeeps(s, id, close, s.drops[1..]);
  }

  lemma HeadMatches(s: State)
    requires Tabled(s.res, s.table, s.garbage, s.saved, s.next)
    requires s.drops != [] && s.drops[0] in s.table
    ensures InTable(s, s.table[s.drops[0]]) && s.res[s.table[s.drops[0]]].fd == s.drops[0]
  {}

  // ---------------------------------------------------------------- the purge loop

  /** An invalid slave leaves the list. */
  lemma EraseLists(s: State, i: nat)
    requires i < |s.slaves| && !Live(s.res, s.slaves[i])
    requires Alive(s.res, s.jobs, s.gc, s.slaves, s.newcomers, s.requests)
    requires Joining(s.res, s.jobs, s.slaves, s.newcomers, s.requests, s.started)
    requires Unlisted(s.gc, s.slaves, s.newcomers, s.requests, s.saved)
    ensures Alive(s.res, s.jobs, s.gc, Without(s.slaves, i), s.newcomers, s.requests)
    ensures Joining(s.res, s.jobs, Without(s.slaves, i), s.newcomers, s.requests, s.started)
    ensures Unlisted(s.gc, Without(s.slaves, i), s.newcomers, s.requests, s.saved)
  {
    WithoutNoDup(s.slaves, i);
  }

  lemma ErasePurged(s: State, i: nat)
    requires s.phase == Purging(i) && i < |s.slaves| && Purged(s.slaves, s.garbage, s.phase)
    ensures Purged(Without(s.slaves, i), s.garbage, s.phase)
  {}

  lemma PurgeEraseKeeps(s: State)
    requires Ok(s, PurgeErase)
    ensures Inv(Do(s, PurgeErase))
  {
    hide Tabled, Opened, Counted, Dropping, Using, Working, Alive, Joining, Scanning, Unlisted, Reclaiming, Purged;
    EraseLists(s, s.phase.i);
    ErasePurged(s, s.phase.i);
  }

  lemma TimeoutPurged(s: State, i: nat)
    requires s.phase == Purging(i) && i < |s.slaves| && NoDup(s.slaves)
    requires Purged(s.slaves, s.garbage, s.phase)
    ensures Purged(s.slaves, s.garbage + [s.slaves[i]], s.phase)
  {}

  lemma SlavesDistinct(s: State)
    requires Joining(s.res, s.jobs, s.slaves, s.newcomers, s.requests, s.started)
    ensures NoDup(s.slaves)
  {}

  lemma PurgeTimeoutKeeps(s: State, close: bool)
    requires Ok(s, PurgeTimeout(close))
    ensures Inv(Do(s, PurgeTimeout(close)))
  {
    hide Tabled, Opened, Counted, Dropping, Using, Working, Alive, Joining, Scanning, Unlisted, Reclaiming, Purged;
    var i := s.phase.i;
    var t := Removed(s, s.slaves[i], close);
    SlavesDistinct(s);
    LiveNotDropped(s, s.slaves[i]);
    TimeoutPurged(s, i);
    RemoveKeeps(s, s.slaves[i], close, s.drops);
    EraseLists(t, i);
    ErasePurged(t, i);
  }

  /** A valid slave is not garbage, so the loop may step over it. */
  lemma KeepPurged(s: State, i: nat)
    requires s.phase == Purging(i) && i < |s.slaves| && Live(s.res, s.slaves[i])
    requires Tabled(s.res, s.table, s.garbage, s.saved, s.next)
    requires Purged(s.slaves, s.garbage, s.phase)
    ensures Purged(s.slaves, s.garbage, Purging(i + 1))
  {}

  lemma PurgeKeepKeeps(s: State)
    requires Ok(s, PurgeKeep)
    ensures Inv(Do(s, PurgeKeep))
  {
    hide Tabled, Opened, Counted, Dropping, Using, Working, Alive, Joining, Scanning, Unlisted, Reclaiming, Purged;
    KeepPurged(s, s.phase.i);
  }

  lemma EndPurged(s: State)
    requires s.phase.Purging? && s.phase.i >= |s.slaves| && Purged(s.slaves, s.garbage, s.phase)
    ensures Purged(s.slaves, s.garbage, Starting)
  {}

  lemma PurgeEndKeeps(s: State)
    requires Ok(s, PurgeEnd)
    ensures Inv(Do(s, PurgeEnd))
  {
    hide Tabled, Opened, Counted, Dropping, Using, Working, Alive, Joining, Scanning, Unlisted, Reclaiming, Purged;
    EndPurged(s);
  }

  // ---------------------------------------------------------------- the synchronizer's round

  lemma Unmarked(rs: seq<Request<What>>, idle: seq<bool>, m: Request<What>) returns (q: Request<What>)
    requires WellFormed(rs) && |idle| <= MAX_WORKERS && m in MarkAll(rs, idle)
    ensures q in rs && q.what == m.what && |q.flags| == MAX_WORKERS && m.flags == Mark(q.flags, idle)
  {
    var i :| 0 <= i < |rs| && MarkAll(rs, idle)[i] == m;
    q := rs[i];
  }

  lemma FirstPurged(s: State)
    ensures Purged(s.slaves, s.garbage, Purging(0)) && Purged(s.slaves, s.garbage, Destroying(true))
    ensures Purged(s.slaves, s.garbage, Poll)
  {}

  /** One round: `rs` are the marked requests, `late` the ones kept, `news` the slaves admitted. */
  ghost predicate Round(s: State, idle: seq<bool>, rs: seq<Request<What>>, news: seq<Id>) {
    && |s.jobs| <= MAX_WORKERS && WellFormed(s.requests) && Observed(s, idle)
    && rs == MarkAll(s.requests, idle)
    && forall x :: x in news ==> x in s.newcomers || exists q :: q in rs && All(q.flags) && q.what == Admit(x)
  }

  lemma CheckLists(s: State, idle: seq<bool>, rs: seq<Request<What>>, news: seq<Id>)
    requires Round(s, idle, rs, news)
    requires Alive(s.res, s.jobs, s.gc, s.slaves, s.newcomers, s.requests)
    requires Unlisted(s.gc, s.slaves, s.newcomers, s.requests, s.saved)
    ensures Alive(s.res, s.jobs, s.gc, s.slaves, news, Waiting(rs))
    ensures Unlisted(s.gc, s.slaves, news, Waiting(rs), s.saved)
    ensures WellFormed(Waiting(rs))
  {
    forall m | m in rs && m.what.Admit?
      ensures IsSlave(s.res, m.what.slave) && m.what.slave !in s.saved
    {
      var q := Unmarked(s.requests, idle, m);
    }
    forall m | m in Waiting(rs)
      ensures |m.flags| == MAX_WORKERS
    {
      var q := Unmarked(s.requests, idle, m);
    }
  }

  /** A worker is marked for the first time only when its flag showed it idle. */
  lemma CheckCovers(s: State, idle: seq<bool>, rs: seq<Request<What>>, m: Request<What>, w: nat)
    requires Round(s, idle, rs, s.newcomers)
    requires Joining(s.res, s.jobs, s.slaves, s.newcomers, s.requests, s.started)
    requires m in rs && m.what.Admit? && 0 <= w < |s.jobs| && Seen(m, w) && Live(s.res, m.what.slave)
    ensures Covers(s.res, s.jobs[w], m.what.slave)
  {
    var q := Unmarked(s.requests, idle, m);
    assert Seen(q, w) || s.jobs[w].Idle?;
  }

  lemma CheckJoins(s: State, idle: seq<bool>, rs: seq<Request<What>>, news: seq<Id>)
    requires Round(s, idle, rs, news)
    requires Joining(s.res, s.jobs, s.slaves, s.newcomers, s.requests, s.started)
    ensures Joining(s.res, s.jobs, s.slaves, news, Waiting(rs), s.started)
  {
    forall m, w | m in rs && m.what.Admit? && 0 <= w < |s.jobs| && Seen(m, w) && Live(s.res, m.what.slave)
      ensures Covers(s.res, s.jobs[w], m.what.slave)
    {
      CheckCovers(s, idle, rs, m, w);
    }
    forall x, w | x in news && x !in s.newcomers && Live(s.res, x) && 0 <= w < |s.jobs|
      ensures Covers(s.res, s.jobs[w], x)
    {
      var m :| m in rs && All(m.flags) && m.what == Admit(x);
      assert Seen(m, w);
    }
  }

  lemma CheckAvoids(s: State, idle: seq<bool>, rs: seq<Request<What>>, m: Request<What>, w: nat)
    requires Round(s, idle, rs, s.newcomers)
    requires Reclaiming(s.res, s.jobs, s.requests, s.saved, false)
    requires m in rs && m.what.Reclaim? && 0 <= w < |s.jobs| && Seen(m, w)
    ensures JobAvoids(s.res, s.jobs[w], s.saved)
  {
    var q := Unmarked(s.requests, idle, m);
    assert Seen(q, w) || s.jobs[w].Idle?;
  }

  lemma CheckReclaims(s: State, idle: seq<bool>, rs: seq<Request<What>>)
    requires Round(s, idle, rs, s.newcomers)
    requires Reclaiming(s.res, s.jobs, s.requests, s.saved, false)
    ensures Reclaiming(s.res, s.jobs, Waiting(rs), s.saved, Reclaim in Fired(rs))
  {
    hide JobAvoids, Waiting, Fired, MarkAll;
    forall m, w | m in rs && m.what.Reclaim? && 0 <= w < |s.jobs| && Seen(m, w)
      ensures JobAvoids(s.res, s.jobs[w], s.saved)
    {
      CheckAvoids(s, idle, rs, m, w);
    }
    if Reclaim in Fired(rs) {
      var m :| m in rs && All(m.flags) && m.what == Reclaim;
      assert forall w :: 0 <= w < |s.jobs| ==> Seen(m, w);
    } else if s.saved != [] {
      CheckStillAsked(s, idle, rs);
    }
  }

  lemma CheckStillAsked(s: State, idle: seq<bool>, rs: seq<Request<What>>)
    requires Round(s, idle, rs, s.newcomers) && Reclaim !in Fired(rs)
    requires exists q :: q in s.requests && q.what.Reclaim?
    ensures exists q :: q in Waiting(rs) && q.what.Reclaim?
  {
    hide Waiting, Fired, MarkAll;
    var q :| q in s.requests && q.what.Reclaim?;
    var i :| 0 <= i < |s.requests| && s.requests[i] == q;
    assert rs[i] in rs && rs[i] in Waiting(rs);
  }

  lemma IntervalCheckKeeps(s: State, idle: seq<bool>)
    requires Ok(s, IntervalCheck(idle))
    ensures Inv(Do(s, IntervalCheck(idle)))
  {
    hide Tabled, Opened, Counted, Dropping, Using, Working, Alive, Joining, Scanning, Unlisted, Reclaiming, Purged;
    var rs := MarkAll(s.requests, idle);
    var news := s.newcomers + Admitted(Fired(rs));
    CheckLists(s, idle, rs, news);
    CheckJoins(s, idle, rs, news);
    CheckReclaims(s, idle, rs);
    FirstPurged(s);
  }

  // ---------------------------------------------------------------- starting the GC thread

  lemma GcOut(s: State)
    requires Shape(s.jobs, s.uses, s.requests) && Using(s.res, s.jobs, s.uses, s.gc)
    requires s.gc.None? || s.gc.value.done
    ensures forall gc :: Using(s.res, s.jobs, s.uses, gc)
  {
    assert s.uses[|s.jobs|].Out?;
  }

  lemma StartLists(s: State, gc: Option<Gc>)
    requires gc == Some(Gc(Merge(s.slaves, s.newcomers), s.newcomers, false))
    requires Alive(s.res, s.jobs, s.gc, s.slaves, s.newcomers, s.requests)
    requires Unlisted(s.gc, s.slaves, s.newcomers, s.requests, s.saved)
    ensures Alive(s.res, s.jobs, gc, s.slaves, [], s.requests)
    ensures Unlisted(gc, s.slaves, [], s.requests, s.saved)
  {}

  /** The GC thread starts for slaves that every running job covers. */
  lemma StartJoins(s: State, gc: Option<Gc>, started: set<Id>)
    requires gc == Some(Gc(Merge(s.slaves, s.newcomers), s.newcomers, false))
    requires started == s.started + (set x | x in s.newcomers)
    requires Tabled(s.res, s.table, s.garbage, s.saved, s.next)
    requires Alive(s.res, s.jobs, s.gc, s.slaves, s.newcomers, s.requests)
    requires Joining(s.res, s.jobs, s.slaves, s.newcomers, s.requests, s.started)
    requires Scanning(s.res, s.gc, s.started, s.next)
    ensures Joining(s.res, s.jobs, s.slaves, [], s.requests, started)
    ensures Scanning(s.res, gc, started, s.next)
  {}

  lemma NoGcLists(s: State)
    requires Alive(s.res, s.jobs, s.gc, s.slaves, s.newcomers, s.requests)
    requires Unlisted(s.gc, s.slaves, s.newcomers, s.requests, s.saved)
    requires Scanning(s.res, s.gc, s.started, s.next)
    ensures Alive(s.res, s.jobs, None, s.slaves, s.newcomers, s.requests)
    ensures Unlisted(None, s.slaves, s.newcomers, s.requests, s.saved)
    ensures Scanning(s.res, None, s.started, s.next)
  {}

  lemma StartPurged(s: State)
    requires s.phase.Starting? && Purged(s.slaves, s.garbage, s.phase)
    ensures Purged(s.slaves, s.garbage, Fixing)
  {}

  lemma StartGcKeeps(s: State, start: bool)
    requires Ok(s, StartGc(start))
    ensures Inv(Do(s, StartGc(start)))
  {
    hide Tabled, Opened, Counted, Dropping, Using, Working, Alive, Joining, Scanning, Unlisted, Reclaiming, Purged;
    StartPurged(s);
    if s.gc.None? || s.gc.value.done {
      GcOut(s);
      if start {
        var t := Do(s, StartGc(start));
        StartLists(s, t.gc);
        StartJoins(s, t.gc, t.started);
      } else {
        NoGcLists(s);
      }
    }
  }

  lemma GcFinishLists(s: State, gc: Option<Gc>)
    requires s.gc.Some? && gc == Some(s.gc.value.(done := true))
    requires Alive(s.res, s.jobs, s.gc, s.slaves, s.newcomers, s.requests)
    requires Unlisted(s.gc, s.slaves, s.newcomers, s.requests, s.saved)
    requires Scanning(s.res, s.gc, s.started, s.next)
    ensures Alive(s.res, s.jobs, gc, s.slaves, s.newcomers, s.requests)
    ensures Unlisted(gc, s.slaves, s.newcomers, s.requests, s.saved)
    ensures Scanning(s.res, gc, s.started, s.next)
  {}

  lemma GcFinishUses(s: State, gc: Option<Gc>)
    requires |s.uses| == |s.jobs| + 1 && s.uses[|s.jobs|].Out? && Using(s.res, s.jobs, s.uses, s.gc)
    ensures Using(s.res, s.jobs, s.uses, gc)
  {}

  lemma GcFinishKeeps(s: State)
    requires Ok(s, GcFinish)
    ensures Inv(Do(s, GcFinish))
  {
    hide Tabled, Opened, Counted, Dropping, Using, Working, Alive, Joining, Scanning, Unlisted, Reclaiming, Purged;
    var gc := Some(s.gc.value.(done := true));
    GcFinishLists(s, gc);
    GcFinishUses(s, gc);
  }

  // ---------------------------------------------------------------- saving and destructing

  ghost predicate Fixed(s: State, closing: set<Id>, res': map<Id, Res>) {
    && (forall id :: id in closing ==> id in s.garbage && id in s.res && !s.res[id].closed && NoReader(s, id))
    && res'.Keys == s.res.Keys
    && forall id :: id in s.res ==>
         res'[id] == if id in closing then s.res[id].(closed := true) else s.res[id]
  }

  lemma FixTable(s: State, closing: set<Id>, res': map<Id, Res>)
    requires Fixed(s, closing, res') && s.saved == []
    requires Tabled(s.res, s.table, s.garbage, s.saved, s.next) && Opened(s.res)
    ensures Tabled(res', s.table, [], s.garbage, s.next) && Opened(res')
  {
    assert forall id :: Listed(res', s.table, id) <==> Listed(s.res, s.table, id);
  }

  lemma FixCounts(s: State, closing: set<Id>, res': map<Id, Res>)
    requires Fixed(s, closing, res')
    requires Tabled(s.res, s.table, s.garbage, s.saved, s.next)
    requires Counted(s.res, s.table, s.next, s.removals, s.closings)
    ensures Counted(res', s.table, s.next, s.removals, Bump(s.closings, closing))
  {
    assert forall id :: Listed(res', s.table, id) <==> Listed(s.res, s.table, id);
  }

  lemma FixDrops(s: State, closing: set<Id>, res': map<Id, Res>)
    requires Fixed(s, closing, res')
    requires Dropping(s.res, s.table, s.drops, s.uses)
    ensures Dropping(res', s.table, s.drops, s.uses)
  {
    assert forall id :: Listed(res', s.table, id) <==> Listed(s.res, s.table, id);
    assert forall id :: Live(res', id) <==> Live(s.res, id);
  }

  lemma FixUses(s: State, closing: set<Id>, res': map<Id, Res>)
    requires Fixed(s, closing, res') && Using(s.res, s.jobs, s.uses, s.gc)
    ensures Using(res', s.jobs, s.uses, s.gc)
  {}

  /** What is saved was garbage before the purge, so no list has it. */
  lemma FixUnlisted(s: State, requests: seq<Request<What>>)
    requires s.phase.Fixing? && Purged(s.slaves, s.garbage, s.phase)
    requires s.gc.None? && s.newcomers == [] && forall q :: q in requests ==> q.what.Reclaim?
    ensures Unlisted(s.gc, s.slaves, s.newcomers, requests, s.garbage)
  {}

  /** Before the first look at the workers, only idle ones count as seen. */
  lemma FixReclaims(s: State, res': map<Id, Res>, idle: seq<bool>)
    requires |s.jobs| <= MAX_WORKERS && Observed(s, idle)
    ensures All(FirstFlags(idle)) ==> Reclaiming(res', s.jobs, [], s.garbage, true)
    ensures Reclaiming(res', s.jobs, [Request(FirstFlags(idle), Reclaim)], s.garbage, false)
  {
    FirstSeen(s, idle, Reclaim);
  }

  lemma NoRequests(s: State, res': map<Id, Res>, requests: seq<Request<What>>)
    requires s.requests == [] && forall q :: q in requests ==> q.what.Reclaim?
    requires Alive(res', s.jobs, s.gc, s.slaves, s.newcomers, s.requests)
    requires Joining(res', s.jobs, s.slaves, s.newcomers, s.requests, s.started)
    ensures Alive(res', s.jobs, s.gc, s.slaves, s.newcomers, requests)
    ensures Joining(res', s.jobs, s.slaves, s.newcomers, requests, s.started)
  {}

  lemma PollOrDestroy(slaves: seq<Id>, garbage: seq<Id>, phase: Phase)
    requires phase.Poll? || phase.Destroying?
    ensures Purged(slaves, garbage, phase)
  {}

  lemma FixedRes(s: State, idle: seq<bool>, closing: set<Id>)
    requires |s.jobs| <= MAX_WORKERS && WellFormed(s.requests)
    requires Guard(s, Fix(idle, closing)) && !Faults(s, Fix(idle, closing)) && GcReadyForReactor(s)
    ensures var t := Do(s, Fix(idle, closing)); Fixed(s, closing, t.res) && Weaker(s.res, t.res) && s.saved == []
  {
    hide All, FirstFlags, Bump;
  }

  lemma FixKeeps(s: State, idle: seq<bool>, closing: set<Id>)
    requires Ok(s, Fix(idle, closing))
    ensures Inv(Do(s, Fix(idle, closing)))
  {
    hide Tabled, Opened, Counted, Dropping, Using, Working, Alive, Joining, Scanning, Unlisted, Reclaiming, Purged, All,
         FirstFlags, Bump, NoReader, Observed, Fixed, Weaker;
    var t := Do(s, Fix(idle, closing));
    PollOrDestroy(t.slaves, t.garbage, t.phase);
    if GcReadyForReactor(s) {
      FixedRes(s, idle, closing);
      FixTable(s, closing, t.res);
      FixCounts(s, closing, t.res);
      FixDrops(s, closing, t.res);
      FixUses(s, closing, t.res);
      WeakerJobs(s, t.res);
      WeakerLists(s, t.res);
      NoRequests(s, t.res, t.requests);
      FixUnlisted(s, t.requests);
      FixReclaims(s, t.res, idle);
    }
  }

  ghost predicate Gone(s: State, res': map<Id, Res>) {
    s.saved != [] && res' == s.res - {s.saved[0]}
  }

  lemma GoneTable(s: State, res': map<Id, Res>)
    requires Gone(s, res') && Tabled(s.res, s.table, s.garbage, s.saved, s.next) && Opened(s.res)
    ensures Tabled(res', s.table, s.garbage, s.saved[1..], s.next) && Opened(res')
  {
    assert s.saved == [s.saved[0]] + s.saved[1..];
    assert forall id :: id in s.res && id != s.saved[0] ==>
      (Listed(res', s.table, id) <==> Listed(s.res, s.table, id));
  }

  lemma GoneCounts(s: State, res': map<Id, Res>)
    requires Gone(s, res') && Tabled(s.res, s.table, s.garbage, s.saved, s.next)
    requires Counted(s.res, s.table, s.next, s.removals, s.closings)
    ensures Counted(res', s.table, s.next, s.removals,
                    if s.res[s.saved[0]].closed then s.closings else Bump(s.closings, {s.saved[0]}))
  {
    assert forall id :: id in s.res && id != s.saved[0] ==>
      (Listed(res', s.table, id) <==> Listed(s.res, s.table, id));
  }

  lemma GoneDrops(s: State, res': map<Id, Res>)
    requires Gone(s, res') && Tabled(s.res, s.table, s.garbage, s.saved, s.next)
    requires Dropping(s.res, s.table, s.drops, s.uses)
    ensures Dropping(res', s.table, s.drops, s.uses)
  {
    assert forall id :: Listed(res', s.table, id) <==> Listed(s.res, s.table, id);
  }

  /** Every thread and list avoids the saved resources, so dropping one leaves no dangling reference. */
  lemma GoneJobs(s: State, res': map<Id, Res>)
    requires Gone(s, res') && s.phase.Destroying?
    requires Reclaiming(s.res, s.jobs, s.requests, s.saved, true)
    ensures forall w :: 0 <= w < |s.jobs| ==> JobAvoids(s.res, s.jobs[w], s.saved)
    ensures forall w, id :: 0 <= w < |s.jobs| ==>
              (JobRefers(res', s.jobs[w], id) <==> JobRefers(s.res, s.jobs[w], id))
    ensures forall w, id :: 0 <= w < |s.jobs| ==>
              (Covers(res', s.jobs[w], id) <==> Covers(s.res, s.jobs[w], id))
    ensures Reclaiming(res', s.jobs, s.requests, s.saved[1..], true)
  {
    assert s.saved[0] in s.saved;
    forall w | 0 <= w < |s.jobs|
      ensures !s.jobs[w].Idle? ==> s.jobs[w].sock != s.saved[0]
    {
      assert JobAvoids(s.res, s.jobs[w], s.saved);
    }
  }

  lemma GoneAlive(s: State, res': map<Id, Res>)
    requires Gone(s, res') && s.phase.Destroying?
    requires Reclaiming(s.res, s.jobs, s.requests, s.saved, true)
    requires Unlisted(s.gc, s.slaves, s.newcomers, s.requests, s.saved)
    requires Alive(s.res, s.jobs, s.gc, s.slaves, s.newcomers, s.requests)
    requires Working(s.res, s.jobs)
    ensures Alive(res', s.jobs, s.gc, s.slaves, s.newcomers, s.requests)
    ensures Unlisted(s.gc, s.slaves, s.newcomers, s.requests, s.saved[1..])
    ensures Working(res', s.jobs)
  {
    GoneJobs(s, res');
    assert s.saved[0] in s.saved;
    forall w, id | 0 <= w < |s.jobs| && JobRefers(s.res, s.jobs[w], id)
      ensures id != s.saved[0]
    {
      assert JobAvoids(s.res, s.jobs[w], s.saved);
    }
  }

  lemma GoneLists(s: State, res': map<Id, Res>)
    requires Gone(s, res') && s.phase.Destroying?
    requires Reclaiming(s.res, s.jobs, s.requests, s.saved, true)
    requires Joining(s.res, s.jobs, s.slaves, s.newcomers, s.requests, s.started)
    requires Scanning(s.res, s.gc, s.started, s.next)
    ensures Joining(res', s.jobs, s.slaves, s.newcomers, s.requests, s.started)
    ensures Scanning(res', s.gc, s.started, s.next)
  {
    GoneJobs(s, res');
  }

  lemma GoneUses(s: State, res': map<Id, Res>)
    requires Gone(s, res') && s.phase.Destroying? && |s.uses| == |s.jobs| + 1
    requires Reclaiming(s.res, s.jobs, s.requests, s.saved, true)
    requires Using(s.res, s.jobs, s.uses, s.gc)
    ensures Using(res', s.jobs, s.uses, s.gc)
  {
    GoneJobs(s, res');
  }

  lemma DestroyKeeps(s: State)
    requires Ok(s, Destroy)
    ensures Inv(Do(s, Destroy))
  {
    hide Tabled, Opened, Counted, Dropping, Using, Working, Alive, Joining, Scanning, Unlisted, Reclaiming, Purged;
    var res' := s.res - {s.saved[0]};
    GoneTable(s, res');
    GoneCounts(s, res');
    GoneDrops(s, res');
    GoneJobs(s, res');
    GoneAlive(s, res');
    GoneLists(s, res');
    GoneUses(s, res');
  }

  lemma NothingSaved(s: State)
    requires s.saved == [] && Reclaiming(s.res, s.jobs, s.requests, s.saved, true)
    ensures Reclaiming(s.res, s.jobs, s.requests, s.saved, false)
  {}

  lemma DestroyEndKeeps(s: State)
    requires Ok(s, DestroyEnd)
    ensures Inv(Do(s, DestroyEnd))
  {
    hide Tabled, Opened, Counted, Dropping, Using, Working, Alive, Joining, Scanning, Unlisted, Reclaiming, Purged;
    NothingSaved(s);
    FirstPurged(s);
  }
}
