/** Safety over whole runs: safe join, safe reclamation, single removal and close. */
module ProtocolRuns {
  import opened Seqs
  import opened Sync
  import opened Protocol
  import opened ProtocolInv

  // ---------------------------------------------------------------- no step faults

  lemma DropListed(s: State)
    requires Tabled(s.res, s.table, s.garbage, s.saved, s.next)
    requires Dropping(s.res, s.table, s.drops, s.uses) && s.drops != []
    ensures s.drops[0] in s.table && InTable(s, s.table[s.drops[0]])
  {
    assert s.drops[0] in s.drops;
  }

  lemma SlaveListed(s: State, i: nat)
    requires i < |s.slaves|
    requires Tabled(s.res, s.table, s.garbage, s.saved, s.next)
    requires Alive(s.res, s.jobs, s.gc, s.slaves, s.newcomers, s.requests)
    ensures s.slaves[i] in s.res
    ensures Valid(s, s.slaves[i]) ==> InTable(s, s.slaves[i])
  {
    assert s.slaves[i] in s.slaves;
  }

  lemma SavedUnused(s: State)
    requires s.phase.Destroying? && s.saved != [] && |s.uses| == |s.jobs| + 1
    requires Tabled(s.res, s.table, s.garbage, s.saved, s.next)
    requires Using(s.res, s.jobs, s.uses, s.gc)
    requires Unlisted(s.gc, s.slaves, s.newcomers, s.requests, s.saved)
    requires Reclaiming(s.res, s.jobs, s.requests, s.saved, true)
    ensures s.saved[0] in s.res && NoReader(s, s.saved[0])
    ensures forall a :: 0 <= a <= |s.jobs| ==> !Refers(s, a, s.saved[0])
  {
    assert s.saved[0] in s.saved;
    forall a | 0 <= a <= |s.jobs|
      ensures !Refers(s, a, s.saved[0])
    {
      if a < |s.jobs| {
        assert JobAvoids(s.res, s.jobs[a], s.saved);
      }
    }
  }

  lemma SavedEmpty(s: State)
    requires Reclaiming(s.res, s.jobs, s.requests, s.saved, false) && s.requests == []
    ensures s.saved == []
  {}

  lemma UsedAlive(s: State, a: nat, id: Id)
    requires a < |s.uses| == |s.jobs| + 1
    requires Alive(s.res, s.jobs, s.gc, s.slaves, s.newcomers, s.requests)
    requires Using(s.res, s.jobs, s.uses, s.gc)
    requires MayUse(s, a, id) || (s.uses[a] != Out && s.uses[a].id == id)
    ensures id in s.res
  {
    assert Refers(s, a, id);
  }

  lemma JobAlive(s: State, w: nat)
    requires w < |s.jobs| && !s.jobs[w].Idle?
    requires Alive(s.res, s.jobs, s.gc, s.slaves, s.newcomers, s.requests)
    ensures s.jobs[w].sock in s.res
  {
    assert JobRefers(s.res, s.jobs[w], s.jobs[w].sock);
  }

  /**
    No thread uses a destructed resource, `remove_resource` always finds its descriptor, and
    `fix_garbage` never finds a saved list that was not destructed.
  */
  lemma NoFault(s: State, st: Step)
    requires Inv(s) && Guard(s, st)
    ensures !Faults(s, st)
  {
    hide Tabled, Opened, Counted, Dropping, Using, Working, Alive, Joining, Scanning, Unlisted, Reclaiming, Purged;
    match st {
      case ProcessDrop(_) => DropListed(s);
      case PurgeKeep => SlaveListed(s, s.phase.i);
      case PurgeErase => SlaveListed(s, s.phase.i);
      case PurgeTimeout(_) => SlaveListed(s, s.phase.i);
      case Fix(_, _) => if GcReadyForReactor(s) { SavedEmpty(s); }
      case Destroy => SavedUnused(s);
      case EndJob(w) => JobAlive(s, w);
      case TakeLock(a, id) => UsedAlive(s, a, id);
      case CheckValid(a) => UsedAlive(s, a, s.uses[a].id);
      case BodyOk(a) => UsedAlive(s, a, s.uses[a].id);
      case BodyFail(a) => UsedAlive(s, a, s.uses[a].id);
      case RequestRemoval(a) => UsedAlive(s, a, s.uses[a].id);
      case Leave(a) => UsedAlive(s, a, s.uses[a].id);
      case _ =>
    }
  }

  lemma StepKeeps(s: State, st: Step)
    requires Inv(s) && Guard(s, st)
    ensures !Faults(s, st) && Inv(Do(s, st))
  {
    hide Inv, Guard, Faults, Do;
    NoFault(s, st);
    Merely(s, st);
    match st {
      case AcceptClient(fd) => AcceptClientKeeps(s, fd);
      case AcceptSlave(fd, idle) => AcceptSlaveKeeps(s, fd, idle);
      case PostRecv(w, id) => PostRecvKeeps(s, w, id);
      case PostSend(w, id) => PostSendKeeps(s, w, id);
      case ReactorRemove(id, close) => ReactorRemoveKeeps(s, id, close);
      case ProcessDrop(close) => ProcessDropKeeps(s, close);
      case IntervalCheck(idle) => IntervalCheckKeeps(s, idle);
      case PurgeKeep => PurgeKeepKeeps(s);
      case PurgeErase => PurgeEraseKeeps(s);
      case PurgeTimeout(close) => PurgeTimeoutKeeps(s, close);
      case PurgeEnd => PurgeEndKeeps(s);
      case StartGc(start) => StartGcKeeps(s, start);
      case Fix(idle, closing) => FixKeeps(s, idle, closing);
      case Destroy => DestroyKeeps(s);
      case DestroyEnd => DestroyEndKeeps(s);
      case EndJob(w) => EndJobKeeps(s, w);
      case GoIdle(w) => GoIdleKeeps(s, w);
      case TakeLock(a, id) => TakeLockKeeps(s, a, id);
      case CheckValid(a) => CheckValidKeeps(s, a);
      case BodyOk(a) => BodyOkKeeps(s, a);
      case BodyFail(a) => BodyFailKeeps(s, a);
      case RequestRemoval(a) => RequestRemovalKeeps(s, a);
      case Leave(a) => LeaveKeeps(s, a);
      case GcFinish => GcFinishKeeps(s);
    }
  }

  lemma Merely(s: State, st: Step)
    requires Inv(s) && Guard(s, st) && !Faults(s, st)
    ensures Ok(s, st) && |s.jobs| <= MAX_WORKERS && WellFormed(s.requests)
  {}

  // ---------------------------------------------------------------- runs

  /** `steps` leads from `s` to `t`. */
  ghost predicate Run(s: State, steps: seq<Step>, t: State)
    decreases |steps|
  {
    if steps == [] then s == t
    else
      && |s.jobs| <= MAX_WORKERS && WellFormed(s.requests)
      && Guard(s, steps[0]) && !Faults(s, steps[0])
      && Run(Do(s, steps[0]), steps[1..], t)
  }

  lemma {:induction false} RunKeeps(s: State, steps: seq<Step>, t: State)
    requires Inv(s) && Run(s, steps, t)
    ensures Inv(t)
    decreases |steps|
  {
    hide Inv, Guard, Faults, Do;
    if steps != [] {
      StepKeeps(s, steps[0]);
      RunKeeps(Do(s, steps[0]), steps[1..], t);
    }
  }

  ghost predicate Reachable(workers: nat, steps: seq<Step>, t: State) {
    workers <= MAX_WORKERS && Run(Init(workers), steps, t)
  }

  lemma ReachableInv(workers: nat, steps: seq<Step>, t: State)
    requires Reachable(workers, steps, t)
    ensures Inv(t)
  {
    InitInv(workers);
    RunKeeps(Init(workers), steps, t);
  }

  /** In every run, no step the code can take faults. */
  lemma RunsNeverFault(workers: nat, steps: seq<Step>, t: State, st: Step)
    requires Reachable(workers, steps, t) && Guard(t, st)
    ensures !Faults(t, st)
  {
    ReachableInv(workers, steps, t);
    NoFault(t, st);
  }

  /**
    Safe join: when a GC thread starts with slave `x` as a newcomer and `x` is valid, every
    receive job then running was posted with `x` in its list, and so is the GC thread's own list.
  */
  lemma SafeJoin(workers: nat, steps: seq<Step>, t: State, x: Id)
    requires Reachable(workers, steps, t) && Guard(t, StartGc(true))
    requires x in t.newcomers && Valid(t, x)
    ensures forall w :: 0 <= w < |t.jobs| ==> Has(t, w, x)
    ensures x in t.slaves
    ensures x in Merge(t.slaves, t.newcomers)
  {
    ReachableInv(workers, steps, t);
    JoinFacts(t, x);
  }

  lemma JoinFacts(s: State, x: Id)
    requires Alive(s.res, s.jobs, s.gc, s.slaves, s.newcomers, s.requests)
    requires Joining(s.res, s.jobs, s.slaves, s.newcomers, s.requests, s.started)
    requires x in s.newcomers && Valid(s, x)
    ensures forall w :: 0 <= w < |s.jobs| ==> Has(s, w, x)
    ensures x in s.slaves
  {
    forall w | 0 <= w < |s.jobs|
      ensures Has(s, w, x)
    {
      assert Covers(s.res, s.jobs[w], x);
    }
  }

  /**
    And it stays so: while `x` is valid, every job posted later and every later GC thread
    replicates to `x` too.
  */
  lemma JoinedForever(workers: nat, steps: seq<Step>, t: State, x: Id)
    requires Reachable(workers, steps, t) && x in t.started && Valid(t, x)
    ensures forall w :: 0 <= w < |t.jobs| ==> Has(t, w, x)
    ensures t.gc.Some? ==> x in t.gc.value.slaves
  {
    ReachableInv(workers, steps, t);
    StartedFacts(t, x);
  }

  lemma StartedFacts(s: State, x: Id)
    requires Joining(s.res, s.jobs, s.slaves, s.newcomers, s.requests, s.started)
    requires Scanning(s.res, s.gc, s.started, s.next)
    requires x in s.started && Valid(s, x)
    ensures forall w :: 0 <= w < |s.jobs| ==> Has(s, w, x)
    ensures s.gc.Some? ==> x in s.gc.value.slaves
    ensures IsSlave(s.res, x)
  {
    forall w | 0 <= w < |s.jobs|
      ensures Has(s, w, x)
    {
      assert Covers(s.res, s.jobs[w], x);
    }
  }

  /**
    Safe reclamation: when a resource of the saved list is destructed, no worker and no GC
    thread refers to it or is inside `with_fd` on it, and no slave list or pending admission
    names it.
  */
  lemma SafeReclamation(workers: nat, steps: seq<Step>, t: State)
    requires Reachable(workers, steps, t) && Guard(t, Destroy)
    ensures var id := t.saved[0];
      && id in t.res && !t.res[id].valid && !InTable(t, id) && NoReader(t, id)
      && (forall a :: 0 <= a <= |t.jobs| ==> !Refers(t, a, id))
      && id !in t.slaves && id !in t.newcomers
      && (forall q :: q in t.requests && q.what.Admit? ==> q.what.slave != id)
  {
    ReachableInv(workers, steps, t);
    SavedUnused(t);
    assert t.saved[0] in t.saved;
  }

  /**
    Each resource leaves the table once at most and its descriptor is closed once at most; no
    thread past the validity check is on a closed descriptor; and an invalid resource that is
    still in the table has exactly one removal on its way.
  */
  lemma SingleRemovalAndClose(workers: nat, steps: seq<Step>, t: State, id: Id)
    requires Reachable(workers, steps, t) && id < t.next
    ensures id in t.removals && t.removals[id] <= 1 && (t.removals[id] == 0 <==> InTable(t, id))
    ensures id in t.closings && t.closings[id] <= 1 && (t.closings[id] == 1 <==> id !in t.res || t.res[id].closed)
    ensures forall a :: 0 <= a < |t.uses| && On(t.uses[a], id) && !t.uses[a].Checking? ==>
              id in t.res && !t.res[id].closed
    ensures InTable(t, id) && !t.res[id].valid ==>
              t.res[id].fd in t.drops || exists a :: 0 <= a < |t.uses| && t.uses[a] == Closing(id)
    ensures forall a, b :: 0 <= a < b < |t.uses| && t.uses[a] == Closing(id) ==> t.uses[b] != Closing(id)
    ensures NoDup(t.drops)
  {
    ReachableInv(workers, steps, t);
    forall a | 0 <= a < |t.uses| && On(t.uses[a], id)
      ensures id in t.res
    {
      UsedAlive(t, a, id);
    }
  }

  /** No body starts on a closed descriptor: the check inside `with_fd` sends the thread out. */
  lemma NoBodyAfterClose(workers: nat, steps: seq<Step>, t: State, a: nat)
    requires Reachable(workers, steps, t) && Guard(t, CheckValid(a))
    ensures var id := t.uses[a].id;
      && id in t.res && |t.jobs| <= MAX_WORKERS && WellFormed(t.requests)
      && (Do(t, CheckValid(a)).uses[a] == Body(id) <==> t.res[id].valid)
      && (t.res[id].closed ==> Do(t, CheckValid(a)).uses[a] == Out)
  {
    ReachableInv(workers, steps, t);
    UsedAlive(t, a, t.uses[a].id);
  }
}
