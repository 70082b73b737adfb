/** What a protocol step leaves alone: the part of the machine that object data depends on. */
module ProtocolFrame {
  import opened Sync
  import opened Protocol

  ghost predicate CanDo(s: State, st: Step) {
    && s.next !in s.res && |s.jobs| <= MAX_WORKERS && WellFormed(s.requests)
    && Guard(s, st) && !Faults(s, st)
  }

  /** A resource keeps its kind and descriptor number, and never regains validity. */
  ghost predicate Older(res: map<Id, Res>, res': map<Id, Res>, x: Id) {
    && (x in res ==> x in res')
    && (x in res' ==>
         x in res && res'[x].kind == res[x].kind && res'[x].fd == res[x].fd && (res'[x].valid ==> res[x].valid))
  }

  predicate Leaves(st: Step) {
    st.ReactorRemove? || st.ProcessDrop? || st.PurgeTimeout? || st.Fix? || st.BodyFail?
  }

  lemma RemovedOlder(s: State, id: Id, close: bool, x: Id)
    requires InTable(s, id)
    ensures Older(s.res, Removed(s, id, close).res, x)
  {}

  lemma LeavingOlder(s: State, st: Step, x: Id)
    requires CanDo(s, st) && Leaves(st)
    ensures Older(s.res, Do(s, st).res, x)
  {
    hide Removed, NoReader, FirstFlags, All, Observed, Older, Bump, FdFree, MayUse, WellFormed;
    match st {
      case ReactorRemove(id, close) => RemovedOlder(s, id, close, x);
      case ProcessDrop(close) => RemovedOlder(s, s.table[s.drops[0]], close, x);
      case PurgeTimeout(close) => RemovedOlder(s, s.slaves[s.phase.i], close, x);
      case Fix(_, _) => FixOlder(s, st, x);
      case BodyFail(_) => FailOlder(s, st, x);
    }
  }

  lemma FixOlder(s: State, st: Step, x: Id)
    requires CanDo(s, st) && st.Fix?
    ensures Older(s.res, Do(s, st).res, x)
  {
    hide NoReader, FirstFlags, All, Observed, Bump;
  }

  lemma FailOlder(s: State, st: Step, x: Id)
    requires CanDo(s, st) && st.BodyFail?
    ensures Older(s.res, Do(s, st).res, x)
  {
    hide NoReader, FirstFlags, All, Observed, Bump;
  }

  lemma StayingOlder(s: State, st: Step, x: Id)
    requires CanDo(s, st) && !Leaves(st) && !st.AcceptClient? && !st.AcceptSlave? && !st.Destroy?
    ensures Older(s.res, Do(s, st).res, x)
  {
    hide Removed, NoReader, FirstFlags, All, Waiting, Fired, MarkAll, Merge, FdFree, MayUse, Observed, WellFormed,
         Admitted, Bump;
  }

  /** Which resources exist changes by accepting and destructing only. */
  lemma FrameRes(s: State, st: Step, x: Id)
    requires CanDo(s, st)
    ensures var res' := Do(s, st).res;
      match st
      case AcceptClient(fd) =>
        if x == s.next then x in res' && res'[x] == Res(Client, fd, true, false, false, [])
        else Older(s.res, res', x)
      case AcceptSlave(fd, _) =>
        if x == s.next then x in res' && res'[x] == Res(Slave, fd, true, false, false, [])
        else Older(s.res, res', x)
      case Destroy => if x == s.saved[0] then x !in res' else Older(s.res, res', x)
      case _ => Older(s.res, res', x)
  {
    hide Removed, NoReader, FirstFlags, All, Waiting, Fired, MarkAll, Merge;
    if Leaves(st) {
      LeavingOlder(s, st, x);
    } else if !st.AcceptClient? && !st.AcceptSlave? && !st.Destroy? {
      StayingOlder(s, st, x);
    }
  }

  predicate Works(st: Step) { st.PostRecv? || st.PostSend? || st.EndJob? || st.GoIdle? }

  lemma SameJobs(s: State, st: Step)
    requires |s.jobs| <= MAX_WORKERS && WellFormed(s.requests) && Guard(s, st) && !Faults(s, st) && !Works(st)
    ensures Do(s, st).jobs == s.jobs
  {
    hide Guard, Faults, WellFormed, Do;
    if InWithFd(st) { SameJobsLocking(s, st); } else { SameJobsReactor(s, st); }
  }

  /** The steps of `with_fd`. */
  predicate InWithFd(st: Step) {
    st.TakeLock? || st.CheckValid? || st.BodyOk? || st.BodyFail? || st.RequestRemoval? || st.Leave?
  }

  lemma SameJobsLocking(s: State, st: Step)
    requires |s.jobs| <= MAX_WORKERS && WellFormed(s.requests) && Guard(s, st) && !Faults(s, st) && InWithFd(st)
    ensures Do(s, st).jobs == s.jobs
  {
    hide NoReader, FdFree, InTable, MayUse, Observed, Faults, WellFormed;
  }

  lemma SameJobsReactor(s: State, st: Step)
    requires |s.jobs| <= MAX_WORKERS && WellFormed(s.requests) && Guard(s, st) && !Faults(s, st)
    requires !Works(st) && !InWithFd(st)
    ensures Do(s, st).jobs == s.jobs
  {
    hide Guard, Faults, WellFormed, FirstFlags, All, Waiting, Fired, MarkAll, Merge, Admitted, Bump, GcReadyForReactor;
  }

  lemma FrameWorkers(s: State, st: Step)
    requires |s.jobs| <= MAX_WORKERS && WellFormed(s.requests) && Guard(s, st) && !Faults(s, st)
    ensures |Do(s, st).jobs| == |s.jobs|
  {
    hide NoReader, FdFree, InTable, MayUse, Observed, Faults, WellFormed, Do;
    if Works(st) { OneJob(s, st); } else { SameJobs(s, st); }
  }

  lemma OneJob(s: State, st: Step)
    requires |s.jobs| <= MAX_WORKERS && WellFormed(s.requests) && Guard(s, st) && !Faults(s, st) && Works(st)
    ensures var jobs' := Do(s, st).jobs;
      && |jobs'| == |s.jobs|
      && forall w :: 0 <= w < |jobs'| && jobs'[w].Recv? ==> jobs'[w] == s.jobs[w] || (st.PostRecv? && st.w == w)
  {
    hide NoReader, FdFree, InTable, MayUse, Observed, Faults, WellFormed;
  }

  /** A receive job begins by posting it. */
  lemma FrameJobs(s: State, st: Step, w: nat)
    requires CanDo(s, st) && w < |s.jobs|
    ensures var jobs' := Do(s, st).jobs;
      && |jobs'| == |s.jobs|
      && (jobs'[w].Recv? ==> jobs'[w] == s.jobs[w] || (st.PostRecv? && st.w == w))
  {
    hide Guard, Faults, WellFormed, Do;
    if Works(st) { OneJob(s, st); } else { SameJobs(s, st); }
  }

  /** Only a GC start or end changes the GC thread. */
  lemma FrameGc(s: State, st: Step)
    requires CanDo(s, st)
    ensures var t := Do(s, st);
      && (!st.StartGc? ==> t.started == s.started)
      && (!st.StartGc? && !st.GcFinish? ==> t.gc == s.gc)
      && (st.StartGc? && !st.start ==> t.gc == s.gc || t.gc.None?)
      && (st.GcFinish? ==> t.gc.Some? && t.gc.value.done)
  {
    hide Guard, Faults, WellFormed, FirstFlags, All, Waiting, Fired, MarkAll, Merge, Admitted, Bump, GcReadyForReactor;
  }
}
