/** No slave is lost on its way to its first replication, and none gets it twice. */
module ProtocolAdmission {
  import opened Sync
  import opened Protocol
  import opened ProtocolInv
  import R = ProtocolRuns
  import F = ProtocolFrame

  // ---------------------------------------------------------------- where a slave stands

  /** How many pending requests will admit `x`. */
  function Asked(rs: seq<Request<What>>, x: Id): nat {
    if rs == [] then 0
    else Asked(rs[..|rs| - 1], x) + if rs[|rs| - 1].what == Admit(x) then 1 else 0
  }

  function Occurs(s: seq<Id>, x: Id): nat {
    if s == [] then 0 else Occurs(s[..|s| - 1], x) + if s[|s| - 1] == x then 1 else 0
  }

  /** Asked for, waiting for a GC thread, or served by one. */
  function Places(requests: seq<Request<What>>, newcomers: seq<Id>, started: set<Id>, x: Id): nat {
    Asked(requests, x) + Occurs(newcomers, x) + if x in started then 1 else 0
  }

  /** Every slave stands in one place, and no other identifier in any. */
  ghost predicate Once(s: State) {
    forall x: nat ::
      && (IsSlave(s.res, x) ==> Places(s.requests, s.newcomers, s.started, x) == 1)
      && (x >= s.next ==> Places(s.requests, s.newcomers, s.started, x) == 0)
  }

  /** Bits that no worker has are set in every request. */
  ghost predicate Spare(s: State) {
    forall i, b :: 0 <= i < |s.requests| && |s.jobs| <= b < |s.requests[i].flags| ==> s.requests[i].flags[b]
  }

  ghost predicate Admitting(s: State) { Inv(s) && Once(s) && Spare(s) }

  lemma AskedLast(rs: seq<Request<What>>, q: Request<What>, x: Id)
    ensures Asked(rs + [q], x) == Asked(rs, x) + if q.what == Admit(x) then 1 else 0
  {
    assert (rs + [q])[..|rs|] == rs;
  }

  lemma OccursLast(s: seq<Id>, y: Id, x: Id)
    ensures Occurs(s + [y], x) == Occurs(s, x) + if y == x then 1 else 0
  {
    assert (s + [y])[..|s|] == s;
  }

  lemma {:induction false} OccursBoth(s: seq<Id>, t: seq<Id>, x: Id)
    ensures Occurs(s + t, x) == Occurs(s, x) + Occurs(t, x)
    decreases |t|
  {
    if t == [] {
      assert s + t == s;
    } else {
      var n := |t| - 1;
      OccursBoth(s, t[..n], x);
      OccursLast(s + t[..n], t[n], x);
      assert s + t == s + t[..n] + [t[n]];
    }
  }

  lemma {:induction false} OccursIn(s: seq<Id>, x: Id)
    ensures Occurs(s, x) >= 1 <==> x in s
    ensures Occurs(s, x) <= 1 <==> forall i, j :: 0 <= i < j < |s| ==> !(s[i] == x && s[j] == x)
    decreases |s|
  {
    if s != [] {
      var n := |s| - 1;
      OccursIn(s[..n], x);
      assert s == s[..n] + [s[n]];
      if Occurs(s[..n], x) >= 1 && s[n] == x {
        var i :| 0 <= i < n && s[..n][i] == x;
        assert s[i] == x && s[n] == x;
      }
      if Occurs(s, x) > 1 && !(Occurs(s[..n], x) >= 1 && s[n] == x) {
        var i, j :| 0 <= i < j < n && s[..n][i] == x && s[..n][j] == x;
        assert s[i] == x && s[j] == x;
      }
    }
  }

  /** What a round fires and what it leaves waiting is what was asked. */
  lemma {:induction false} RoundConserves(rs: seq<Request<What>>, x: Id)
    ensures Occurs(Admitted(Fired(rs)), x) + Asked(Waiting(rs), x) == Asked(rs, x)
    decreases |rs|
  {
    hide Fired, Waiting, All;
    if rs == [] {
      SelectsNone(rs);
    } else {
      var n := |rs| - 1;
      var head, q := rs[..n], rs[n];
      assert rs == head + [q];
      RoundConserves(head, x);
      WaitingLast(head, q);
      AskedLast(head, q, x);
      AskedLast(Waiting(head), q, x);
      if All(q.flags) { AdmittedLast(Fired(head), q.what, x); }
    }
  }

  lemma AdmittedLast(fired: seq<What>, w: What, x: Id)
    ensures Occurs(Admitted(fired + [w]), x) == Occurs(Admitted(fired), x) + if w == Admit(x) then 1 else 0
  {
    assert (fired + [w])[..|fired|] == fired;
    if w.Admit? { OccursLast(Admitted(fired), w.slave, x); }
  }

  /** Marking changes no request's purpose. */
  lemma {:induction false} MarkedAsked(rs: seq<Request<What>>, ms: seq<Request<What>>, x: Id)
    requires |ms| == |rs| && forall i :: 0 <= i < |rs| ==> ms[i].what == rs[i].what
    ensures Asked(ms, x) == Asked(rs, x)
    decreases |rs|
  {
    if rs != [] { MarkedAsked(rs[..|rs| - 1], ms[..|rs| - 1], x); }
  }

  // ---------------------------------------------------------------- every step

  lemma CheckOnce(s: State, idle: seq<bool>, x: nat)
    requires Ok(s, IntervalCheck(idle))
    ensures var t := Do(s, IntervalCheck(idle));
      Places(t.requests, t.newcomers, t.started, x) == Places(s.requests, s.newcomers, s.started, x)
  {
    hide Tabled, Opened, Counted, Dropping, Using, Working, Alive, Joining, Scanning, Unlisted, Reclaiming, Purged,
         Fired, Waiting, Asked, Occurs;
    var rs := MarkAll(s.requests, idle);
    MarkedAsked(s.requests, rs, x);
    RoundConserves(rs, x);
    OccursBoth(s.newcomers, Admitted(Fired(rs)), x);
  }

  lemma AcceptOnce(s: State, fd: Fd, idle: seq<bool>, x: nat)
    requires Ok(s, AcceptSlave(fd, idle))
    ensures var t := Do(s, AcceptSlave(fd, idle));
      Places(t.requests, t.newcomers, t.started, x) ==
      Places(s.requests, s.newcomers, s.started, x) + if x == s.next then 1 else 0
  {
    hide Tabled, Opened, Counted, Dropping, Using, Working, Alive, Joining, Scanning, Unlisted, Reclaiming, Purged,
         Asked, Occurs, All, FirstFlags, FdFree;
    var flags := FirstFlags(idle);
    OccursLast(s.newcomers, s.next, x);
    AskedLast(s.requests, Request(flags, Admit(s.next)), x);
  }

  lemma StartOnce(s: State, start: bool, x: nat)
    requires Ok(s, StartGc(start)) && Places(s.requests, s.newcomers, s.started, x) <= 1
    ensures var t := Do(s, StartGc(start));
      Places(t.requests, t.newcomers, t.started, x) == Places(s.requests, s.newcomers, s.started, x)
  {
    hide Inv, Asked, Merge;
    OccursIn(s.newcomers, x);
  }

  /** The steps that leave requests, newcomers and started slaves alone. */
  predicate Elsewhere(st: Step) { !st.AcceptSlave? && !st.IntervalCheck? && !st.StartGc? && !st.Fix? }

  lemma SamePlaces(s: State, st: Step)
    requires Ok(s, st) && Elsewhere(st)
    ensures var t := Do(s, st);
      t.requests == s.requests && t.newcomers == s.newcomers && t.started == s.started && t.next >= s.next
  {
    hide Inv, NoReader, FdFree, InTable, MayUse, Observed, Faults, Bump, Guard;
  }

  /** New slaves come by accepting only. */
  lemma NoNewSlave(s: State, st: Step, x: nat)
    requires Ok(s, st) && IsSlave(Do(s, st).res, x) && !(st.AcceptSlave? && x == s.next)
    ensures IsSlave(s.res, x) && Do(s, st).next >= s.next
  {
    hide Tabled, Opened, Counted, Dropping, Using, Working, Alive, Joining, Scanning, Unlisted, Reclaiming, Purged, Do,
         Guard, Faults;
    NextFree(s);
    F.FrameRes(s, st, x);
    NextGrows(s, st);
  }

  lemma NextFree(s: State)
    requires Inv(s)
    ensures s.next !in s.res
  {
    hide Opened, Counted, Dropping, Using, Working, Alive, Joining, Scanning, Unlisted, Reclaiming, Purged;
  }

  lemma NextGrows(s: State, st: Step)
    requires Ok(s, st)
    ensures Do(s, st).next == s.next + if st.AcceptClient? || st.AcceptSlave? then 1 else 0
  {
    hide Inv, NoReader, FdFree, InTable, MayUse, Observed, Faults, Bump, Guard, Fired, Waiting, MarkAll, All,
         FirstFlags, Merge, Admitted, GcReadyForReactor;
  }

  lemma FixOnce(s: State, idle: seq<bool>, closing: set<Id>, x: nat)
    requires Ok(s, Fix(idle, closing))
    ensures var t := Do(s, Fix(idle, closing));
      Places(t.requests, t.newcomers, t.started, x) == Places(s.requests, s.newcomers, s.started, x)
  {
    hide Tabled, Opened, Counted, Dropping, Using, Working, Alive, Joining, Scanning, Unlisted, Reclaiming, Purged,
         Occurs, All, FirstFlags, Bump, NoReader;
    assert [Request(FirstFlags(idle), Reclaim)][..0] == [];
  }

  lemma OnceKeeps(s: State, st: Step)
    requires Ok(s, st) && Once(s)
    ensures Once(Do(s, st))
  {
    hide Tabled, Opened, Counted, Dropping, Using, Working, Alive, Joining, Scanning, Unlisted, Reclaiming, Purged,
         Guard, Faults, Do, Places;
    var t := Do(s, st);
    NextGrows(s, st);
    forall x: nat
      ensures IsSlave(t.res, x) ==> Places(t.requests, t.newcomers, t.started, x) == 1
      ensures x >= t.next ==> Places(t.requests, t.newcomers, t.started, x) == 0
    {
      if IsSlave(t.res, x) && !(st.AcceptSlave? && x == s.next) {
        NoNewSlave(s, st, x);
        PlacesAfter(s, st, x);
      } else if x >= s.next {
        PlacesAfter(s, st, x);
      }
    }
  }

  lemma PlacesAfter(s: State, st: Step, x: nat)
    requires Ok(s, st) && Once(s) && (IsSlave(s.res, x) || x >= s.next)
    ensures var t := Do(s, st);
      Places(t.requests, t.newcomers, t.started, x) ==
      Places(s.requests, s.newcomers, s.started, x) + if st.AcceptSlave? && x == s.next then 1 else 0
  {
    hide Tabled, Opened, Counted, Dropping, Using, Working, Alive, Joining, Scanning, Unlisted, Reclaiming, Purged,
         Guard, Faults, Do, Places;
    match st {
      case AcceptSlave(fd, idle) => AcceptOnce(s, fd, idle, x);
      case IntervalCheck(idle) => CheckOnce(s, idle, x);
      case StartGc(start) => StartOnce(s, start, x);
      case Fix(idle, closing) => FixOnce(s, idle, closing, x);
      case _ => SamePlaces(s, st);
    }
  }

  lemma SpareKeeps(s: State, st: Step)
    requires Ok(s, st) && Spare(s)
    ensures Spare(Do(s, st))
  {
    hide Tabled, Opened, Counted, Dropping, Using, Working, Alive, Joining, Scanning, Unlisted, Reclaiming, Purged, Do,
         Guard, Faults;
    F.FrameWorkers(s, st);
    if st.AcceptSlave? || st.IntervalCheck? || st.Fix? {
      SpareNew(s, st);
    } else if st.StartGc? {
      StartRequests(s, st);
    } else {
      SamePlaces(s, st);
    }
  }

  lemma StartRequests(s: State, st: Step)
    requires Ok(s, st) && st.StartGc?
    ensures Do(s, st).requests == s.requests
  {
    hide Inv, Merge;
  }

  lemma SpareNew(s: State, st: Step)
    requires Ok(s, st) && Spare(s) && (st.AcceptSlave? || st.IntervalCheck? || st.Fix?)
    ensures Spare(Do(s, st))
  {
    hide Tabled, Opened, Counted, Dropping, Using, Working, Alive, Joining, Scanning, Unlisted, Reclaiming, Purged,
         Fired, Waiting, All, Bump, FdFree, NoReader, Admitted;
    if st.IntervalCheck? {
      var rs := MarkAll(s.requests, st.idle);
      var t := Do(s, st);
      forall i, b | 0 <= i < |t.requests| && |s.jobs| <= b < |t.requests[i].flags|
        ensures t.requests[i].flags[b]
      {
        assert t.requests[i] in rs;
        var j :| 0 <= j < |rs| && rs[j] == t.requests[i];
        assert s.requests[j].flags[b];
      }
    }
  }

  // ---------------------------------------------------------------- every run

  lemma {:induction false} RunKeeps(s: State, steps: seq<Step>, t: State)
    requires Admitting(s) && R.Run(s, steps, t)
    ensures Admitting(t)
    decreases |steps|
  {
    hide Inv, Once, Spare, Guard, Faults, Do;
    if steps != [] {
      R.StepKeeps(s, steps[0]);
      OnceKeeps(s, steps[0]);
      SpareKeeps(s, steps[0]);
      RunKeeps(Do(s, steps[0]), steps[1..], t);
    }
  }

  lemma ReachableOnce(workers: nat, steps: seq<Step>, t: State)
    requires R.Reachable(workers, steps, t)
    ensures Admitting(t)
  {
    InitInv(workers);
    RunKeeps(Init(workers), steps, t);
  }

  lemma {:induction false} AskedIn(rs: seq<Request<What>>, x: Id)
    ensures Asked(rs, x) >= 1 <==> exists i :: 0 <= i < |rs| && rs[i].what == Admit(x)
    ensures Asked(rs, x) <= 1 <==> forall i, j :: 0 <= i < j < |rs| ==>
      !(rs[i].what == Admit(x) && rs[j].what == Admit(x))
    decreases |rs|
  {
    if rs != [] {
      var n := |rs| - 1;
      var head := rs[..n];
      AskedIn(head, x);
      assert forall i :: 0 <= i < n ==> head[i] == rs[i];
      if Asked(head, x) >= 1 {
        var i :| 0 <= i < n && head[i].what == Admit(x);
        assert rs[i].what == Admit(x);
      }
      if Asked(head, x) > 1 {
        var i, j :| 0 <= i < j < n && head[i].what == Admit(x) && head[j].what == Admit(x);
        assert rs[i].what == Admit(x) && rs[j].what == Admit(x);
      }
    }
  }

  /**
    No slave is lost and none is served twice.  In every run each slave that exists has a pending
    admission, or waits for a GC thread, or had one started for it, and only one of these, once.
  */
  lemma AdmittedOnce(workers: nat, steps: seq<Step>, t: State, x: Id)
    requires R.Reachable(workers, steps, t) && IsSlave(t.res, x)
    ensures var asked := exists i :: 0 <= i < |t.requests| && t.requests[i].what == Admit(x);
      && (asked || x in t.newcomers || x in t.started)
      && !(asked && x in t.newcomers) && !(asked && x in t.started) && !(x in t.newcomers && x in t.started)
    ensures forall i, j :: 0 <= i < j < |t.requests| ==>
      !(t.requests[i].what == Admit(x) && t.requests[j].what == Admit(x))
    ensures forall i, j :: 0 <= i < j < |t.newcomers| ==> !(t.newcomers[i] == x && t.newcomers[j] == x)
  {
    hide Inv;
    ReachableOnce(workers, steps, t);
    AskedIn(t.requests, x);
    OccursIn(t.newcomers, x);
    assert Places(t.requests, t.newcomers, t.started, x) == 1;
  }

  /** Every worker whose bit is clear is seen idle in this round. */
  predicate Completes(q: Request<What>, idle: seq<bool>) {
    forall b :: 0 <= b < |q.flags| && !q.flags[b] ==> b < |idle| && idle[b]
  }

  /** A round makes a newcomer of a slave exactly if it is one, or its admission completes. */
  lemma AdmitsExactly(workers: nat, steps: seq<Step>, t: State, idle: seq<bool>, x: Id)
    requires R.Reachable(workers, steps, t) && Guard(t, IntervalCheck(idle))
    ensures |t.jobs| <= MAX_WORKERS && WellFormed(t.requests)
    ensures x in Do(t, IntervalCheck(idle)).newcomers <==>
              || x in t.newcomers
              || exists i ::
                   0 <= i < |t.requests| && t.requests[i].what == Admit(x) && Completes(t.requests[i], idle)
  {
    hide Tabled, Opened, Counted, Dropping, Using, Working, Alive, Joining, Scanning, Unlisted, Reclaiming, Purged;
    R.ReachableInv(workers, steps, t);
    var rs := MarkAll(t.requests, idle);
    hide MarkAll, Fired, Waiting;
    forall i | 0 <= i < |rs|
      ensures All(rs[i].flags) <==> Completes(t.requests[i], idle)
    {
      MarkedAll(t.requests[i].flags, idle);
    }
    if i :| 0 <= i < |t.requests| && t.requests[i].what == Admit(x) && Completes(t.requests[i], idle) {
      assert rs[i] in rs && rs[i].what == Admit(x);
    }
    if Admit(x) in Fired(rs) {
      var q :| q in rs && All(q.flags) && q.what == Admit(x);
      var i :| 0 <= i < |rs| && rs[i] == q;
      assert t.requests[i].what == Admit(x) && Completes(t.requests[i], idle);
    }
  }

  lemma MarkedAll(flags: seq<bool>, idle: seq<bool>)
    requires |flags| == MAX_WORKERS && |idle| <= MAX_WORKERS
    ensures All(Mark(flags, idle)) <==> forall b :: 0 <= b < |flags| && !flags[b] ==> b < |idle| && idle[b]
  {
    if All(Mark(flags, idle)) {
      forall b | 0 <= b < |flags| && !flags[b]
        ensures b < |idle| && idle[b]
      {
        assert Mark(flags, idle)[b];
      }
    }
  }

  /** A GC thread that starts takes all newcomers, and replicates to them and to all slaves. */
  lemma TakesAll(workers: nat, steps: seq<Step>, t: State)
    requires R.Reachable(workers, steps, t) && Guard(t, StartGc(true))
    ensures |t.jobs| <= MAX_WORKERS && WellFormed(t.requests)
    ensures var u := Do(t, StartGc(true));
      && u.gc.Some? && !u.gc.value.done && u.newcomers == []
      && forall x :: && (x in t.newcomers <==> x in u.gc.value.newcomers) && (x in t.newcomers ==> x in u.started)
                     && (x in u.gc.value.slaves <==> x in t.slaves || x in t.newcomers)
  {
    hide Tabled, Opened, Counted, Dropping, Using, Working, Alive, Joining, Scanning, Unlisted, Reclaiming, Purged;
    R.ReachableInv(workers, steps, t);
  }
}
