/**
  No deadlock and no leak: from every state of every run the server can come to rest, with all
  workers idle, every removed connection destructed and every slave served.
*/
module ProtocolProgress {
  import opened Sync
  import opened Protocol
  import opened ProtocolInv
  import R = ProtocolRuns
  import A = ProtocolAdmission
  import F = ProtocolFrame

  // ---------------------------------------------------------------- putting runs together

  lemma {:induction false} Chain(s: State, a: seq<Step>, t: State, b: seq<Step>, u: State)
    requires R.Run(s, a, t) && R.Run(t, b, u)
    ensures R.Run(s, a + b, u)
    decreases |a|
  {
    hide Guard, Faults, Do;
    if a == [] {
      assert a + b == b;
    } else {
      Chain(Do(s, a[0]), a[1..], t, b, u);
      assert (a + b)[1..] == a[1..] + b;
    }
  }

  /** Steps that finish what is under way, and take nothing from anybody. */
  predicate Gentle(st: Step) {
    || st.CheckValid? || st.BodyOk? || st.RequestRemoval? || st.Leave? || st.EndJob? || st.GoIdle? || st.GcFinish?
    || st.ProcessDrop? || st.IntervalCheck? || st.PurgeKeep? || st.PurgeErase? || st.PurgeEnd? || st.StartGc? || st.Fix?
    || st.Destroy? || st.DestroyEnd?
  }

  predicate AllGentle(steps: seq<Step>) { forall i :: 0 <= i < |steps| ==> Gentle(steps[i]) }

  /** A step the code can take goes through, and keeps the invariant. */
  lemma Take(s: State, st: Step) returns (t: State)
    requires Inv(s) && Guard(s, st)
    ensures |s.jobs| <= MAX_WORKERS && WellFormed(s.requests) && !Faults(s, st) && t == Do(s, st)
    ensures R.Run(s, [st], t) && Inv(t)
  {
    hide Inv, Guard, Faults, Do;
    R.StepKeeps(s, st);
    R.Merely(s, st);
    t := Do(s, st);
    assert [st][1..] == [];
    assert R.Run(t, [], t);
  }

  lemma Stay(s: State)
    ensures R.Run(s, [], s)
  {}

  // ---------------------------------------------------------------- the threads leave `with_fd`

  predicate AllOut(s: State) { forall a :: 0 <= a < |s.uses| ==> s.uses[a].Out? }

  predicate AllIdle(s: State) { forall w :: 0 <= w < |s.jobs| ==> s.jobs[w].Idle? }

  function Distance(u: Use): nat {
    match u case Out => 0 case Leaving(_) => 1 case Body(_) => 1 case Checking(_) => 2 case Closing(_) => 2
  }

  function NextUse(a: nat, u: Use): Step {
    match u
    case Checking(_) => CheckValid(a)
    case Body(_) => BodyOk(a)
    case Closing(_) => RequestRemoval(a)
    case _ => Leave(a)
  }

  lemma UseStep(s: State, a: nat) returns (t: State)
    requires Inv(s) && a < |s.uses| && !s.uses[a].Out?
    ensures R.Run(s, [NextUse(a, s.uses[a])], t) && Inv(t) && Gentle(NextUse(a, s.uses[a]))
    ensures |t.uses| == |s.uses| && Distance(t.uses[a]) < Distance(s.uses[a]) && t.uses == s.uses[a := t.uses[a]]
    ensures t.jobs == s.jobs && t.phase == s.phase && t.gc == s.gc
  {
    hide Inv;
    t := Take(s, NextUse(a, s.uses[a]));
  }

  lemma {:induction false} OneOut(s: State, a: nat) returns (steps: seq<Step>, t: State)
    requires Inv(s) && a < |s.uses|
    ensures R.Run(s, steps, t) && AllGentle(steps) && Inv(t) && t.uses == s.uses[a := Out]
    ensures t.jobs == s.jobs && t.phase == s.phase && t.gc == s.gc
    decreases Distance(s.uses[a])
  {
    hide Inv, R.Run;
    if s.uses[a].Out? {
      Stay(s);
      steps, t := [], s;
    } else {
      var u := UseStep(s, a);
      steps, t := OneOut(u, a);
      Chain(s, [NextUse(a, s.uses[a])], u, steps, t);
      steps := [NextUse(a, s.uses[a])] + steps;
    }
  }

  lemma {:induction false} FirstOut(s: State, n: nat) returns (steps: seq<Step>, t: State)
    requires Inv(s) && n <= |s.uses|
    ensures R.Run(s, steps, t) && AllGentle(steps) && Inv(t)
    ensures |t.uses| == |s.uses| && forall a :: 0 <= a < n ==> t.uses[a].Out?
    ensures t.jobs == s.jobs && t.phase == s.phase && t.gc == s.gc
    decreases n
  {
    hide Inv, R.Run;
    if n == 0 {
      Stay(s);
      steps, t := [], s;
    } else {
      var before, u := FirstOut(s, n - 1);
      steps, t := OneOut(u, n - 1);
      Chain(s, before, u, steps, t);
      steps := before + steps;
    }
  }

  // ---------------------------------------------------------------- the workers finish

  function Work(j: Job): nat {
    match j case Idle => 0 case Done(_) => 1 case Send(_) => 1 case Recv(_) => 2
  }

  lemma JobStep(s: State, w: nat) returns (st: Step, t: State)
    requires Inv(s) && AllOut(s) && w < |s.jobs| && !s.jobs[w].Idle?
    ensures R.Run(s, [st], t) && Inv(t) && Gentle(st)
    ensures |t.jobs| == |s.jobs| && Work(t.jobs[w]) < Work(s.jobs[w]) && t.jobs == s.jobs[w := t.jobs[w]]
    ensures t.uses == s.uses && t.phase == s.phase && t.gc == s.gc
  {
    assert |s.uses| == |s.jobs| + 1;
    hide Inv, R.Run, NoReader, Observed, FdFree, InTable, MayUse;
    st := if s.jobs[w].Recv? then EndJob(w) else GoIdle(w);
    t := Take(s, st);
  }

  lemma {:induction false} OneIdle(s: State, w: nat) returns (steps: seq<Step>, t: State)
    requires Inv(s) && AllOut(s) && w < |s.jobs|
    ensures R.Run(s, steps, t) && AllGentle(steps) && Inv(t) && t.jobs == s.jobs[w := Idle]
    ensures t.uses == s.uses && t.phase == s.phase && t.gc == s.gc
    decreases Work(s.jobs[w])
  {
    hide Inv, R.Run;
    if s.jobs[w].Idle? {
      Stay(s);
      steps, t := [], s;
    } else {
      var st, u := JobStep(s, w);
      steps, t := OneIdle(u, w);
      Chain(s, [st], u, steps, t);
      steps := [st] + steps;
    }
  }

  lemma {:induction false} FirstIdle(s: State, n: nat) returns (steps: seq<Step>, t: State)
    requires Inv(s) && AllOut(s) && n <= |s.jobs|
    ensures R.Run(s, steps, t) && AllGentle(steps) && Inv(t)
    ensures |t.jobs| == |s.jobs| && forall w :: 0 <= w < n ==> t.jobs[w].Idle?
    ensures t.uses == s.uses && t.phase == s.phase && t.gc == s.gc
    decreases n
  {
    hide Inv, R.Run;
    if n == 0 {
      Stay(s);
      steps, t := [], s;
    } else {
      var before, u := FirstIdle(s, n - 1);
      steps, t := OneIdle(u, n - 1);
      Chain(s, before, u, steps, t);
      steps := before + steps;
    }
  }

  /** Nobody is at work: no worker, no thread inside `with_fd`, no running GC thread. */
  predicate Calm(s: State) { AllOut(s) && AllIdle(s) && (s.gc.None? || s.gc.value.done) }

  lemma GcEnds(s: State) returns (steps: seq<Step>, t: State)
    requires Inv(s) && AllOut(s) && AllIdle(s)
    ensures R.Run(s, steps, t) && AllGentle(steps) && Inv(t) && Calm(t) && t == s.(gc := t.gc)
  {
    assert |s.uses| == |s.jobs| + 1;
    hide Inv, R.Run;
    if Calm(s) {
      Stay(s);
      steps, t := [], s;
    } else {
      steps := [GcFinish];
      t := Take(s, GcFinish);
    }
  }

  lemma CalmDown(s: State) returns (steps: seq<Step>, t: State)
    requires Inv(s)
    ensures R.Run(s, steps, t) && AllGentle(steps) && Inv(t) && Calm(t)
  {
    hide Inv, R.Run;
    var a, u := FirstOut(s, |s.uses|);
    var b, v := FirstIdle(u, |u.jobs|);
    var c, w := GcEnds(v);
    Chain(s, a, u, b, v);
    Chain(s, a + b, v, c, w);
    steps, t := a + b + c, w;
  }

  // ---------------------------------------------------------------- the reactor finishes its callback

  function Idles(n: nat): (r: seq<bool>)
    ensures |r| == n && forall i :: 0 <= i < n ==> r[i]
  {
    seq(n, _ => true)
  }

  /** Workers and GC thread are as they were. */
  predicate SameThreads(s: State, t: State) { t.jobs == s.jobs && t.uses == s.uses }

  /** The saved resources are destructed one by one. */
  lemma {:induction false} DestroyAll(s: State) returns (steps: seq<Step>, t: State)
    requires Inv(s) && s.phase.Destroying?
    ensures R.Run(s, steps, t) && AllGentle(steps) && Inv(t)
    ensures t == s.(res := t.res, saved := [], closings := t.closings)
    decreases |s.saved|
  {
    hide Inv, R.Run, Bump;
    if s.saved == [] {
      Stay(s);
      steps, t := [], s;
    } else {
      var u := Take(s, Destroy);
      steps, t := DestroyAll(u);
      Chain(s, [Destroy], u, steps, t);
      steps := [Destroy] + steps;
    }
  }

  lemma DestroyToEnd(s: State) returns (steps: seq<Step>, t: State)
    requires Inv(s) && s.phase.Destroying?
    ensures R.Run(s, steps, t) && AllGentle(steps) && Inv(t)
    ensures t == s.(res := t.res, saved := [], closings := t.closings,
                      phase := if s.phase.inCheck then Purging(0) else Poll)
  {
    hide Inv, R.Run, Bump;
    var before, u := DestroyAll(s);
    t := Take(u, DestroyEnd);
    Chain(s, before, u, [DestroyEnd], t);
    steps := before + [DestroyEnd];
  }

  lemma {:induction false} PurgeAll(s: State) returns (steps: seq<Step>, t: State)
    requires Inv(s) && s.phase.Purging?
    ensures R.Run(s, steps, t) && AllGentle(steps) && Inv(t)
    ensures t == s.(slaves := t.slaves, phase := Starting)
    decreases |s.slaves| - s.phase.i
  {
    hide Inv, R.Run;
    var st := if s.phase.i >= |s.slaves| then PurgeEnd
              else if Valid(s, s.slaves[s.phase.i]) then PurgeKeep else PurgeErase;
    var u := Take(s, st);
    if st.PurgeEnd? {
      steps, t := [st], u;
    } else {
      steps, t := PurgeAll(u);
      Chain(s, [st], u, steps, t);
      steps := [st] + steps;
    }
  }

  lemma StartOne(s: State) returns (st: Step, t: State)
    requires Inv(s) && s.phase.Starting? && (s.gc.None? || s.gc.value.done)
    ensures R.Run(s, [st], t) && Gentle(st) && Inv(t)
    ensures t == s.(gc := t.gc, newcomers := [], started := t.started, phase := Fixing)
    ensures if s.newcomers == [] then t.gc.None? else t.gc.Some? && !t.gc.value.done
  {
    hide Inv, Merge;
    st := StartGc(s.newcomers != []);
    t := Take(s, st);
  }

  /** Garbage is saved for destruction when nothing can refer to it any more. */
  lemma FixAll(s: State) returns (st: Step, t: State)
    requires Inv(s) && s.phase.Fixing? && AllIdle(s)
    ensures R.Run(s, [st], t) && Gentle(st) && Inv(t)
    ensures t == s.(res := t.res, garbage := t.garbage, saved := t.saved, closings := t.closings, phase := t.phase)
    ensures if s.garbage != [] && s.requests == [] && s.gc.None? && s.newcomers == []
            then t.phase == Destroying(false) && t.saved == s.garbage && t.garbage == []
            else t == s.(phase := Poll)
  {
    assert |s.jobs| <= MAX_WORKERS;
    hide Inv, Bump;
    st := Fix(Idles(|s.jobs|), {});
    t := Take(s, st);
    assert All(FirstFlags(Idles(|s.jobs|)));
  }

  function Rank(p: Phase): nat {
    match p
    case Poll => 0
    case Destroying(inCheck) => if inCheck then 5 else 1
    case Fixing => 2
    case Starting => 3
    case Purging(_) => 4
  }

  lemma {:induction false} ToPoll(s: State) returns (steps: seq<Step>, t: State)
    requires Inv(s) && Calm(s)
    ensures R.Run(s, steps, t) && AllGentle(steps) && Inv(t) && t.phase.Poll? && SameThreads(s, t)
    ensures t.gc.None? || t.gc == s.gc || !t.gc.value.done
    decreases Rank(s.phase)
  {
    hide Inv, R.Run;
    steps, t := [], s;
    Stay(s);
    if !s.phase.Poll? {
      var first, u;
      if s.phase.Destroying? {
        first, u := DestroyToEnd(s);
      } else if s.phase.Purging? {
        first, u := PurgeAll(s);
      } else if s.phase.Starting? {
        var st;
        st, u := Unstarted(s);
        first := [st];
      } else {
        var st;
        st, u := FixAll(s);
        first := [st];
      }
      steps, t := ToPoll(u);
      Chain(s, first, u, steps, t);
      steps := first + steps;
    }
  }

  lemma Unstarted(s: State) returns (st: Step, t: State)
    requires Inv(s) && s.phase.Starting? && Calm(s)
    ensures R.Run(s, [st], t) && Gentle(st) && Inv(t) && Calm(t) && t.phase.Fixing? && SameThreads(s, t) && t.gc.None?
  {
    hide Inv;
    st := StartGc(false);
    t := Take(s, st);
  }

  lemma {:induction false} DropAll(s: State) returns (steps: seq<Step>, t: State)
    requires Inv(s) && s.phase.Poll?
    ensures R.Run(s, steps, t) && AllGentle(steps) && Inv(t) && t.phase.Poll? && t.drops == []
    ensures SameThreads(s, t) && t.gc == s.gc
    decreases |s.drops|
  {
    hide Inv, R.Run, Bump;
    if s.drops == [] {
      Stay(s);
      steps, t := [], s;
    } else {
      var u := Take(s, ProcessDrop(false));
      steps, t := DropAll(u);
      Chain(s, [ProcessDrop(false)], u, steps, t);
      steps := [ProcessDrop(false)] + steps;
    }
  }

  // ---------------------------------------------------------------- a whole round

  /** With all workers seen idle every request completes. */
  lemma CheckAll(s: State) returns (st: Step, t: State)
    requires Inv(s) && A.Spare(s) && s.phase.Poll? && AllIdle(s)
    ensures R.Run(s, [st], t) && Gentle(st) && Inv(t)
    ensures t == s.(requests := [], newcomers := t.newcomers, phase := t.phase)
    ensures t.phase == Destroying(true) || (t.phase == Purging(0) && t.saved == [])
    ensures s.requests == [] ==> t.newcomers == s.newcomers
  {
    st := IntervalCheck(Idles(|s.jobs|));
    AllComplete(s);
    t := Take(s, st);
    NothingWaits(MarkAll(s.requests, st.idle));
    if !t.phase.Destroying? { Emptied(t); }
    if s.requests == [] { NothingFired(MarkAll(s.requests, st.idle)); }
  }

  lemma AllComplete(s: State)
    requires Inv(s) && A.Spare(s)
    ensures var rs := MarkAll(s.requests, Idles(|s.jobs|)); forall q :: q in rs ==> All(q.flags)
  {
    hide Tabled, Opened, Counted, Dropping, Using, Working, Alive, Joining, Scanning, Unlisted, Reclaiming, Purged;
    var rs := MarkAll(s.requests, Idles(|s.jobs|));
    forall q | q in rs
      ensures All(q.flags)
    {
      var i :| 0 <= i < |rs| && rs[i] == q;
      assert q == Request(Mark(s.requests[i].flags, Idles(|s.jobs|)), s.requests[i].what);
    }
  }

  lemma Emptied(s: State)
    requires Inv(s) && s.requests == [] && !s.phase.Destroying?
    ensures s.saved == []
  {
    hide Tabled, Opened, Counted, Dropping, Using, Working, Alive, Joining, Scanning, Unlisted, Purged;
    R.SavedEmpty(s);
  }

  lemma NothingFired(rs: seq<Request<What>>)
    requires rs == []
    ensures Admitted(Fired(rs)) == []
  {}

  lemma {:induction false} NothingWaits(rs: seq<Request<What>>)
    requires forall q :: q in rs ==> All(q.flags)
    ensures Waiting(rs) == []
    decreases |rs|
  {
    if rs != [] {
      assert rs[|rs| - 1] in rs;
      NothingWaits(rs[..|rs| - 1]);
    }
  }

  /** One whole interval callback with everybody idle. */
  lemma Round(s: State) returns (steps: seq<Step>, t: State)
    requires Inv(s) && A.Spare(s) && Calm(s) && s.phase.Poll? && s.drops == []
    ensures R.Run(s, steps, t) && AllGentle(steps) && Inv(t) && t.phase.Poll? && SameThreads(s, t) && t.drops == []
    ensures t.requests == [] && t.newcomers == [] && t.saved == []
    ensures s.requests == [] && s.newcomers == [] ==> t.gc.None? && t.garbage == []
  {
    hide Inv, R.Run;
    var a, s1 := CheckAll(s);
    var b, s2 := UpToPurge(s1);
    var c, s3 := PurgeAll(s2);
    var d, s4 := StartOne(s3);
    var e, s5 := FixAll(s4);
    Chain(s, [a], s1, b, s2);
    Chain(s, [a] + b, s2, c, s3);
    Chain(s, [a] + b + c, s3, [d], s4);
    Chain(s, [a] + b + c + [d], s4, [e], s5);
    steps, t := [a] + b + c + [d] + [e], s5;
    if s5.phase.Destroying? {
      var f, s6 := DestroyToEnd(s5);
      Chain(s, steps, s5, f, s6);
      steps, t := steps + f, s6;
    }
  }

  lemma UpToPurge(s: State) returns (steps: seq<Step>, t: State)
    requires Inv(s) && (s.phase == Destroying(true) || (s.phase == Purging(0) && s.saved == []))
    ensures R.Run(s, steps, t) && AllGentle(steps) && Inv(t)
    ensures t == s.(res := t.res, saved := [], closings := t.closings, phase := Purging(0))
  {
    hide Inv, R.Run;
    if s.phase.Destroying? {
      steps, t := DestroyToEnd(s);
    } else {
      Stay(s);
      steps, t := [], s;
    }
  }

  // ---------------------------------------------------------------- at rest

  /**
    At rest: no job, no garbage, nothing pending; every connection that exists is open and valid, the
    slave list holds exactly the slaves, and a GC thread was started for each.
  */
  ghost predicate AtRest(s: State) {
    && s.phase.Poll? && AllOut(s) && AllIdle(s) && s.gc.None?
    && s.requests == [] && s.newcomers == [] && s.drops == [] && s.garbage == [] && s.saved == []
    && (forall id :: id in s.res ==> InTable(s, id) && s.res[id].valid && !s.res[id].closed)
    && (forall x :: x in s.slaves <==> IsSlave(s.res, x))
    && (forall x :: IsSlave(s.res, x) ==> x in s.started)
  }

  lemma RestFacts(s: State)
    requires A.Admitting(s) && s.phase.Poll? && AllOut(s) && AllIdle(s) && s.gc.None?
    requires s.requests == [] && s.newcomers == [] && s.drops == [] && s.garbage == [] && s.saved == []
    ensures AtRest(s)
  {
    forall id | id in s.res
      ensures InTable(s, id) && s.res[id].valid && !s.res[id].closed
    {
      AllValid(s, id);
    }
    hide Tabled, Opened, Counted, Dropping, Using, Working, Scanning, Unlisted, Reclaiming, Purged;
    forall x | IsSlave(s.res, x)
      ensures x in s.started
    {
      assert A.Places(s.requests, s.newcomers, s.started, x) == 1;
    }
  }

  lemma AllValid(s: State, id: Id)
    requires Tabled(s.res, s.table, s.garbage, s.saved, s.next) && Dropping(s.res, s.table, s.drops, s.uses)
    requires AllOut(s) && s.drops == [] && s.garbage == [] && s.saved == [] && id in s.res
    ensures InTable(s, id) && s.res[id].valid && !s.res[id].closed
  {
    assert Listed(s.res, s.table, id);
    assert Live(s.res, id);
  }

  /** A gentle step takes no valid connection away. */
  lemma GentleKeeps(s: State, st: Step, id: Id)
    requires Inv(s) && Guard(s, st) && Gentle(st) && Live(s.res, id)
    ensures |s.jobs| <= MAX_WORKERS && WellFormed(s.requests) && !Faults(s, st) && Live(Do(s, st).res, id)
  {
    hide Tabled, Opened, Counted, Dropping, Using, Working, Alive, Joining, Scanning, Unlisted, Reclaiming, Purged, Do,
         Faults, Live, NoReader, FdFree, MayUse, Observed;
    R.NoFault(s, st);
    if st.ProcessDrop? {
      DropsInvalid(s, id);
      DropKeeps(s, st, id);
    } else if st.Fix? || st.Destroy? {
      if st.Destroy? { SavedInvalid(s, id); }
      ReclaimKeeps(s, st, id);
    } else {
      OthersKeep(s, st, id);
    }
  }

  lemma DropKeeps(s: State, st: Step, id: Id)
    requires Ok(s, st) && st.ProcessDrop? && Live(s.res, id) && s.drops[0] in s.table && s.table[s.drops[0]] != id
    ensures Live(Do(s, st).res, id)
  {
    hide Inv, NoReader, Bump;
  }

  lemma ReclaimKeeps(s: State, st: Step, id: Id)
    requires Ok(s, st) && (st.Fix? || st.Destroy?) && Live(s.res, id) && (st.Destroy? ==> s.saved[0] != id)
    ensures Live(Do(s, st).res, id)
  {
    hide Inv, NoReader, Bump, All, FirstFlags, Observed;
  }

  lemma OthersKeep(s: State, st: Step, id: Id)
    requires Ok(s, st) && Gentle(st) && !st.ProcessDrop? && !st.Fix? && !st.Destroy? && Live(s.res, id)
    ensures Live(Do(s, st).res, id)
  {
    hide Inv, NoReader, FdFree, MayUse, Observed, Bump, Fired, Waiting, MarkAll, All, FirstFlags, Merge, Admitted,
         Guard, Faults;
  }

  lemma DropsInvalid(s: State, id: Id)
    requires Dropping(s.res, s.table, s.drops, s.uses) && s.drops != [] && Live(s.res, id)
    ensures s.drops[0] in s.table && s.table[s.drops[0]] != id
  {
    assert s.drops[0] in s.drops;
  }

  lemma SavedInvalid(s: State, id: Id)
    requires Tabled(s.res, s.table, s.garbage, s.saved, s.next) && s.saved != [] && Live(s.res, id)
    ensures s.saved[0] != id
  {
    assert s.saved[0] in s.saved;
  }

  lemma {:induction false} GentleRun(s: State, steps: seq<Step>, t: State, id: Id)
    requires Inv(s) && R.Run(s, steps, t) && AllGentle(steps) && Live(s.res, id)
    ensures Live(t.res, id)
    decreases |steps|
  {
    hide Inv, Guard, Faults, Do, Live;
    if steps != [] {
      assert Gentle(steps[0]);
      R.StepKeeps(s, steps[0]);
      GentleKeeps(s, steps[0], id);
      GentleRun(Do(s, steps[0]), steps[1..], t, id);
    }
  }

  /**
    From every state of every run the server can come to rest, and keeps every valid connection on
    the way.
  */
  lemma ComesToRest(workers: nat, steps: seq<Step>, s: State) returns (more: seq<Step>, t: State)
    requires R.Reachable(workers, steps, s)
    ensures R.Run(s, more, t) && R.Reachable(workers, steps + more, t) && AtRest(t)
    ensures forall id :: Valid(s, id) ==> Valid(t, id)
  {
    hide Inv, R.Run, A.Once, A.Spare, AtRest, Live;
    A.ReachableOnce(workers, steps, s);
    var a, s1 := CalmDown(s);
    var b, s2 := ToPoll(s1);
    var c, s3 := DropAll(s2);
    var d, s4 := GcEnds(s3);
    Chain(s, a, s1, b, s2);
    Chain(s, a + b, s2, c, s3);
    Chain(s, a + b + c, s3, d, s4);
    A.RunKeeps(s, a + b + c + d, s4);
    var e, s5 := Round(s4);
    var f, s6 := GcEnds(s5);
    Chain(s4, e, s5, f, s6);
    A.RunKeeps(s4, e + f, s6);
    var g, s7 := Round(s6);
    A.RunKeeps(s6, g, s7);
    RestFacts(s7);
    Chain(s4, e + f, s6, g, s7);
    Chain(s, a + b + c + d, s4, e + f + g, s7);
    more, t := a + b + c + d + (e + f + g), s7;
    Chain(Init(workers), steps, s, more, t);
    forall id | Valid(s, id)
      ensures Valid(t, id)
    {
      LiveIsValid(s, t, id);
      GentleRun(s, more, t, id);
    }
  }

  lemma LiveIsValid(s: State, t: State, id: Id)
    ensures Valid(s, id) <==> Live(s.res, id)
    ensures Valid(t, id) <==> Live(t.res, id)
  {}

  // ---------------------------------------------------------------- the busy flag

  predicate Serves(jobs: seq<Job>, x: Id) { exists w :: 0 <= w < |jobs| && jobs[w] == Recv(x) }

  /** A socket is busy exactly while some worker runs its receive job. */
  ghost predicate Busy(s: State) {
    forall x :: x in s.res ==> (s.res[x].busy <==> Serves(s.jobs, x))
  }

  /** The busy flag of `x`, if `x` is still there, is what it was. */
  predicate Kept(res: map<Id, Res>, res': map<Id, Res>, x: Id) {
    x in res' ==> x in res && res'[x].busy == res[x].busy
  }

  lemma RemovedBusy(s: State, id: Id, close: bool, x: Id)
    requires InTable(s, id)
    ensures Kept(s.res, Removed(s, id, close).res, x)
  {}

  lemma SameBusy(s: State, st: Step, x: Id)
    requires F.CanDo(s, st) && !F.Works(st) && !st.AcceptClient? && !st.AcceptSlave?
    ensures Kept(s.res, Do(s, st).res, x)
  {
    hide Removed, NoReader, FdFree, MayUse, Observed, Bump, Fired, Waiting, MarkAll, All, FirstFlags, Merge, Admitted,
         WellFormed;
    match st {
      case ReactorRemove(id, close) => RemovedBusy(s, id, close, x);
      case ProcessDrop(close) => RemovedBusy(s, s.table[s.drops[0]], close, x);
      case PurgeTimeout(close) => RemovedBusy(s, s.slaves[s.phase.i], close, x);
      case Fix(_, _) =>
      case _ => RestBusy(s, st, x);
    }
  }

  lemma RestBusy(s: State, st: Step, x: Id)
    requires F.CanDo(s, st) && !F.Works(st) && !st.AcceptClient? && !st.AcceptSlave?
    requires !st.ReactorRemove? && !st.ProcessDrop? && !st.PurgeTimeout? && !st.Fix?
    ensures Kept(s.res, Do(s, st).res, x)
  {
    hide Removed, NoReader, FdFree, MayUse, Observed, Bump, Fired, Waiting, MarkAll, All, FirstFlags, Merge, Admitted,
         WellFormed, InTable, GcReadyForReactor, Guard;
  }

  lemma NoJobYet(s: State)
    requires Inv(s)
    ensures s.next !in s.res && !Serves(s.jobs, s.next)
  {
    hide Opened, Counted, Dropping, Using, Working, Joining, Scanning, Unlisted, Reclaiming, Purged;
    forall w | 0 <= w < |s.jobs|
      ensures s.jobs[w] != Recv(s.next)
    {
      assert JobRefers(s.res, s.jobs[w], s.next) ==> s.next in s.res;
    }
  }

  lemma NewIdle(s: State, st: Step, x: Id)
    requires F.CanDo(s, st) && (st.AcceptClient? || st.AcceptSlave?) && x in Do(s, st).res
    ensures if x == s.next then !Do(s, st).res[x].busy else Kept(s.res, Do(s, st).res, x)
  {
    hide FirstFlags, All, FdFree, Observed, WellFormed;
  }

  lemma WorkBusy(s: State, st: Step, x: Id)
    requires Ok(s, st) && F.Works(st) && x in Do(s, st).res && Busy(s)
    ensures Do(s, st).res[x].busy <==> Serves(Do(s, st).jobs, x)
  {
    hide Tabled, Opened, Counted, Dropping, Using, Alive, Joining, Scanning, Unlisted, Reclaiming, Purged, InTable;
    var jobs := Do(s, st).jobs;
    assert forall w :: 0 <= w < |jobs| && w != st.w ==> jobs[w] == s.jobs[w];
    if Serves(s.jobs, x) {
      var w :| 0 <= w < |s.jobs| && s.jobs[w] == Recv(x);
      if w != st.w { assert jobs[w] == Recv(x); }
    }
    if Serves(jobs, x) {
      var w :| 0 <= w < |jobs| && jobs[w] == Recv(x);
      if w != st.w { assert s.jobs[w] == Recv(x); }
    }
    if st.PostRecv? { assert jobs[st.w] == Recv(st.id); }
  }

  lemma BusyKeeps(s: State, st: Step)
    requires Ok(s, st) && Busy(s)
    ensures Busy(Do(s, st))
  {
    hide Tabled, Opened, Counted, Dropping, Using, Working, Alive, Joining, Scanning, Unlisted, Reclaiming, Purged, Do,
         Guard, Faults, Serves;
    NoJobYet(s);
    if !F.Works(st) { F.SameJobs(s, st); }
    forall x | x in Do(s, st).res
      ensures Do(s, st).res[x].busy <==> Serves(Do(s, st).jobs, x)
    {
      if F.Works(st) {
        WorkBusy(s, st, x);
      } else if st.AcceptClient? || st.AcceptSlave? {
        NewIdle(s, st, x);
      } else {
        SameBusy(s, st, x);
      }
    }
  }

  lemma {:induction false} BusyRun(s: State, steps: seq<Step>, t: State)
    requires Inv(s) && Busy(s) && R.Run(s, steps, t)
    ensures Busy(t)
    decreases |steps|
  {
    hide Inv, Busy, Guard, Faults, Do;
    if steps != [] {
      R.StepKeeps(s, steps[0]);
      R.Merely(s, steps[0]);
      BusyKeeps(s, steps[0]);
      BusyRun(Do(s, steps[0]), steps[1..], t);
    }
  }

  /** In every run a socket is busy exactly while one worker runs its receive job, and one only. */
  lemma BusyExactly(workers: nat, steps: seq<Step>, t: State, x: Id)
    requires R.Reachable(workers, steps, t) && x in t.res
    ensures t.res[x].busy <==> Serves(t.jobs, x)
    ensures forall v, w :: 0 <= v < w < |t.jobs| ==> !(t.jobs[v] == Recv(x) && t.jobs[w] == Recv(x))
  {
    InitInv(workers);
    BusyRun(Init(workers), steps, t);
    R.ReachableInv(workers, steps, t);
    hide Tabled, Opened, Counted, Dropping, Using, Alive, Joining, Scanning, Unlisted, Reclaiming, Purged;
  }
}
