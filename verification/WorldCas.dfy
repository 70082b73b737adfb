/** What the unique numbers of objects tell over a whole run, and where they fail to. */
module WorldCas {
  import opened Seqs
  import opened Numeric
  import opened Objects
  import opened Commands
  import opened World
  import P = Protocol
  import L = WorldLocks
  import U = WorldReuse

  /** Item identities were all given out before, and unique numbers have 64 bits. */
  ghost predicate Numbered(s: World) {
    forall k :: k in s.store ==> s.store[k].id < s.nextItem && s.store[k].obj.cas < TWO64
  }

  /** The object was left alone in what a reader sees, or written once. */
  predicate AtMostOneWrite(o: Obj, o': Obj) {
    || (o'.cas == o.cas && o'.data == o.data && o'.flags == o.flags)
    || o'.cas == NextCas(o.cas)
  }

  /** The item after the step is the one before it, written at most once, or a new one. */
  ghost predicate Continues(s: World, t: World, k: Key) {
    && s.nextItem <= t.nextItem
    && (k in t.store ==>
          if k in s.store then t.store[k].id == s.store[k].id && AtMostOneWrite(s.store[k].obj, t.store[k].obj)
          else s.nextItem <= t.store[k].id < t.nextItem && t.store[k].obj.cas < TWO64)
  }

  lemma ExecWrites(c: Cmd, env: Env, keyLength: nat, o: Obj)
    requires o.cas < TWO64
    ensures var r := Exec(c, env, keyLength, Some(o)); r.entry.Some? ==> AtMostOneWrite(o, r.entry.value)
  {}

  lemma ExecCreates(c: Cmd, env: Env, keyLength: nat)
    ensures var r := Exec(c, env, keyLength, None); r.entry.Some? ==> r.entry.value.cas == 1
  {}

  lemma ExecuteContinues(cfg: Config, s: World, st: Step, k: Key)
    requires cfg.buckets > 0 && Numbered(s) && st.Execute? && Receiving(s, st.w)
    ensures Continues(s, DoExecute(cfg, s, st.w, st.key, st.cmd, st.now, st.flushTime), k)
  {
    hide Exec;
    var env := EnvOf(cfg, s, st.w, st.now, st.flushTime);
    if st.key in s.store {
      ExecWrites(st.cmd, env, |st.key|, s.store[st.key].obj);
    } else {
      ExecCreates(st.cmd, env, |st.key|);
    }
  }

  lemma StepContinues(cfg: Config, s: World, st: Step, k: Key)
    requires cfg.buckets > 0 && Numbered(s) && Guard(cfg, s, st) && !Faults(cfg, s, st)
    ensures Continues(s, Do(cfg, s, st), k)
  {
    hide P.Guard, P.Faults, P.Do, Exec, DoExecute, DoScanItem, DoProto, Find, BucketBusy, Unlocked, Continues;
    if st.Execute? {
      ExecuteContinues(cfg, s, st, k);
    } else if st.ScanItem? {
      ScanContinues(s, st, k);
    } else {
      OtherContinues(cfg, s, st, k);
    }
  }

  lemma ScanContinues(s: World, st: Step, k: Key)
    requires st.ScanItem? && GcRunning(s.p) && Numbered(s)
    requires s.scan.todo.Some? && s.scan.todo.value != [] && s.scan.todo.value[0] in s.store
    ensures Continues(s, DoScanItem(s, st.flush, st.evictAge, st.now, st.flushTime), k)
  {
    hide Collects, Sent, Forgotten;
  }

  lemma OtherContinues(cfg: Config, s: World, st: Step, k: Key)
    requires cfg.buckets > 0 && Guard(cfg, s, st) && !Faults(cfg, s, st) && !st.Execute? && !st.ScanItem?
    ensures Continues(s, Do(cfg, s, st), k)
  {
    hide P.Guard, P.Faults, P.Do, Exec, DoExecute, DoScanItem, Find, BucketBusy;
  }

  lemma StepNumbers(cfg: Config, s: World, st: Step)
    requires cfg.buckets > 0 && Numbered(s) && Guard(cfg, s, st) && !Faults(cfg, s, st)
    ensures Numbered(Do(cfg, s, st))
  {
    hide Guard, Faults, Do;
    var t := Do(cfg, s, st);
    forall k | k in t.store
      ensures t.store[k].id < t.nextItem && t.store[k].obj.cas < TWO64
    {
      StepContinues(cfg, s, st, k);
    }
  }

  /** An item that is gone does not come back; a new one has a new identity. */
  lemma {:induction false} RunContinues(cfg: Config, s: World, steps: seq<Step>, t: World, k: Key)
    requires cfg.buckets > 0 && Numbered(s) && Run(cfg, s, steps, t)
    ensures Numbered(t) && s.nextItem <= t.nextItem
    ensures k in t.store ==> t.store[k].id >= s.nextItem || (k in s.store && t.store[k].id == s.store[k].id)
    decreases |steps|
  {
    hide Guard, Faults, Do;
    if steps != [] {
      StepContinues(cfg, s, steps[0], k);
      StepNumbers(cfg, s, steps[0]);
      RunContinues(cfg, Do(cfg, s, steps[0]), steps[1..], t, k);
    }
  }

  /** Between two sights of one item its unique number counts the writes, modulo 2^64. */
  lemma {:induction false} WritesCounted(cfg: Config, s: World, steps: seq<Step>, t: World, k: Key) returns (n: nat)
    requires cfg.buckets > 0 && Numbered(s) && Run(cfg, s, steps, t)
    requires k in s.store && k in t.store && t.store[k].id == s.store[k].id
    ensures n <= |steps| && t.store[k].obj.cas == (s.store[k].obj.cas + n) % TWO64
    ensures n == 0 ==> t.store[k].obj.data == s.store[k].obj.data && t.store[k].obj.flags == s.store[k].obj.flags
    decreases |steps|
  {
    hide Guard, Faults, Do, AtMostOneWrite;
    n := 0;
    if steps != [] {
      var u := Do(cfg, s, steps[0]);
      StepContinues(cfg, s, steps[0], k);
      StepNumbers(cfg, s, steps[0]);
      RunContinues(cfg, u, steps[1..], t, k);
      var m := WritesCounted(cfg, u, steps[1..], t, k);
      n := OneMoreWrite(s.store[k].obj, u.store[k].obj, t.store[k].obj, m);
    }
  }

  lemma OneMoreWrite(o: Obj, o1: Obj, o2: Obj, m: nat) returns (n: nat)
    requires AtMostOneWrite(o, o1) && o.cas < TWO64 && o2.cas == (o1.cas + m) % TWO64
    requires m == 0 ==> o2.data == o1.data && o2.flags == o1.flags
    ensures m <= n <= m + 1 && o2.cas == (o.cas + n) % TWO64
    ensures n == 0 ==> o2.data == o.data && o2.flags == o.flags
  {
    n := if o1.cas == o.cas && o1.data == o.data && o1.flags == o.flags then m else m + 1;
  }

  /**
    The unique number detects every write.  In every run, an item that shows the same unique number
    at two points less than 2^64 steps apart has the same data and flags at both.
  */
  lemma SameNumberSameData(cfg: Config, workers: nat, before: seq<Step>, s: World, steps: seq<Step>, t: World, k: Key)
    requires Reachable(cfg, workers, before, s) && Run(cfg, s, steps, t) && |steps| < TWO64
    requires k in s.store && k in t.store && t.store[k].id == s.store[k].id && t.store[k].obj.cas == s.store[k].obj.cas
    ensures t.store[k].obj.data == s.store[k].obj.data && t.store[k].obj.flags == s.store[k].obj.flags
  {
    hide Run;
    RunContinues(cfg, Init(workers), before, s, k);
    var n := WritesCounted(cfg, s, steps, t, k);
    Unwrapped(s.store[k].obj.cas, n);
  }

  lemma Unwrapped(c: nat, n: nat)
    requires c < TWO64 && n < TWO64 && (c + n) % TWO64 == c
    ensures n == 0
  {}

  // ---------------------------------------------------------------- the same item

  /** The key is in the store at every point of the run. */
  ghost predicate Throughout(cfg: Config, s: World, steps: seq<Step>, k: Key)
    requires cfg.buckets > 0
    decreases |steps|
  {
    && k in s.store
    && (steps != [] ==>
          Guard(cfg, s, steps[0]) && !Faults(cfg, s, steps[0]) && Throughout(cfg, Do(cfg, s, steps[0]), steps[1..], k))
  }

  /** Two sights of a key are sights of one item exactly if the key was never away in between. */
  lemma {:induction false} SameItemExactly(cfg: Config, s: World, steps: seq<Step>, t: World, k: Key)
    requires cfg.buckets > 0 && Numbered(s) && Run(cfg, s, steps, t) && k in s.store && k in t.store
    ensures t.store[k].id == s.store[k].id <==> Throughout(cfg, s, steps, k)
    decreases |steps|
  {
    hide Guard, Faults, Do;
    if steps != [] {
      var u := Do(cfg, s, steps[0]);
      StepContinues(cfg, s, steps[0], k);
      StepNumbers(cfg, s, steps[0]);
      RunContinues(cfg, u, steps[1..], t, k);
      if k in u.store {
        SameItemExactly(cfg, u, steps[1..], t, k);
      }
    }
  }

  /**
    No lost update.  A write that insists on the number read at `s` and succeeds at `t` meets the data
    that was read, if the key was never away in between.
  */
  lemma NoLostUpdate(cfg: Config, workers: nat, before: seq<Step>, s: World, steps: seq<Step>, t: World, st: Step)
    requires Reachable(cfg, workers, before, s) && Run(cfg, s, steps, t) && |steps| < TWO64
    requires st.Execute? && Guard(cfg, t, st) && Writes(st.cmd)
    requires st.key in s.store && Wanted(st.cmd) == Some(s.store[st.key].obj.cas)
    requires OutcomeOf(cfg, t, st.w, st.key, st.cmd, st.now, st.flushTime).status.OK?
    ensures st.key in t.store || ((st.cmd.Increment? || st.cmd.Decrement?) && st.cmd.initial.Some?)
    ensures Throughout(cfg, s, steps, st.key) && st.key in t.store ==>
      t.store[st.key].obj.data == s.store[st.key].obj.data && t.store[st.key].obj.flags == s.store[st.key].obj.flags
  {
    hide Run, Exec, BucketBusy, P.Guard, P.Faults, Throughout;
    var k := st.key;
    RunContinues(cfg, Init(workers), before, s, k);
    RunContinues(cfg, s, steps, t, k);
    var env := EnvOf(cfg, t, st.w, st.now, st.flushTime);
    if k in t.store {
      CompareBeforeWrite(st.cmd, env, |k|, t.store[k].obj);
      SameItemExactly(cfg, s, steps, t, k);
      if Throughout(cfg, s, steps, k) {
        SameNumberSameData(cfg, workers, before, s, steps, t, k);
      }
    } else {
      WantedNeedsObject(st.cmd, env, |k|);
    }
  }

  /** Without an object only a counting command with an initial value succeeds, whatever number it insists on. */
  lemma WantedNeedsObject(c: Cmd, env: Env, keyLength: nat)
    requires Wanted(c).Some?
    ensures Exec(c, env, keyLength, None).status.OK? <==> (c.Increment? || c.Decrement?) && c.initial.Some?
  {}

  // ---------------------------------------------------------------- under a lock

  /** No step of the run gives up the lock on the key. */
  ghost predicate NeverReleased(cfg: Config, s: World, steps: seq<Step>, k: Key)
    requires cfg.buckets > 0
    decreases |steps|
  {
    steps != [] ==>
      && !L.ReleaseOn(cfg, s, steps[0], k)
      && Guard(cfg, s, steps[0]) && !Faults(cfg, s, steps[0])
      && NeverReleased(cfg, Do(cfg, s, steps[0]), steps[1..], k)
  }

  lemma {:induction false} LockedThroughout(cfg: Config, s: World, steps: seq<Step>, t: World, k: Key)
    requires cfg.buckets > 0 && L.LockInv(s) && Run(cfg, s, steps, t) && NeverReleased(cfg, s, steps, k)
    requires k in s.store && Locked(s.store[k].obj)
    ensures Throughout(cfg, s, steps, k) && k in t.store && t.store[k].obj.lock == s.store[k].obj.lock
    decreases |steps|
  {
    hide Guard, Faults, Do, L.LockInv, L.ReleaseOn;
    if steps != [] {
      L.LockEndsExactly(cfg, s, steps[0], k);
      L.StepKeeps(cfg, s, steps[0]);
      LockedThroughout(cfg, Do(cfg, s, steps[0]), steps[1..], t, k);
    }
  }

  /** While a lock is held, its object is there, stays the owner's, and its number detects every write. */
  lemma LockedNumberDetects(cfg: Config, workers: nat, before: seq<Step>, s: World, steps: seq<Step>, t: World, k: Key)
    requires Reachable(cfg, workers, before, s) && Run(cfg, s, steps, t) && |steps| < TWO64
    requires k in s.store && Locked(s.store[k].obj) && NeverReleased(cfg, s, steps, k)
    ensures k in t.store && t.store[k].obj.lock == s.store[k].obj.lock
    ensures t.store[k].obj.cas == s.store[k].obj.cas ==>
      t.store[k].obj.data == s.store[k].obj.data && t.store[k].obj.flags == s.store[k].obj.flags
  {
    hide Run, NeverReleased, Throughout, L.LockInv;
    L.ReachableInv(cfg, workers, before, s);
    LockedThroughout(cfg, s, steps, t, k);
    RunContinues(cfg, Init(workers), before, s, k);
    SameItemExactly(cfg, s, steps, t, k);
    if t.store[k].obj.cas == s.store[k].obj.cas {
      SameNumberSameData(cfg, workers, before, s, steps, t, k);
    }
  }

  // ---------------------------------------------------------------- a replaced item

  /** The first connection of WorldReuse with one object; `n` items were created so far. */
  function One(k: Key, n: nat, o: Obj): World
    requires n > 0
  {
    U.First(true, P.Recv(0), map[k := Item(n - 1, o)], [], U.FD, Ready).(nextItem := n)
  }

  function Deleted(): World {
    U.First(true, P.Recv(0), map[], [], U.FD, Ready).(nextItem := 1)
  }

  lemma Deletes(cfg: Config, k: Key)
    requires cfg.buckets > 0 && 1 <= |k| <= MAX_KEY_LENGTH
    ensures Goes(cfg, One(k, 1, U.Plain()), Execute(0, k, Delete(0), 0, 0), Deleted())
  {
    var s := One(k, 1, U.Plain());
    assert k in s.store && s.store - {k} == map[];
  }

  lemma StoresAgain(cfg: Config, k: Key)
    requires cfg.buckets > 0 && cfg.maxData >= 1 && 1 <= |k| <= MAX_KEY_LENGTH
    ensures Goes(cfg, Deleted(), Execute(0, k, Store(Set, false, [2], 0, 0, 0), 0, 0), One(k, 2, NewObj([2], 0, 0)))
  {}

  /**
    Numbers start from 1 in every new object, so a deletion in between goes unnoticed: a run in which
    other data under the same key show the number that was read.
  */
  lemma ReplacedUnnoticed(cfg: Config, k: Key)
    requires cfg.buckets > 0 && cfg.maxData >= 1 && 1 <= |k| <= MAX_KEY_LENGTH
    ensures exists before, s, steps, t :: Reachable(cfg, 1, before, s) && Run(cfg, s, steps, t)
              && k in s.store && k in t.store && t.store[k].obj.cas == s.store[k].obj.cas
              && t.store[k].obj.data != s.store[k].obj.data && !Throughout(cfg, s, steps, k)
  {
    hide Run, Guard, Faults, Do, Goes, Throughout;
    var s, t := One(k, 1, U.Plain()), One(k, 2, NewObj([2], 0, 0));
    var before := U.FirstStored(cfg, k);
    Nowhere(cfg, t);
    StoresAgain(cfg, k);
    var steps := Precede(cfg, Deleted(), Execute(0, k, Store(Set, false, [2], 0, 0, 0), 0, 0), t, [], t);
    Deletes(cfg, k);
    steps := Precede(cfg, s, Execute(0, k, Delete(0), 0, 0), Deleted(), steps, t);
    assert Reachable(cfg, 1, before, s) && Run(cfg, s, steps, t);
    SameItemExactly(cfg, s, steps, t, k);
  }
}
