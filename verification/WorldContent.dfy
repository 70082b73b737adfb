/** What clients see over a whole run: a command's effect on the store, and how long it lasts. */
module WorldContent {
  import opened Seqs
  import opened Objects
  import opened Commands
  import opened CommandEffects
  import opened World
  import I = ProtocolInv
  import L = WorldLocks

  // ---------------------------------------------------------------- one command

  /** What the command sees: the descriptor number of its connection as the lock context. */
  function Seen(cfg: Config, s: World, st: Step): Env
    requires st.Execute? && Receiving(s, st.w)
  {
    Env(s.p.res[s.p.jobs[st.w].sock].fd, st.now, st.flushTime, cfg.maxData, cfg.heapLimit)
  }

  lemma SeenContext(cfg: Config, workers: nat, steps: seq<Step>, s: World, st: Step)
    requires Reachable(cfg, workers, steps, s) && st.Execute? && Guard(cfg, s, st)
    ensures Seen(cfg, s, st) == EnvOf(cfg, s, st.w, st.now, st.flushTime) && Seen(cfg, s, st).ctx != UNLOCKED
  {
    hide I.Inv, Run, BucketBusy;
    L.ReachableInv(cfg, workers, steps, s);
    L.StageContext(s, st.w);
  }

  /**
    In every run a command that succeeds leaves its content under its key, a command that fails
    leaves the whole state as it was, and no other key is touched.
  */
  lemma CommandShows(cfg: Config, workers: nat, steps: seq<Step>, s: World, st: Step)
    requires Reachable(cfg, workers, steps, s) && st.Execute? && Guard(cfg, s, st) && !Faults(cfg, s, st)
    ensures var t := Do(cfg, s, st);
      var env, entry := Seen(cfg, s, st), Lookup(s.store, st.key);
      if Succeeds(st.cmd, env, |st.key|, entry) then
        && (st.key in t.store <==> !st.cmd.Delete?)
        && (st.key in t.store ==> t.store[st.key].obj.data == DataAfter(st.cmd, env, entry))
        && forall k :: k != st.key ==> (k in t.store <==> k in s.store) && (k in s.store ==> t.store[k] == s.store[k])
      else t == s
  {
    hide I.Inv, Run, Exec, Succeeds, DataAfter, Faults, BucketBusy;
    SeenContext(cfg, workers, steps, s, st);
    var env, entry := Seen(cfg, s, st), Lookup(s.store, st.key);
    SucceedsExactly(st.cmd, env, |st.key|, entry);
    if Succeeds(st.cmd, env, |st.key|, entry) {
      LeavesData(st.cmd, env, |st.key|, entry);
    } else {
      FailureChangesNothing(st.cmd, env, |st.key|, entry);
      SameEntry(s.store, st.key, s.nextItem);
    }
  }

  lemma SameEntry(store: map<Key, Item>, k: Key, next: nat)
    ensures Updated(store, k, Lookup(store, k), next) == store
  {}

  // ---------------------------------------------------------------- until the next one

  /** A command on `k` that succeeds in writing it. */
  ghost predicate WritesKey(cfg: Config, s: World, st: Step, k: Key) {
    && st.Execute? && Receiving(s, st.w) && st.key == k && Writes(st.cmd)
    && OutcomeOf(cfg, s, st.w, k, st.cmd, st.now, st.flushTime).status.OK?
  }

  /** A command on `k` that succeeds in setting its expiration time without writing it. */
  ghost predicate TouchesKey(cfg: Config, s: World, st: Step, k: Key) {
    && st.Execute? && Receiving(s, st.w) && st.key == k && (st.cmd.Touch? || (st.cmd.Get? && st.cmd.touch.Some?))
    && OutcomeOf(cfg, s, st.w, k, st.cmd, st.now, st.flushTime).status.OK?
  }

  /** Nothing in the run writes or removes `k`. */
  ghost predicate Unwritten(cfg: Config, s: World, steps: seq<Step>, k: Key)
    requires cfg.buckets > 0
    decreases |steps|
  {
    && k in s.store
    && (steps != [] ==>
          && Guard(cfg, s, steps[0]) && !Faults(cfg, s, steps[0]) && !WritesKey(cfg, s, steps[0], k)
          && Unwritten(cfg, Do(cfg, s, steps[0]), steps[1..], k))
  }

  ghost predicate Untouched(cfg: Config, s: World, steps: seq<Step>, k: Key)
    requires cfg.buckets > 0
    decreases |steps|
  {
    steps != [] ==>
      && Guard(cfg, s, steps[0]) && !Faults(cfg, s, steps[0]) && !TouchesKey(cfg, s, steps[0], k)
      && Untouched(cfg, Do(cfg, s, steps[0]), steps[1..], k)
  }

  lemma ExecStays(c: Cmd, env: Env, keyLength: nat, o: Obj)
    requires var r := Exec(c, env, keyLength, Some(o)); r.entry.Some? && !(Writes(c) && r.status.OK?)
    ensures var r := Exec(c, env, keyLength, Some(o));
      && r.entry.value.data == o.data && r.entry.value.flags == o.flags
      && (!(r.status.OK? && (c.Touch? || (c.Get? && c.touch.Some?))) ==> r.entry.value.exptime == o.exptime)
  {}

  lemma StepStays(cfg: Config, s: World, st: Step, k: Key)
    requires cfg.buckets > 0 && Guard(cfg, s, st) && !Faults(cfg, s, st) && !WritesKey(cfg, s, st, k)
    requires k in s.store && k in Do(cfg, s, st).store
    ensures var o, o' := s.store[k].obj, Do(cfg, s, st).store[k].obj;
      o'.data == o.data && o'.flags == o.flags && (!TouchesKey(cfg, s, st, k) ==> o'.exptime == o.exptime)
  {
    hide P.Guard, P.Faults, P.Do, Exec, Collects, Find, BucketBusy, Sent, Forgotten;
    if st.Execute? && st.key == k {
      ExecStays(st.cmd, EnvOf(cfg, s, st.w, st.now, st.flushTime), |k|, s.store[k].obj);
    }
  }

  /** Data and flags stay until the next write or removal, the expiration time until the next touch. */
  lemma {:induction false} ContentStays(cfg: Config, s: World, steps: seq<Step>, t: World, k: Key)
    requires cfg.buckets > 0 && Run(cfg, s, steps, t) && Unwritten(cfg, s, steps, k)
    ensures k in t.store && t.store[k].obj.data == s.store[k].obj.data && t.store[k].obj.flags == s.store[k].obj.flags
    ensures Untouched(cfg, s, steps, k) ==> t.store[k].obj.exptime == s.store[k].obj.exptime
    decreases |steps|
  {
    hide Guard, Faults, Do, WritesKey, TouchesKey;
    if steps != [] {
      StepStays(cfg, s, steps[0], k);
      ContentStays(cfg, Do(cfg, s, steps[0]), steps[1..], t, k);
    }
  }

  /**
    Read your writes.  In every run, what a successful command left under its key is what the store
    shows at any later point up to which nothing wrote or removed the key.
  */
  lemma LastWriteShows(cfg: Config, workers: nat, before: seq<Step>, s: World, st: Step, steps: seq<Step>, t: World)
    requires Reachable(cfg, workers, before, s) && st.Execute? && Guard(cfg, s, st) && !Faults(cfg, s, st)
    requires Succeeds(st.cmd, Seen(cfg, s, st), |st.key|, Lookup(s.store, st.key)) && !st.cmd.Delete?
    requires Run(cfg, Do(cfg, s, st), steps, t) && Unwritten(cfg, Do(cfg, s, st), steps, st.key)
    ensures var env, entry := Seen(cfg, s, st), Lookup(s.store, st.key);
      && st.key in t.store && t.store[st.key].obj.data == DataAfter(st.cmd, env, entry)
      && t.store[st.key].obj.flags ==
           (if Replaces(st.cmd) then st.cmd.flags else if entry.Some? then entry.value.flags else 0)
      && (Untouched(cfg, Do(cfg, s, st), steps, st.key) && (Replaces(st.cmd) || st.cmd.Touch?) ==>
            t.store[st.key].obj.exptime == st.cmd.exptime)
  {
    hide Run, Faults, Do, Exec, DataAfter, Unwritten, Untouched, BucketBusy, Succeeds;
    var env, entry := Seen(cfg, s, st), Lookup(s.store, st.key);
    SeenContext(cfg, workers, before, s, st);
    CommandShows(cfg, workers, before, s, st);
    ContentStays(cfg, Do(cfg, s, st), steps, t, st.key);
    SucceedsExactly(st.cmd, env, |st.key|, entry);
    LeavesRest(st.cmd, env, |st.key|, entry);
    ExecutedEntry(cfg, s, st);
  }

  lemma ExecutedEntry(cfg: Config, s: World, st: Step)
    requires cfg.buckets > 0 && st.Execute? && Guard(cfg, s, st) && !Faults(cfg, s, st)
    ensures var r := OutcomeOf(cfg, s, st.w, st.key, st.cmd, st.now, st.flushTime).entry;
      Lookup(Do(cfg, s, st).store, st.key) == r
  {
    hide Exec, BucketBusy;
  }
}
