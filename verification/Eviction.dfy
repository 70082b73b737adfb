/** One run of the memcache GC over all buckets, its statistics, and why eviction converges. */
module Eviction {
  import opened Seqs
  import opened Objects
  import opened Commands
  import World

  /** `keyOverhead` and `objectOverhead` are the sizes of the two C++ structures. */
  datatype Config = Config(memoryLimit: nat, heapLimit: nat, gcInterval: nat, keyOverhead: nat, objectOverhead: nat)

  datatype Slot = Slot(key: Key, obj: Obj)

  /** What the predicate of a run compares objects with. */
  datatype Params = Params(flush: bool, evictAge: nat, now: int, flushTime: int, newSlaves: bool)

  // ---------------------------------------------------------------- the eviction age

  function OneHour(cfg: Config): (h: nat)
    requires cfg.gcInterval >= 1
    ensures h >= 1
  {
    3600 / cfg.gcInterval + 1
  }

  function EvictAge(oldest: nat, cfg: Config): nat
    requires cfg.gcInterval >= 1
  {
    if oldest < OneHour(cfg) * 2 then (if oldest / 2 >= 1 then oldest / 2 else 1)
    else oldest - OneHour(cfg)
  }

  /** The age is positive, never above the oldest object's, and below it from 2 on. */
  lemma EvictAgeBounds(oldest: nat, cfg: Config)
    requires cfg.gcInterval >= 1
    ensures 1 <= EvictAge(oldest, cfg)
    ensures EvictAge(oldest, cfg) <= if oldest >= 1 then oldest else 1
    ensures oldest >= 2 ==> EvictAge(oldest, cfg) < oldest
  {}

  /** The least number of runs that take more than an hour. */
  lemma OneHourExactly(cfg: Config)
    requires cfg.gcInterval >= 1
    ensures (OneHour(cfg) - 1) * cfg.gcInterval <= 3600 < OneHour(cfg) * cfg.gcInterval
  {
    var q := 3600 / cfg.gcInterval;
    assert 3600 == q * cfg.gcInterval + 3600 % cfg.gcInterval;
  }

  /** Half of the oldest age while that is below two hours, an hour less from there on. */
  predicate Halved(oldest: nat, hour: nat, age: nat) {
    if oldest >= 2 * hour then age + hour == oldest
    else if oldest >= 2 then oldest - 1 <= 2 * age <= oldest
    else age == 1
  }

  lemma EvictAgeHalves(oldest: nat, cfg: Config)
    requires cfg.gcInterval >= 1
    ensures Halved(oldest, OneHour(cfg), EvictAge(oldest, cfg))
  {}

  /** An object accessed since the last run survives eviction, whatever the statistics say. */
  lemma AccessedSurvives(o: Obj, oldest: nat, cfg: Config, now: int, flushTime: int)
    requires cfg.gcInterval >= 1 && o.age == 0
    ensures World.Collects(o, false, EvictAge(oldest, cfg), now, flushTime) <==> Expired(o, now, flushTime)
  {
    EvictAgeBounds(oldest, cfg);
  }

  // ---------------------------------------------------------------- what a run leaves

  predicate Goes(s: Slot, p: Params) {
    World.Collects(s.obj, p.flush, p.evictAge, p.now, p.flushTime)
  }

  function Aged(s: Slot): Slot { s.(obj := s.obj.(age := s.obj.age + 1)) }

  /** The survivors in order, each one run older. */
  function Kept(slots: seq<Slot>, p: Params): (r: seq<Slot>)
    ensures |r| <= |slots|
  {
    if slots == [] then []
    else
      var last := slots[|slots| - 1];
      var rest := Kept(slots[..|slots| - 1], p);
      if Goes(last, p) then rest else rest + [Aged(last)]
  }

  function Larger(a: nat, b: nat): nat { if a >= b then a else b }

  function Oldest(slots: seq<Slot>): nat {
    if slots == [] then 0 else Larger(Oldest(slots[..|slots| - 1]), slots[|slots| - 1].obj.age)
  }

  function Largest(slots: seq<Slot>): nat {
    if slots == [] then 0 else Larger(Largest(slots[..|slots| - 1]), |slots[|slots| - 1].obj.data|)
  }

  function Footprint(s: Slot, cfg: Config): nat {
    cfg.keyOverhead + |s.key| + cfg.objectOverhead + if |s.obj.data| <= cfg.heapLimit then |s.obj.data| else 0
  }

  function Memory(slots: seq<Slot>, cfg: Config): nat {
    if slots == [] then 0 else Memory(slots[..|slots| - 1], cfg) + Footprint(slots[|slots| - 1], cfg)
  }

  function Pow2(k: nat): nat { if k == 0 then 1 else 2 * Pow2(k - 1) }

  /** Size classes: below 1 KiB, 4 KiB, 16 KiB, 64 KiB, 256 KiB, 1 MiB, 4 MiB, and the rest. */
  function SizeClass(n: nat): (c: nat)
    ensures c < 8
  {
    if n < 1024 then 0 else if n < 4096 then 1 else if n < 16384 then 2 else if n < 65536 then 3
    else if n < 262144 then 4 else if n < 1048576 then 5 else if n < 4194304 then 6 else 7
  }

  /** Each class reaches four times as far as the one before, the last one without end. */
  lemma SizeClassExactly(n: nat, c: nat)
    requires c < 7
    ensures SizeClass(n) <= c <==> n < 1024 * Pow2(2 * c)
  {
    assert Pow2(2) == 4 && Pow2(4) == 16 && Pow2(6) == 64 && Pow2(8) == 256 && Pow2(10) == 1024 && Pow2(12) == 4096;
  }

  function KeyBytes(slots: seq<Slot>): nat {
    if slots == [] then 0 else KeyBytes(slots[..|slots| - 1]) + |slots[|slots| - 1].key|
  }

  /** The data that are not in files. */
  function HeapBytes(slots: seq<Slot>, cfg: Config): nat {
    if slots == [] then 0
    else
      var n := |slots[|slots| - 1].obj.data|;
      HeapBytes(slots[..|slots| - 1], cfg) + if n > cfg.heapLimit then 0 else n
  }

  /** The memory counted: the two structures of every object, its key, and its data if they are on the heap. */
  lemma {:induction false} MemoryCounted(slots: seq<Slot>, cfg: Config)
    ensures Memory(slots, cfg) ==
            |slots| * (cfg.keyOverhead + cfg.objectOverhead) + KeyBytes(slots) + HeapBytes(slots, cfg)
    decreases |slots|
  {
    if slots != [] {
      var n := |slots| - 1;
      MemoryCounted(slots[..n], cfg);
      var each := cfg.keyOverhead + cfg.objectOverhead;
      assert (n + 1) * each == n * each + each;
    }
  }

  function InClass(slots: seq<Slot>, c: nat): nat {
    if slots == [] then 0
    else InClass(slots[..|slots| - 1], c) + if SizeClass(|slots[|slots| - 1].obj.data|) == c then 1 else 0
  }

  /** Why an object goes: by eviction, by expiration, or by a flush. */
  function Cause(s: Slot, p: Params): nat {
    if p.flush && !Locked(s.obj) then 0
    else if p.evictAge > 0 && s.obj.age >= p.evictAge && !Locked(s.obj) then 1
    else if Expired(s.obj, p.now, p.flushTime) then 2
    else 3
  }

  function CausedBy(slots: seq<Slot>, p: Params, c: nat): nat {
    if slots == [] then 0
    else CausedBy(slots[..|slots| - 1], p, c) + if Cause(slots[|slots| - 1], p) == c then 1 else 0
  }

  /** Nothing is counted twice: survivors, evictions, expirations and flushed objects add up. */
  lemma {:induction false} RunAddsUp(slots: seq<Slot>, p: Params)
    ensures |Kept(slots, p)| + CausedBy(slots, p, 0) + CausedBy(slots, p, 1) + CausedBy(slots, p, 2) == |slots|
    decreases |slots|
  {
    if slots != [] { RunAddsUp(slots[..|slots| - 1], p); }
  }

  /** Every survivor was there, does not match the predicate, and is one run older. */
  lemma {:induction false} KeptExactly(slots: seq<Slot>, p: Params, s: Slot)
    ensures Aged(s) in Kept(slots, p) <==> s in slots && !Goes(s, p)
    decreases |slots|
  {
    if slots != [] {
      var n := |slots| - 1;
      KeptExactly(slots[..n], p, s);
      assert slots == slots[..n] + [slots[n]];
    }
  }

  lemma {:induction false} SurvivorsAreAged(slots: seq<Slot>, p: Params, i: nat)
    requires i < |Kept(slots, p)|
    ensures exists s :: s in slots && !Goes(s, p) && Kept(slots, p)[i] == Aged(s)
    decreases |slots|
  {
    var n := |slots| - 1;
    var rest := Kept(slots[..n], p);
    if i < |rest| {
      SurvivorsAreAged(slots[..n], p, i);
      var s :| s in slots[..n] && !Goes(s, p) && rest[i] == Aged(s);
      assert s in slots && Kept(slots, p)[i] == Aged(s);
    } else {
      assert slots[n] in slots;
    }
  }

  lemma {:induction false} OldestIs(slots: seq<Slot>, i: nat)
    requires i < |slots|
    ensures slots[i].obj.age <= Oldest(slots)
    decreases |slots|
  {
    if i < |slots| - 1 { OldestIs(slots[..|slots| - 1], i); }
  }

  lemma {:induction false} OldestReached(slots: seq<Slot>)
    requires slots != []
    ensures exists i :: 0 <= i < |slots| && slots[i].obj.age == Oldest(slots)
    decreases |slots|
  {
    var n := |slots| - 1;
    if n == 0 { assert slots[..n] == [] && Oldest(slots[..n]) == 0; }
    if Oldest(slots) == slots[n].obj.age {
      assert 0 <= n < |slots|;
    } else {
      OldestReached(slots[..n]);
      var i :| 0 <= i < n && slots[..n][i].obj.age == Oldest(slots[..n]);
      assert slots[i].obj.age == Oldest(slots);
    }
  }

  // ---------------------------------------------------------------- convergence

  /** The server between two runs: the objects, and the statistics of the last run. */
  datatype State = State(slots: seq<Slot>, used: nat, oldest: nat)

  predicate NoLocks(s: State) {
    forall i :: 0 <= i < |s.slots| ==> !Locked(s.slots[i].obj)
  }

  /**
    No access since the last run, nothing locked: every object is at least one run old and the
    statistics describe the table.
  */
  ghost predicate Quiet(s: State, cfg: Config) {
    && NoLocks(s) && (forall i :: 0 <= i < |s.slots| ==> s.slots[i].obj.age >= 1)
    && s.used == Memory(s.slots, cfg) && s.oldest == Oldest(s.slots)
  }

  function RunParams(s: State, cfg: Config, now: int): Params
    requires cfg.gcInterval >= 1
  {
    Params(false, if s.used > cfg.memoryLimit then EvictAge(s.oldest, cfg) else 0, now, 0, false)
  }

  /** One run with no flush scheduled and no new slaves. */
  function AfterRun(s: State, cfg: Config, now: int): State
    requires cfg.gcInterval >= 1
  {
    var slots := Kept(s.slots, RunParams(s, cfg, now));
    State(slots, Memory(slots, cfg), Oldest(slots))
  }

  /** A run ages what it keeps and counts it afresh, so whatever the state before, it is quiet after. */
  lemma RunQuiet(s: State, cfg: Config, now: int)
    requires cfg.gcInterval >= 1 && NoLocks(s)
    ensures Quiet(AfterRun(s, cfg, now), cfg)
    ensures AfterRun(s, cfg, now).oldest <= Oldest(s.slots) + 1
  {
    var p, t := RunParams(s, cfg, now), AfterRun(s, cfg, now);
    forall i | 0 <= i < |t.slots|
      ensures 1 <= t.slots[i].obj.age <= Oldest(s.slots) + 1 && !Locked(t.slots[i].obj)
    {
      SurvivorsAreAged(s.slots, p, i);
      var x :| x in s.slots && !Goes(x, p) && t.slots[i] == Aged(x);
      var j :| 0 <= j < |s.slots| && s.slots[j] == x;
      OldestIs(s.slots, j);
    }
    if t.slots != [] { OldestReached(t.slots); }
  }

  /** A run over the limit leaves nothing as old as the eviction age was. */
  lemma OldestDrops(s: State, cfg: Config, now: int)
    requires cfg.gcInterval >= 1 && Quiet(s, cfg) && s.used > cfg.memoryLimit
    ensures AfterRun(s, cfg, now).oldest <= EvictAge(s.oldest, cfg)
    ensures EvictAge(s.oldest, cfg) == 1 ==> AfterRun(s, cfg, now).slots == []
  {
    var p, t := RunParams(s, cfg, now), AfterRun(s, cfg, now);
    EvictAgeBounds(s.oldest, cfg);
    forall i | 0 <= i < |t.slots|
      ensures t.slots[i].obj.age <= EvictAge(s.oldest, cfg) && EvictAge(s.oldest, cfg) != 1
    {
      SurvivorsAreAged(s.slots, p, i);
      var x :| x in s.slots && !Goes(x, p) && t.slots[i] == Aged(x);
    }
    if t.slots != [] { OldestReached(t.slots); }
  }

  /** Consecutive runs over the limit strictly lower the oldest age, or empty the table. */
  lemma OverLimitProgress(s: State, cfg: Config, now: int)
    requires cfg.gcInterval >= 1 && Quiet(s, cfg) && s.used > cfg.memoryLimit
    ensures var t := AfterRun(s, cfg, now); t.slots == [] || t.oldest < s.oldest
  {
    EvictAgeBounds(s.oldest, cfg);
    OldestDrops(s, cfg, now);
  }

  /** `n` runs; `clock(i)` is the time of the i-th. */
  function AfterRuns(s: State, cfg: Config, clock: nat -> int, n: nat): State
    requires cfg.gcInterval >= 1
  {
    if n == 0 then s else AfterRun(AfterRuns(s, cfg, clock, n - 1), cfg, clock(n - 1))
  }

  /** The memory is within its limit at some point of the next `n` runs. */
  ghost predicate WithinLimitBy(s: State, cfg: Config, clock: nat -> int, n: nat)
    requires cfg.gcInterval >= 1
  {
    exists i :: 0 <= i <= n && Memory(AfterRuns(s, cfg, clock, i).slots, cfg) <= cfg.memoryLimit
  }

  lemma {:induction false} StillOver(s: State, cfg: Config, clock: nat -> int, n: nat)
    requires cfg.gcInterval >= 1 && Quiet(s, cfg)
    requires forall i :: 0 <= i <= n ==> AfterRuns(s, cfg, clock, i).used > cfg.memoryLimit
    ensures var t := AfterRuns(s, cfg, clock, n); Quiet(t, cfg) && t.oldest + n <= s.oldest
  {
    if n > 0 {
      StillOver(s, cfg, clock, n - 1);
      var u := AfterRuns(s, cfg, clock, n - 1);
      assert AfterRuns(s, cfg, clock, n - 1).used > cfg.memoryLimit;
      RunQuiet(u, cfg, clock(n - 1));
      OverLimitProgress(u, cfg, clock(n - 1));
      assert AfterRuns(s, cfg, clock, n).used > cfg.memoryLimit;
    }
  }

  lemma QuietConverges(s: State, cfg: Config, clock: nat -> int)
    requires cfg.gcInterval >= 1 && Quiet(s, cfg)
    ensures exists i :: 0 <= i <= s.oldest + 1 && AfterRuns(s, cfg, clock, i).used <= cfg.memoryLimit
  {
    if forall i :: 0 <= i <= s.oldest + 1 ==> AfterRuns(s, cfg, clock, i).used > cfg.memoryLimit {
      StillOver(s, cfg, clock, s.oldest + 1);
      assert false;
    }
  }

  lemma {:induction false} FirstRun(s: State, cfg: Config, clock: nat -> int, n: nat)
    requires cfg.gcInterval >= 1
    ensures AfterRuns(s, cfg, clock, n + 1) == AfterRuns(AfterRun(s, cfg, clock(0)), cfg, (i: nat) => clock(i + 1), n)
  {
    hide AfterRun;
    if n > 0 {
      FirstRun(s, cfg, clock, n - 1);
    } else {
      assert AfterRuns(s, cfg, clock, 0) == s;
    }
  }

  /**
    Without requests and with nothing locked the server is back within its memory limit after at
    most `oldest + 3` runs, whatever ages and statistics it starts with.
  */
  lemma EvictionConverges(s: State, cfg: Config, clock: nat -> int)
    requires cfg.gcInterval >= 1 && NoLocks(s)
    ensures WithinLimitBy(s, cfg, clock, Oldest(s.slots) + 3)
  {
    var t, rest := AfterRun(s, cfg, clock(0)), (i: nat) => clock(i + 1);
    RunQuiet(s, cfg, clock(0));
    QuietConverges(t, cfg, rest);
    var i :| 0 <= i <= t.oldest + 1 && AfterRuns(t, cfg, rest, i).used <= cfg.memoryLimit;
    FirstRun(s, cfg, clock, i);
    assert Memory(AfterRuns(s, cfg, clock, i + 1).slots, cfg) <= cfg.memoryLimit;
  }

  lemma NotEmpty(s: State, cfg: Config)
    requires Quiet(s, cfg) && s.used > cfg.memoryLimit
    ensures s.slots != [] && s.oldest >= 1
  {
    OldestIs(s.slots, 0);
  }

  lemma NothingLeft(s: State, cfg: Config, clock: nat -> int)
    requires cfg.gcInterval >= 1 && s.slots == []
    ensures WithinLimitBy(s, cfg, clock, 0)
  {
    assert AfterRuns(s, cfg, clock, 0) == s;
    assert Memory(AfterRuns(s, cfg, clock, 0).slots, cfg) <= cfg.memoryLimit;
  }

  lemma Sooner(s: State, cfg: Config, clock: nat -> int, n: nat)
    requires cfg.gcInterval >= 1 && WithinLimitBy(AfterRun(s, cfg, clock(0)), cfg, (i: nat) => clock(i + 1), n)
    ensures WithinLimitBy(s, cfg, clock, n + 1)
  {
    hide AfterRun, AfterRuns, Memory;
    var t, rest := AfterRun(s, cfg, clock(0)), (i: nat) => clock(i + 1);
    var i :| 0 <= i <= n && Memory(AfterRuns(t, cfg, rest, i).slots, cfg) <= cfg.memoryLimit;
    FirstRun(s, cfg, clock, i);
    assert Memory(AfterRuns(s, cfg, clock, i + 1).slots, cfg) <= cfg.memoryLimit;
  }

  lemma Longer(s: State, cfg: Config, clock: nat -> int, n: nat, m: nat)
    requires cfg.gcInterval >= 1 && n <= m && WithinLimitBy(s, cfg, clock, n)
    ensures WithinLimitBy(s, cfg, clock, m)
  {}

  /**
    How fast: an hour of age per run while the oldest object is above two hours, and from there on
    the oldest age halves with every run.
  */
  lemma {:induction false} FastConverges(s: State, cfg: Config, clock: nat -> int, j: nat, k: nat)
    requires cfg.gcInterval >= 1 && Quiet(s, cfg)
    requires s.oldest < 2 * OneHour(cfg) + j * OneHour(cfg)
    requires if s.oldest < 2 * OneHour(cfg) then s.oldest < Pow2(k) else 2 * OneHour(cfg) <= Pow2(k)
    ensures WithinLimitBy(s, cfg, clock, j + k)
    decreases j + k
  {
    hide AfterRun, OneHour, Memory;
    assert AfterRuns(s, cfg, clock, 0) == s;
    if s.used > cfg.memoryLimit {
      var t, rest := AfterRun(s, cfg, clock(0)), (i: nat) => clock(i + 1);
      NotEmpty(s, cfg);
      RunQuiet(s, cfg, clock(0));
      OldestDrops(s, cfg, clock(0));
      EvictAgeHalves(s.oldest, cfg);
      if t.slots == [] {
        NothingLeft(t, cfg, rest);
        Sooner(s, cfg, clock, 0);
        Longer(s, cfg, clock, 1, j + k);
      } else if s.oldest >= 2 * OneHour(cfg) {
        assert j * OneHour(cfg) == (j - 1) * OneHour(cfg) + OneHour(cfg);
        FastConverges(t, cfg, rest, j - 1, k);
        Sooner(s, cfg, clock, j + k - 1);
      } else {
        FastConverges(t, cfg, rest, 0, k - 1);
        Sooner(s, cfg, clock, k - 1);
        Longer(s, cfg, clock, k, j + k);
      }
    }
  }

  // ---------------------------------------------------------------- the run itself

  datatype Stats = Stats(
    objects: nat, classes: seq<nat>, conflicts: nat, used: nat, oldest: nat, largest: nat,
    expirations: nat, evictions: nat)

  /** What the statistics of a run over `seen` objects must say. */
  ghost predicate Describes(st: Stats, seen: seq<Slot>, p: Params, cfg: Config) {
    var kept := Kept(seen, p);
    && st.objects == |kept| && st.used == Memory(kept, cfg)
    && st.oldest == Oldest(kept) && st.largest == Largest(kept)
    && st.evictions == CausedBy(seen, p, 1) && st.expirations == CausedBy(seen, p, 2)
    && |st.classes| == 8 && forall c :: 0 <= c < 8 ==> st.classes[c] == InClass(kept, c)
  }

  const NO_STATS := Stats(0, [0, 0, 0, 0, 0, 0, 0, 0], 0, 0, 0, 0, 0, 0)

  lemma KeptMore(seen: seq<Slot>, s: Slot, p: Params)
    ensures Kept(seen + [s], p) == if Goes(s, p) then Kept(seen, p) else Kept(seen, p) + [Aged(s)]
    ensures forall c :: CausedBy(seen + [s], p, c) == CausedBy(seen, p, c) + if Cause(s, p) == c then 1 else 0
  {
    assert (seen + [s])[..|seen|] == seen;
  }

  lemma SummedUp(kept: seq<Slot>, s: Slot, cfg: Config)
    ensures Memory(kept + [s], cfg) == Memory(kept, cfg) + Footprint(s, cfg)
    ensures Oldest(kept + [s]) == Larger(Oldest(kept), s.obj.age)
    ensures Largest(kept + [s]) == Larger(Largest(kept), |s.obj.data|)
    ensures forall c :: InClass(kept + [s], c) == InClass(kept, c) + if SizeClass(|s.obj.data|) == c then 1 else 0
  {
    assert (kept + [s])[..|kept|] == kept;
  }

  /** The object stays with its new age, or with age 0 when the new slaves were sent its data. */
  function Left(s: Slot, p: Params): Slot {
    if p.newSlaves then s.(obj := s.obj.(age := 0)) else Aged(s)
  }

  function LeftOf(slots: seq<Slot>, p: Params): seq<Slot> {
    if slots == [] then []
    else
      var last := slots[|slots| - 1];
      LeftOf(slots[..|slots| - 1], p) + if Goes(last, p) then [] else [Left(last, p)]
  }

  lemma LeftMore(seen: seq<Slot>, s: Slot, p: Params)
    ensures LeftOf(seen + [s], p) == LeftOf(seen, p) + if Goes(s, p) then [] else [Left(s, p)]
  {
    assert (seen + [s])[..|seen|] == seen;
  }

  lemma {:induction false} LeftIsKept(slots: seq<Slot>, p: Params)
    requires !p.newSlaves
    ensures LeftOf(slots, p) == Kept(slots, p)
    decreases |slots|
  {
    if slots != [] { LeftIsKept(slots[..|slots| - 1], p); }
  }

  /** The GC step of the whole server does to one item what this module says of an object. */
  lemma ScanItemAgrees(s: World.World, flush: bool, evictAge: nat, now: int, flushTime: int)
    requires World.GcRunning(s.p) && s.scan.todo.Some? && s.scan.todo.value != [] && s.scan.todo.value[0] in s.store
    ensures var k := s.scan.todo.value[0];
      var x := Slot(k, s.store[k].obj);
      var p := Params(flush, evictAge, now, flushTime, s.p.gc.value.newcomers != []);
      var t := World.DoScanItem(s, flush, evictAge, now, flushTime);
      && (k in t.store <==> Cause(x, p) == 3)
      && (k in t.store ==> t.store[k].obj == Left(x, p).obj)
      && t.store.Keys - {k} == s.store.Keys - {k}
  {}

  /** The predicate applied to one object: true removes it. */
  method Visit(s: Slot, p: Params, cfg: Config, st: Stats, inBucket: nat, ghost seen: seq<Slot>)
    returns (goes: bool, st': Stats, inBucket': nat)
    requires Describes(st, seen, p, cfg)
    ensures goes == Goes(s, p)
    ensures Describes(st', seen + [s], p, cfg)
    ensures inBucket' == inBucket + if goes then 0 else 1
    ensures st'.conflicts == st.conflicts + if !goes && inBucket == 1 then 1 else 0
  {
    hide Kept, CausedBy, Memory, Oldest, Largest, InClass;
    KeptMore(seen, s, p);
    st', inBucket' := st, inBucket;
    if p.flush && !Locked(s.obj) { return true, st', inBucket'; }
    if p.evictAge > 0 && s.obj.age >= p.evictAge && !Locked(s.obj) {
      st' := st.(evictions := st.evictions + 1);
      return true, st', inBucket';
    }
    if Expired(s.obj, p.now, p.flushTime) {
      st' := st.(expirations := st.expirations + 1);
      return true, st', inBucket';
    }
    var a := Aged(s);
    SummedUp(Kept(seen, p), a, cfg);
    inBucket' := inBucket + 1;
    var c := SizeClass(|a.obj.data|);
    st' := st.(
      conflicts := if inBucket' == 2 then st.conflicts + 1 else st.conflicts,
      objects := st.objects + 1,
      classes := st.classes[c := st.classes[c] + 1],
      used := st.used + Footprint(a, cfg),
      oldest := Larger(st.oldest, a.obj.age),
      largest := Larger(st.largest, |a.obj.data|));
    return false, st', inBucket';
  }

  function Conflicts(buckets: seq<seq<Slot>>): nat {
    if buckets == [] then 0
    else Conflicts(buckets[..|buckets| - 1]) + if |buckets[|buckets| - 1]| >= 2 then 1 else 0
  }

  /** One bucket, in chain order. */
  method Bucket(slots: seq<Slot>, p: Params, cfg: Config, st: Stats, ghost seen: seq<Slot>)
    returns (left: seq<Slot>, st': Stats)
    requires Describes(st, seen, p, cfg)
    ensures left == LeftOf(slots, p)
    ensures Describes(st', seen + slots, p, cfg)
    ensures st'.conflicts == st.conflicts + if |left| >= 2 then 1 else 0
  {
    hide Describes, Goes;
    left, st' := [], st;
    var inBucket := 0;
    var i := 0;
    assert seen + slots[..0] == seen;
    while i < |slots|
      invariant i <= |slots| && left == LeftOf(slots[..i], p) && inBucket == |left|
      invariant Describes(st', seen + slots[..i], p, cfg)
      invariant st'.conflicts == st.conflicts + if |left| >= 2 then 1 else 0
    {
      assert slots[..i + 1] == slots[..i] + [slots[i]];
      assert seen + slots[..i] + [slots[i]] == seen + slots[..i + 1];
      LeftMore(slots[..i], slots[i], p);
      var goes;
      goes, st', inBucket := Visit(slots[i], p, cfg, st', inBucket, seen + slots[..i]);
      if !goes { left := left + [Left(slots[i], p)]; }
      i := i + 1;
    }
    assert slots[..i] == slots;
  }

  lemma NothingSeen(p: Params, cfg: Config)
    ensures Describes(NO_STATS, [], p, cfg)
  {}

  method ChooseAge(flush: bool, used: nat, oldest: nat, cfg: Config) returns (age: nat)
    requires cfg.gcInterval >= 1
    ensures age == if !flush && used > cfg.memoryLimit then EvictAge(oldest, cfg) else 0
    ensures age > 0 <==> !flush && used > cfg.memoryLimit
    ensures age > 0 ==> Halved(oldest, 3600 / cfg.gcInterval + 1, age)
  {
    age := 0;
    if !flush && used > cfg.memoryLimit {
      var oneHour := 3600 / cfg.gcInterval + 1;
      if oldest < oneHour * 2 {
        age := Larger(1, oldest / 2);
      } else {
        age := oldest - oneHour;
      }
    }
  }

  /** `gc_thread::gc`: decide on the eviction age, then visit every bucket. */
  method RunGc(buckets: seq<seq<Slot>>, used: nat, oldest: nat, cfg: Config,
               flushTime: int, wall: int, now: int, newSlaves: bool)
    returns (left: seq<seq<Slot>>, st: Stats, ghost p: Params)
    requires cfg.gcInterval >= 1
    ensures p.flush == (flushTime != 0 && wall >= flushTime) && p.newSlaves == newSlaves
    ensures p.now == now && p.flushTime == flushTime
    ensures p.evictAge == if !p.flush && used > cfg.memoryLimit then EvictAge(oldest, cfg) else 0
    ensures |left| == |buckets| && forall i :: 0 <= i < |buckets| ==> left[i] == LeftOf(buckets[i], p)
    ensures Describes(st, Concat(buckets), p, cfg) && st.conflicts == Conflicts(left)
    ensures flushTime == 0 && !newSlaves ==>
      State(Concat(left), st.used, st.oldest) == AfterRun(State(Concat(buckets), used, oldest), cfg, now)
  {
    hide Describes, Concat, LeftOf;
    var flush := flushTime != 0 && wall >= flushTime;
    var evictAge := ChooseAge(flush, used, oldest, cfg);
    var params := Params(flush, evictAge, now, flushTime, newSlaves);
    p := params;
    left, st := [], NO_STATS;
    var i := 0;
    ConcatNothing<Slot>();
    NothingSeen(p, cfg);
    while i < |buckets|
      invariant i <= |buckets| && |left| == i
      invariant forall j :: 0 <= j < i ==> left[j] == LeftOf(buckets[j], p)
      invariant Describes(st, Concat(buckets[..i]), p, cfg) && st.conflicts == Conflicts(left)
    {
      assert buckets[..i + 1] == buckets[..i] + [buckets[i]];
      ConcatLast(buckets[..i], buckets[i]);
      var slots;
      slots, st := Bucket(buckets[i], params, cfg, st, Concat(buckets[..i]));
      assert (left + [slots])[..i] == left;
      left := left + [slots];
      i := i + 1;
    }
    assert buckets[..i] == buckets;
    if flushTime == 0 && !newSlaves {
      KeptConcat(buckets, left, p);
      StatsOf(st, Concat(buckets), p, cfg);
    }
  }

  lemma StatsOf(st: Stats, seen: seq<Slot>, p: Params, cfg: Config)
    requires Describes(st, seen, p, cfg)
    ensures st.used == Memory(Kept(seen, p), cfg) && st.oldest == Oldest(Kept(seen, p))
  {}

  lemma {:induction false} KeptAppend(a: seq<Slot>, b: seq<Slot>, p: Params)
    ensures Kept(a + b, p) == Kept(a, p) + Kept(b, p)
    decreases |b|
  {
    hide Kept, Goes, CausedBy;
    if b == [] {
      KeptNothing(p);
      assert a + b == a;
      assert Kept(a, p) + [] == Kept(a, p);
    } else {
      var n := |b| - 1;
      var c, s := b[..n], b[n];
      KeptAppend(a, c, p);
      assert b == c + [s];
      Assoc(a, c, [s]);
      KeptMore(a + c, s, p);
      KeptMore(c, s, p);
      Assoc(Kept(a, p), Kept(c, p), [Aged(s)]);
    }
  }

  lemma KeptNothing(p: Params)
    ensures Kept([], p) == []
  {}

  /** What the buckets keep is what the whole table keeps. */
  lemma {:induction false} KeptConcat(buckets: seq<seq<Slot>>, left: seq<seq<Slot>>, p: Params)
    requires !p.newSlaves && |left| == |buckets|
    requires forall i :: 0 <= i < |buckets| ==> left[i] == LeftOf(buckets[i], p)
    ensures Concat(left) == Kept(Concat(buckets), p)
    decreases |buckets|
  {
    if buckets != [] {
      var n := |buckets| - 1;
      KeptConcat(buckets[..n], left[..n], p);
      LeftIsKept(buckets[n], p);
      KeptAppend(Concat(buckets[..n]), buckets[n], p);
    }
  }
}
