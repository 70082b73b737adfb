/** Eviction while connections hold locks: exactly when it brings the memory back within its limit. */
module EvictionLocks {
  import opened Objects
  import opened Eviction
  import World

  // ---------------------------------------------------------------- what stays for ever

  predicate HasLocked(slots: seq<Slot>) {
    exists i :: 0 <= i < |slots| && Locked(slots[i].obj)
  }

  /** The greatest age of a locked object, 0 if there is none. */
  function LockedAge(slots: seq<Slot>): nat {
    if slots == [] then 0
    else
      var last := slots[|slots| - 1];
      Larger(LockedAge(slots[..|slots| - 1]), if Locked(last.obj) then last.obj.age else 0)
  }

  ghost predicate NeverExpires(o: Obj, clock: nat -> int) {
    o.exptime == 0 || forall i: nat :: clock(i) < o.exptime
  }

  /**
    Locked, or so much younger than the oldest lock that the eviction age never comes down to it, and
    not to expire at any run.
  */
  ghost predicate Stays(x: Slot, cfg: Config, clock: nat -> int, locked: nat)
    requires cfg.gcInterval >= 1
  {
    Locked(x.obj) || (x.obj.age + OneHour(cfg) < locked && NeverExpires(x.obj, clock))
  }

  ghost function Residue(slots: seq<Slot>, cfg: Config, clock: nat -> int, locked: nat): seq<Slot>
    requires cfg.gcInterval >= 1
  {
    if slots == [] then []
    else
      var last := slots[|slots| - 1];
      Residue(slots[..|slots| - 1], cfg, clock, locked) + if Stays(last, cfg, clock, locked) then [last] else []
  }

  /** The statistics of the last run describe the table. */
  predicate Accurate(s: State, cfg: Config) {
    s.used == Memory(s.slots, cfg) && s.oldest == Oldest(s.slots)
  }

  lemma {:induction false} LockedAgeIs(slots: seq<Slot>, i: nat)
    requires i < |slots| && Locked(slots[i].obj)
    ensures slots[i].obj.age <= LockedAge(slots)
    decreases |slots|
  {
    if i < |slots| - 1 { LockedAgeIs(slots[..|slots| - 1], i); }
  }

  lemma {:induction false} LockedAgeReached(slots: seq<Slot>)
    ensures LockedAge(slots) > 0 ==>
      exists i :: 0 <= i < |slots| && Locked(slots[i].obj) && slots[i].obj.age == LockedAge(slots)
    decreases |slots|
  {
    if LockedAge(slots) > 0 {
      var n := |slots| - 1;
      var head := slots[..n];
      if LockedAge(head) == LockedAge(slots) {
        LockedAgeReached(head);
        var i :| 0 <= i < n && Locked(head[i].obj) && head[i].obj.age == LockedAge(head);
        assert Locked(slots[i].obj) && slots[i].obj.age == LockedAge(slots);
      } else {
        assert Locked(slots[n].obj) && slots[n].obj.age == LockedAge(slots);
      }
    }
  }

  lemma LockedAgeBelow(slots: seq<Slot>)
    ensures LockedAge(slots) <= Oldest(slots)
  {
    LockedAgeReached(slots);
    if LockedAge(slots) > 0 {
      var i :| 0 <= i < |slots| && Locked(slots[i].obj) && slots[i].obj.age == LockedAge(slots);
      OldestIs(slots, i);
    }
  }

  // ---------------------------------------------------------------- one run

  /** What stays is not taken by a run at any time of the clock. */
  lemma Spared(s: State, cfg: Config, clock: nat -> int, i: nat, x: Slot)
    requires cfg.gcInterval >= 1 && s.oldest == Oldest(s.slots) && Stays(x, cfg, clock, LockedAge(s.slots))
    ensures !Goes(x, RunParams(s, cfg, clock(i)))
  {
    LockedAgeBelow(s.slots);
  }

  lemma {:induction false} LockedAges(slots: seq<Slot>, p: Params)
    requires !p.flush
    ensures HasLocked(Kept(slots, p)) <==> HasLocked(slots)
    ensures LockedAge(Kept(slots, p)) == if HasLocked(slots) then LockedAge(slots) + 1 else 0
    ensures !HasLocked(slots) ==> LockedAge(slots) == 0
    decreases |slots|
  {
    hide HasLocked, LockedAge, World.Collects;
    if slots == [] {
      NoneLocked();
    } else {
      var n := |slots| - 1;
      var head, last := slots[..n], slots[n];
      assert slots == head + [last];
      LockedAges(head, p);
      HasLockedLast(head, last);
      if Locked(last.obj) { LockedStays(last, p); }
      if !Goes(last, p) { HasLockedLast(Kept(head, p), Aged(last)); }
    }
  }

  lemma NoneLocked()
    ensures !HasLocked([]) && LockedAge([]) == 0
  {}

  lemma LockedStays(x: Slot, p: Params)
    requires !p.flush && Locked(x.obj)
    ensures !Goes(x, p)
  {}

  lemma HasLockedLast(head: seq<Slot>, last: Slot)
    ensures HasLocked(head + [last]) <==> HasLocked(head) || Locked(last.obj)
    ensures LockedAge(head + [last]) == Larger(LockedAge(head), if Locked(last.obj) then last.obj.age else 0)
  {
    assert (head + [last])[..|head|] == head;
    if HasLocked(head) {
      var i :| 0 <= i < |head| && Locked(head[i].obj);
      assert Locked((head + [last])[i].obj);
    }
    if Locked(last.obj) { assert Locked((head + [last])[|head|].obj); }
  }

  lemma ResidueLast(head: seq<Slot>, last: Slot, cfg: Config, clock: nat -> int, locked: nat)
    requires cfg.gcInterval >= 1
    ensures Memory(Residue(head + [last], cfg, clock, locked), cfg) ==
            Memory(Residue(head, cfg, clock, locked), cfg)
            + if Stays(last, cfg, clock, locked) then Footprint(last, cfg) else 0
  {
    assert (head + [last])[..|head|] == head;
    var r := Residue(head, cfg, clock, locked);
    assert (r + [last])[..|r|] == r;
    assert r + [] == r;
  }

  /** A run that spares what stays leaves its memory as it was. */
  lemma {:induction false} ResidueKept(slots: seq<Slot>, p: Params, cfg: Config, clock: nat -> int, a: nat, b: nat)
    requires cfg.gcInterval >= 1
    requires forall x :: x in slots && Stays(x, cfg, clock, a) ==> !Goes(x, p)
    requires forall x :: x in slots ==> (Stays(Aged(x), cfg, clock, b) <==> Stays(x, cfg, clock, a))
    ensures Memory(Residue(Kept(slots, p), cfg, clock, b), cfg) == Memory(Residue(slots, cfg, clock, a), cfg)
    decreases |slots|
  {
    hide Stays, Memory, Residue;
    if slots != [] {
      var n := |slots| - 1;
      var head, last := slots[..n], slots[n];
      assert slots == head + [last];
      ResidueKept(head, p, cfg, clock, a, b);
      ResidueLast(head, last, cfg, clock, a);
      if !Goes(last, p) { ResidueLast(Kept(head, p), Aged(last), cfg, clock, b); }
    } else {
      assert Kept(slots, p) == [];
      ResidueOfNone(cfg, clock, a, b);
    }
  }

  lemma ResidueOfNone(cfg: Config, clock: nat -> int, a: nat, b: nat)
    requires cfg.gcInterval >= 1
    ensures Residue([], cfg, clock, a) == Residue([], cfg, clock, b)
  {}

  ghost function Rest(s: State, cfg: Config, clock: nat -> int): seq<Slot>
    requires cfg.gcInterval >= 1
  {
    Residue(s.slots, cfg, clock, LockedAge(s.slots))
  }

  lemma RestRun(s: State, cfg: Config, clock: nat -> int, i: nat)
    requires cfg.gcInterval >= 1 && Accurate(s, cfg)
    ensures var t := AfterRun(s, cfg, clock(i));
      Accurate(t, cfg) && Memory(Rest(t, cfg, clock), cfg) == Memory(Rest(s, cfg, clock), cfg)
  {
    hide Memory, Residue;
    var p := RunParams(s, cfg, clock(i));
    var a, b := LockedAge(s.slots), LockedAge(Kept(s.slots, p));
    LockedAges(s.slots, p);
    forall x | x in s.slots && Stays(x, cfg, clock, a)
      ensures !Goes(x, p)
    {
      Spared(s, cfg, clock, i, x);
    }
    ResidueKept(s.slots, p, cfg, clock, a, b);
  }

  // ---------------------------------------------------------------- all runs: not below the rest

  lemma {:induction false} RestRuns(s: State, cfg: Config, clock: nat -> int, n: nat)
    requires cfg.gcInterval >= 1 && Accurate(s, cfg)
    ensures var t := AfterRuns(s, cfg, clock, n);
      Accurate(t, cfg) && Memory(Rest(t, cfg, clock), cfg) == Memory(Rest(s, cfg, clock), cfg)
  {
    hide AfterRun, Rest, Accurate, Memory;
    if n > 0 {
      RestRuns(s, cfg, clock, n - 1);
      RestRun(AfterRuns(s, cfg, clock, n - 1), cfg, clock, n - 1);
    }
  }

  lemma {:induction false} ResidueBelow(slots: seq<Slot>, cfg: Config, clock: nat -> int, a: nat)
    requires cfg.gcInterval >= 1
    ensures Memory(Residue(slots, cfg, clock, a), cfg) <= Memory(slots, cfg)
    ensures (forall x :: x in slots ==> Stays(x, cfg, clock, a)) ==> Residue(slots, cfg, clock, a) == slots
    decreases |slots|
  {
    if slots != [] {
      var n := |slots| - 1;
      ResidueBelow(slots[..n], cfg, clock, a);
      assert slots == slots[..n] + [slots[n]];
      ResidueLast(slots[..n], slots[n], cfg, clock, a);
    }
  }

  // ---------------------------------------------------------------- all runs: down to the rest

  function Later(x: Slot, n: nat): Slot { x.(obj := x.obj.(age := x.obj.age + n)) }

  ghost predicate SparedUntil(o: Obj, clock: nat -> int, n: nat) {
    Locked(o) || o.exptime == 0 || forall i :: 0 <= i < n ==> clock(i) < o.exptime
  }

  /** What is there after `n` runs was there, is `n` runs older, and did not expire. */
  lemma {:induction false} Origin(s: State, cfg: Config, clock: nat -> int, n: nat, j: nat)
    requires cfg.gcInterval >= 1 && j < |AfterRuns(s, cfg, clock, n).slots|
    ensures exists x ::
      x in s.slots && AfterRuns(s, cfg, clock, n).slots[j] == Later(x, n) && SparedUntil(x.obj, clock, n)
  {
    hide AfterRun;
    if n == 0 {
      var x := s.slots[j];
      assert x in s.slots && x == Later(x, 0) && SparedUntil(x.obj, clock, 0);
    } else {
      var u := AfterRuns(s, cfg, clock, n - 1);
      var k := Survivor(u, cfg, clock(n - 1), j);
      Origin(s, cfg, clock, n - 1, k);
      var x :| x in s.slots && u.slots[k] == Later(x, n - 1) && SparedUntil(x.obj, clock, n - 1);
      assert Aged(u.slots[k]) == Later(x, n) && SparedUntil(x.obj, clock, n);
    }
  }

  lemma Survivor(u: State, cfg: Config, now: int, j: nat) returns (k: nat)
    requires cfg.gcInterval >= 1 && j < |AfterRun(u, cfg, now).slots|
    ensures k < |u.slots| && AfterRun(u, cfg, now).slots[j] == Aged(u.slots[k])
    ensures var o := u.slots[k].obj; Locked(o) || o.exptime == 0 || now < o.exptime
  {
    var p := RunParams(u, cfg, now);
    SurvivorsAreAged(u.slots, p, j);
    var y :| y in u.slots && !Goes(y, p) && Kept(u.slots, p)[j] == Aged(y);
    k :| 0 <= k < |u.slots| && u.slots[k] == y;
  }

  /** Unlocked, and within an hour of the oldest lock. */
  predicate Evictable(x: Slot, cfg: Config, locked: nat)
    requires cfg.gcInterval >= 1
  {
    !Locked(x.obj) && x.obj.age + OneHour(cfg) >= locked
  }

  predicate NoneEvictable(slots: seq<Slot>, cfg: Config)
    requires cfg.gcInterval >= 1
  {
    forall x :: x in slots ==> !Evictable(x, cfg, LockedAge(slots))
  }

  lemma {:induction false} SomeGoes(slots: seq<Slot>, p: Params, i: nat)
    requires i < |slots| && Goes(slots[i], p)
    ensures |Kept(slots, p)| < |slots|
    decreases |slots|
  {
    if i < |slots| - 1 { SomeGoes(slots[..|slots| - 1], p, i); }
  }

  /** Old enough, a run over the limit takes something as long as anything can be taken. */
  lemma OneLess(s: State, cfg: Config, now: int)
    requires cfg.gcInterval >= 1 && Accurate(s, cfg) && s.used > cfg.memoryLimit
    requires s.oldest >= 2 * OneHour(cfg) && !NoneEvictable(s.slots, cfg)
    ensures |AfterRun(s, cfg, now).slots| < |s.slots|
  {
    var p := RunParams(s, cfg, now);
    var x :| x in s.slots && Evictable(x, cfg, LockedAge(s.slots));
    var i :| 0 <= i < |s.slots| && s.slots[i] == x;
    OldestReached(s.slots);
    var j :| 0 <= j < |s.slots| && s.slots[j].obj.age == Oldest(s.slots);
    if Locked(s.slots[j].obj) {
      LockedAgeIs(s.slots, j);
      SomeGoes(s.slots, p, i);
    } else {
      SomeGoes(s.slots, p, j);
    }
  }

  lemma StillNone(s: State, cfg: Config, now: int)
    requires cfg.gcInterval >= 1 && NoneEvictable(s.slots, cfg)
    ensures NoneEvictable(AfterRun(s, cfg, now).slots, cfg)
  {
    var p, t := RunParams(s, cfg, now), AfterRun(s, cfg, now);
    LockedAges(s.slots, p);
    forall y | y in t.slots
      ensures !Evictable(y, cfg, LockedAge(t.slots))
    {
      var j :| 0 <= j < |t.slots| && t.slots[j] == y;
      SurvivorsAreAged(s.slots, p, j);
      var x :| x in s.slots && !Goes(x, p) && y == Aged(x);
      assert !Evictable(x, cfg, LockedAge(s.slots));
    }
  }

  ghost predicate OverUntil(s: State, cfg: Config, clock: nat -> int, n: nat)
    requires cfg.gcInterval >= 1
  {
    forall i :: 0 <= i < n ==> Memory(AfterRuns(s, cfg, clock, i).slots, cfg) > cfg.memoryLimit
  }

  lemma OldAfter(s: State, cfg: Config, clock: nat -> int, n: nat)
    requires cfg.gcInterval >= 1 && AfterRuns(s, cfg, clock, n).slots != []
    ensures Oldest(AfterRuns(s, cfg, clock, n).slots) >= n
  {
    hide AfterRuns;
    Origin(s, cfg, clock, n, 0);
    OldestIs(AfterRuns(s, cfg, clock, n).slots, 0);
  }

  /** Past the first two hours every run over the limit takes one more, until nothing can be taken. */
  lemma {:induction false} Drained(s: State, cfg: Config, clock: nat -> int, k: nat)
    requires cfg.gcInterval >= 1 && Accurate(s, cfg) && OverUntil(s, cfg, clock, 2 * OneHour(cfg) + k)
    ensures var t := AfterRuns(s, cfg, clock, 2 * OneHour(cfg) + k);
      NoneEvictable(t.slots, cfg) || |t.slots| + k <= |s.slots|
  {
    hide AfterRun, NoneEvictable, OneHour, Accurate, Memory;
    var n := 2 * OneHour(cfg) + k;
    if k == 0 {
      NeverMore(s, cfg, clock, n);
    } else {
      Drained(s, cfg, clock, k - 1);
      DrainedRun(s, cfg, clock, n - 1);
    }
  }

  lemma {:induction false} NeverMore(s: State, cfg: Config, clock: nat -> int, n: nat)
    requires cfg.gcInterval >= 1
    ensures |AfterRuns(s, cfg, clock, n).slots| <= |s.slots|
  {
    if n > 0 { NeverMore(s, cfg, clock, n - 1); }
  }

  lemma DrainedRun(s: State, cfg: Config, clock: nat -> int, n: nat)
    requires cfg.gcInterval >= 1 && Accurate(s, cfg) && OverUntil(s, cfg, clock, n + 1) && n >= 2 * OneHour(cfg)
    ensures var u, t := AfterRuns(s, cfg, clock, n), AfterRuns(s, cfg, clock, n + 1);
      if NoneEvictable(u.slots, cfg) then NoneEvictable(t.slots, cfg) else |t.slots| < |u.slots|
  {
    hide AfterRun, NoneEvictable, OneHour, Memory;
    var u := AfterRuns(s, cfg, clock, n);
    RestRuns(s, cfg, clock, n);
    if NoneEvictable(u.slots, cfg) {
      StillNone(u, cfg, clock(n));
    } else {
      SomeEvictable(u.slots, cfg);
      OldAfter(s, cfg, clock, n);
      OneLess(u, cfg, clock(n));
    }
  }

  lemma SomeEvictable(slots: seq<Slot>, cfg: Config)
    requires cfg.gcInterval >= 1 && !NoneEvictable(slots, cfg)
    ensures slots != []
  {}

  lemma {:induction false} NoneFromThen(s: State, cfg: Config, clock: nat -> int, n: nat, m: nat)
    requires cfg.gcInterval >= 1 && n <= m && NoneEvictable(AfterRuns(s, cfg, clock, n).slots, cfg)
    ensures NoneEvictable(AfterRuns(s, cfg, clock, m).slots, cfg)
    decreases m
  {
    hide AfterRun, NoneEvictable;
    if n < m {
      NoneFromThen(s, cfg, clock, n, m - 1);
      StillNone(AfterRuns(s, cfg, clock, m - 1), cfg, clock(m - 1));
    }
  }

  /** By some run, everything that ever expires has done so. */
  lemma {:induction false} ExpiredBy(slots: seq<Slot>, clock: nat -> int) returns (n: nat)
    ensures forall x :: x in slots && !Locked(x.obj) && SparedUntil(x.obj, clock, n) ==> NeverExpires(x.obj, clock)
    decreases |slots|
  {
    n := 0;
    if slots != [] {
      var last := slots[|slots| - 1];
      assert slots == slots[..|slots| - 1] + [last];
      var m := ExpiredBy(slots[..|slots| - 1], clock);
      n := m;
      if !NeverExpires(last.obj, clock) {
        var i: nat :| clock(i) >= last.obj.exptime;
        n := m + i + 1;
      }
      SparedLonger(slots, clock, m, n);
    }
  }

  lemma SparedLonger(slots: seq<Slot>, clock: nat -> int, m: nat, n: nat)
    requires m <= n
    ensures forall x :: x in slots && SparedUntil(x.obj, clock, n) ==> SparedUntil(x.obj, clock, m)
  {}

  /** Over the limit all the time, after enough runs only what stays for ever is left. */
  lemma OnlyTheRest(s: State, cfg: Config, clock: nat -> int) returns (n: nat)
    requires cfg.gcInterval >= 1 && Accurate(s, cfg)
    ensures OverUntil(s, cfg, clock, n) ==>
      forall x :: x in AfterRuns(s, cfg, clock, n).slots ==>
        Stays(x, cfg, clock, LockedAge(AfterRuns(s, cfg, clock, n).slots))
  {
    hide AfterRuns, OneHour, Memory;
    var e := ExpiredBy(s.slots, clock);
    var d := 2 * OneHour(cfg) + |s.slots|;
    n := d + e;
    if OverUntil(s, cfg, clock, n) {
      var t := AfterRuns(s, cfg, clock, n);
      Drained(s, cfg, clock, |s.slots|);
      NoneFromThen(s, cfg, clock, d, n);
      SparedLonger(s.slots, clock, e, n);
      forall y | y in t.slots
        ensures Stays(y, cfg, clock, LockedAge(t.slots))
      {
        var j :| 0 <= j < |t.slots| && t.slots[j] == y;
        Origin(s, cfg, clock, n, j);
        var x :| x in s.slots && y == Later(x, n) && SparedUntil(x.obj, clock, n);
        assert !Evictable(y, cfg, LockedAge(t.slots));
      }
    }
  }

  // ---------------------------------------------------------------- exactly when

  ghost predicate Converges(s: State, cfg: Config, clock: nat -> int)
    requires cfg.gcInterval >= 1
  {
    exists n: nat :: WithinLimitBy(s, cfg, clock, n)
  }

  /**
    Without requests the memory comes within its limit exactly if the locked objects, and those
    accessed more than an hour after the oldest of them, fit into it.
  */
  lemma ConvergesExactly(s: State, cfg: Config, clock: nat -> int)
    requires cfg.gcInterval >= 1 && Accurate(s, cfg)
    ensures Converges(s, cfg, clock) <==> Memory(Rest(s, cfg, clock), cfg) <= cfg.memoryLimit
  {
    hide AfterRuns, Residue, LockedAge, Stays, Memory;
    if Converges(s, cfg, clock) {
      var n: nat :| WithinLimitBy(s, cfg, clock, n);
      var i :| 0 <= i <= n && Memory(AfterRuns(s, cfg, clock, i).slots, cfg) <= cfg.memoryLimit;
      RestRuns(s, cfg, clock, i);
      ResidueBelow(AfterRuns(s, cfg, clock, i).slots, cfg, clock, LockedAge(AfterRuns(s, cfg, clock, i).slots));
    }
    var n := OnlyTheRest(s, cfg, clock);
    if OverUntil(s, cfg, clock, n) {
      var t := AfterRuns(s, cfg, clock, n);
      RestRuns(s, cfg, clock, n);
      ResidueBelow(t.slots, cfg, clock, LockedAge(t.slots));
      assert Memory(t.slots, cfg) == Memory(Rest(s, cfg, clock), cfg);
      if Memory(Rest(s, cfg, clock), cfg) <= cfg.memoryLimit { assert WithinLimitBy(s, cfg, clock, n); }
    } else {
      assert WithinLimitBy(s, cfg, clock, n);
    }
  }

  /** From any statistics: the first run makes them accurate. */
  lemma ConvergesFromAny(s: State, cfg: Config, clock: nat -> int)
    requires cfg.gcInterval >= 1
    ensures var t, rest := AfterRun(s, cfg, clock(0)), (i: nat) => clock(i + 1);
      Converges(s, cfg, clock) <==>
        Memory(s.slots, cfg) <= cfg.memoryLimit || Memory(Rest(t, cfg, rest), cfg) <= cfg.memoryLimit
  {
    hide AfterRun, Rest, Memory;
    var t, rest := AfterRun(s, cfg, clock(0)), (i: nat) => clock(i + 1);
    CountedAfresh(s, cfg, clock(0));
    ConvergesExactly(t, cfg, rest);
    if Converges(t, cfg, rest) {
      var n: nat :| WithinLimitBy(t, cfg, rest, n);
      var i :| 0 <= i <= n && Memory(AfterRuns(t, cfg, rest, i).slots, cfg) <= cfg.memoryLimit;
      FirstRun(s, cfg, clock, i);
      assert WithinLimitBy(s, cfg, clock, i + 1);
    }
    if Memory(s.slots, cfg) <= cfg.memoryLimit {
      assert AfterRuns(s, cfg, clock, 0) == s;
      assert WithinLimitBy(s, cfg, clock, 0);
    }
    if Converges(s, cfg, clock) {
      var n: nat :| WithinLimitBy(s, cfg, clock, n);
      var i :| 0 <= i <= n && Memory(AfterRuns(s, cfg, clock, i).slots, cfg) <= cfg.memoryLimit;
      if i > 0 {
        FirstRun(s, cfg, clock, i - 1);
        assert WithinLimitBy(t, cfg, rest, i - 1);
      }
    }
  }

  lemma CountedAfresh(s: State, cfg: Config, now: int)
    requires cfg.gcInterval >= 1
    ensures Accurate(AfterRun(s, cfg, now), cfg)
  {}

  // ---------------------------------------------------------------- a lock that holds eviction up

  const SMALL := Config(100, 1000, 3600, 0, 0)

  /** 60 bytes under a one-byte key. */
  function Sixty(key: int, age: nat, lock: int): Slot
    requires 0 <= key < 256
  {
    Slot([key], Obj(seq(60, _ => 0), 0, 0, 1, age, lock))
  }

  /** Locked four runs ago, and accessed last run; the limit of 100 bytes has room for one of them. */
  function HeldUp(): State {
    State([Sixty(1, 4, 5), Sixty(2, 1, UNLOCKED)], 122, 4)
  }

  /** The eviction age follows the locked object, and the other one never reaches it. */
  lemma LockHoldsUpEviction(clock: nat -> int)
    ensures Accurate(HeldUp(), SMALL) && !Converges(HeldUp(), SMALL, clock)
    ensures Memory([HeldUp().slots[0]], SMALL) <= SMALL.memoryLimit
  {
    var s := HeldUp();
    var a, b := s.slots[0], s.slots[1];
    assert s.slots == [a] + [b] && s.slots[..1] == [a] && [a][..0] == [];
    assert OneHour(SMALL) == 2;
    assert Oldest([a]) == 4 && LockedAge([a]) == 4 && Memory([a], SMALL) == 61;
    assert Residue([a], SMALL, clock, 4) == [a];
    ConvergesExactly(s, SMALL, clock);
  }
}
