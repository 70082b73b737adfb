/** The counter object: consumption in 32 bits, and its maximum over the current interval. */
module CounterObjects {
  import opened Seqs
  import opened Objects

  datatype Counter = Counter(consumption: nat, max: nat, last: nat)

  /** Start of the statistics interval that `t` lies in. */
  function Boundary(t: nat, interval: nat): (b: nat)
    requires interval > 0
    ensures b <= t < b + interval
  {
    t / interval * interval
  }

  function Max(a: int, b: int): int { if a >= b then a else b }

  function NewCounter(n: nat, now: nat): Counter { Counter(n, n, now) }

  /** The sum is taken in 32 bits before it is compared. */
  function Acquired(c: Counter, n: nat, maximum: nat, now: nat, interval: nat): Option<Counter>
    requires interval > 0
  {
    var sum := (c.consumption + n) % TWO32;
    if sum > maximum then None
    else Some(Counter(sum, if c.last < Boundary(now, interval) then sum else Max(c.max, sum), now))
  }

  function Released(c: Counter, n: nat, now: nat, interval: nat): Option<Counter>
    requires interval > 0
  {
    if n > c.consumption then None
    else Some(Counter(c.consumption - n, if c.last < Boundary(now, interval) then c.consumption else c.max, now))
  }

  function MaxConsumption(c: Counter, now: nat, interval: nat): nat
    requires interval > 0
  {
    if c.last < Boundary(now, interval) then c.consumption else c.max
  }

  predicate Deletable(c: Counter, now: nat, interval: nat)
    requires interval > 0
  {
    c.consumption == 0 && c.last < Boundary(now, interval)
  }

  // ---------------------------------------------------------------- the interval maximum

  datatype Op = Acquire(n: nat, maximum: nat, now: nat) | Release(n: nat, now: nat)

  /** A level of consumption, and when it was reached. */
  datatype Level = Level(value: nat, since: nat)

  /** A refused operation leaves the counter alone. */
  function Applied(c: Counter, op: Op, interval: nat): Counter
    requires interval > 0
  {
    var r := match op
      case Acquire(n, maximum, now) => Acquired(c, n, maximum, now, interval)
      case Release(n, now) => Released(c, n, now, interval);
    if r.Some? then r.value else c
  }

  function RunOps(c: Counter, ops: seq<Op>, interval: nat): Counter
    requires interval > 0
  {
    if ops == [] then c else Applied(RunOps(c, ops[..|ops| - 1], interval), ops[|ops| - 1], interval)
  }

  predicate Succeeds(c: Counter, op: Op) {
    match op
    case Acquire(n, maximum, _) => (c.consumption + n) % TWO32 <= maximum
    case Release(n, _) => n <= c.consumption
  }

  predicate NoWrap(c: Counter, op: Op) {
    op.Acquire? ==> c.consumption + op.n < TWO32
  }

  /** The levels that the successful operations reached, from the first one on. */
  function History(c: Counter, ops: seq<Op>, interval: nat): (h: seq<Level>)
    requires interval > 0
    ensures |h| >= 1
  {
    if ops == [] then [Level(c.consumption, c.last)]
    else
      var before := RunOps(c, ops[..|ops| - 1], interval);
      var h := History(c, ops[..|ops| - 1], interval);
      var op := ops[|ops| - 1];
      if !Succeeds(before, op) then h
      else if op.Acquire? then h + [Level(before.consumption + op.n, op.now)]
      else h + [Level(before.consumption - op.n, op.now)]
  }

  /** The clock never goes back, and no sum wraps. */
  ghost predicate Orderly(c: Counter, ops: seq<Op>, interval: nat)
    requires interval > 0
  {
    if ops == [] then true
    else
      && Orderly(c, ops[..|ops| - 1], interval)
      && NoWrap(RunOps(c, ops[..|ops| - 1], interval), ops[|ops| - 1])
      && (if |ops| == 1 then c.last else ops[|ops| - 2].now) <= ops[|ops| - 1].now
  }

  function Latest(c: Counter, ops: seq<Op>): nat { if ops == [] then c.last else ops[|ops| - 1].now }

  /** Level i was held at some moment at or after `from`: it is the last, or the next came no earlier. */
  predicate HeldSince(h: seq<Level>, i: int, from: nat) {
    0 <= i < |h| && (i == |h| - 1 || h[i + 1].since >= from)
  }

  /** `m` is the greatest level held at or after `from`. */
  ghost predicate IsPeak(h: seq<Level>, from: nat, m: nat) {
    && (forall i :: HeldSince(h, i, from) ==> h[i].value <= m)
    && exists i :: HeldSince(h, i, from) && h[i].value == m
  }

  lemma PeakGrows(h: seq<Level>, from: nat, m: nat, v: nat, since: nat)
    requires |h| >= 1 && IsPeak(h, from, m) && from <= since
    ensures IsPeak(h + [Level(v, since)], from, Max(m, v))
  {
    var g := h + [Level(v, since)];
    var i :| HeldSince(h, i, from) && h[i].value == m;
    assert HeldSince(g, i, from) && g[i].value == m;
    assert HeldSince(g, |h|, from) && g[|h|].value == v;
    forall j | HeldSince(g, j, from)
      ensures g[j].value <= Max(m, v)
    {
      if j < |h| { assert HeldSince(h, j, from); }
    }
  }

  /** A new interval starts with the level carried in. */
  lemma PeakRestarts(h: seq<Level>, from: nat, v: nat, since: nat)
    requires |h| >= 1 && h[|h| - 1].since < from <= since
    requires forall i, j :: 0 <= i < j < |h| ==> h[i].since <= h[j].since
    ensures IsPeak(h, from, h[|h| - 1].value)
    ensures IsPeak(h + [Level(v, since)], from, Max(h[|h| - 1].value, v))
  {
    assert HeldSince(h, |h| - 1, from);
    PeakGrows(h, from, h[|h| - 1].value, v, since);
  }

  lemma {:induction false} MultipleBelow(q: nat, r: nat, interval: nat, s: nat)
    requires q < r && s < q * interval + interval
    ensures s < r * interval
    decreases r
  {
    assert r * interval == (r - 1) * interval + interval;
    if q < r - 1 { MultipleBelow(q, r - 1, interval, s); }
  }

  lemma SameInterval(s: nat, t: nat, interval: nat)
    requires interval > 0 && Boundary(t, interval) <= s <= t
    ensures Boundary(s, interval) == Boundary(t, interval)
  {
    var b, c := Boundary(s, interval), Boundary(t, interval);
    var q, r := s / interval, t / interval;
    assert b == q * interval && c == r * interval;
    if q < r {
      MultipleBelow(q, r, interval, s);
    } else if r < q {
      MultipleBelow(r, q, interval, s);
    }
  }

  lemma LaterInterval(s: nat, t: nat, interval: nat)
    requires interval > 0
    ensures s < Boundary(t, interval) <==> s / interval < t / interval
  {
    var q, r := s / interval, t / interval;
    assert s < q * interval + interval && q * interval <= s;
    if q < r {
      MultipleBelow(q, r, interval, s);
    } else {
      Multiples(r, q, interval);
    }
  }

  lemma Multiples(r: nat, q: nat, interval: nat)
    requires r <= q
    ensures r * interval <= q * interval
  {}

  /** What every operation keeps. */
  ghost predicate Tracks(c: Counter, h: seq<Level>, interval: nat)
    requires interval > 0
  {
    && |h| >= 1 && h[|h| - 1] == Level(c.consumption, c.last)
    && (forall i, j :: 0 <= i < j < |h| ==> h[i].since <= h[j].since)
    && IsPeak(h, Boundary(c.last, interval), c.max)
  }

  lemma OneOp(c: Counter, h: seq<Level>, v: nat, now: nat, interval: nat)
    requires interval > 0 && Tracks(c, h, interval) && c.last <= now
    ensures var m := if c.last < Boundary(now, interval) then Max(c.consumption, v) else Max(c.max, v);
      Tracks(Counter(v, m, now), h + [Level(v, now)], interval)
  {
    if c.last < Boundary(now, interval) {
      PeakRestarts(h, Boundary(now, interval), v, now);
    } else {
      SameInterval(c.last, now, interval);
      PeakGrows(h, Boundary(now, interval), c.max, v, now);
    }
  }

  lemma PeakCovers(c: Counter, h: seq<Level>, interval: nat)
    requires interval > 0 && Tracks(c, h, interval)
    ensures c.max >= c.consumption
  {
    assert HeldSince(h, |h| - 1, Boundary(c.last, interval));
  }

  /** One operation, successful or refused. */
  lemma OpTracks(c: Counter, h: seq<Level>, op: Op, interval: nat)
    requires interval > 0 && Tracks(c, h, interval) && c.last <= op.now && c.consumption < TWO32 && NoWrap(c, op)
    ensures var c' := Applied(c, op, interval);
      && Tracks(c', if Succeeds(c, op) then h + [Level(c'.consumption, op.now)] else h, interval)
      && c'.last <= op.now && c'.consumption < TWO32
      && (Succeeds(c, op) ==> c'.consumption == if op.Acquire? then c.consumption + op.n else c.consumption - op.n)
  {
    hide Tracks, IsPeak, Boundary;
    PeakCovers(c, h, interval);
    OneOp(c, h, Applied(c, op, interval).consumption, op.now, interval);
  }

  lemma NewPeak(n: nat, created: nat, interval: nat)
    requires interval > 0
    ensures IsPeak([Level(n, created)], Boundary(created, interval), n)
  {
    assert HeldSince([Level(n, created)], 0, Boundary(created, interval));
  }

  lemma {:induction false} Tracked(n: nat, created: nat, ops: seq<Op>, interval: nat)
    requires interval > 0 && n < TWO32 && Orderly(NewCounter(n, created), ops, interval)
    ensures var c0 := NewCounter(n, created);
      && Tracks(RunOps(c0, ops, interval), History(c0, ops, interval), interval)
      && RunOps(c0, ops, interval).last <= Latest(c0, ops)
      && RunOps(c0, ops, interval).consumption < TWO32
    decreases |ops|
  {
    hide IsPeak, Boundary;
    var c0 := NewCounter(n, created);
    if ops == [] {
      NewPeak(n, created, interval);
    } else {
      var head, op := ops[..|ops| - 1], ops[|ops| - 1];
      Tracked(n, created, head, interval);
      assert Latest(c0, head) <= op.now;
      hide Applied, Tracks, Succeeds, NoWrap;
      OpTracks(RunOps(c0, head, interval), History(c0, head, interval), op, interval);
    }
  }

  /**
    After any orderly run, `max_consumption` is the greatest level held since the boundary of the
    interval that `now` lies in, the level carried into the interval included.
  */
  lemma IntervalMaximum(n: nat, created: nat, ops: seq<Op>, interval: nat, now: nat)
    requires interval > 0 && n < TWO32 && Orderly(NewCounter(n, created), ops, interval)
    requires Latest(NewCounter(n, created), ops) <= now
    ensures var c0 := NewCounter(n, created);
      IsPeak(History(c0, ops, interval), Boundary(now, interval),
             MaxConsumption(RunOps(c0, ops, interval), now, interval))
  {
    hide IsPeak, RunOps, History, Orderly;
    var c0 := NewCounter(n, created);
    var c, h := RunOps(c0, ops, interval), History(c0, ops, interval);
    Tracked(n, created, ops, interval);
    if c.last < Boundary(now, interval) {
      PeakRestarts(h, Boundary(now, interval), 0, now);
    } else {
      SameInterval(c.last, now, interval);
    }
  }

  /** The object with its methods. */
  class CounterObject {
    const interval: nat
    var consumption: nat
    var max: nat
    var last: nat

    ghost function Value(): Counter
      reads this
    {
      Counter(consumption, max, last)
    }

    constructor (interval: nat, n: nat, now: nat)
      ensures this.interval == interval && Value() == NewCounter(n, now)
    {
      this.interval, consumption, max, last := interval, n, n, now;
    }

    method Acquire(n: nat, maximum: nat, now: nat) returns (ok: bool)
      requires interval > 0
      modifies this
      ensures ok == Acquired(old(Value()), n, maximum, now, interval).Some?
      ensures Value() == Applied(old(Value()), Op.Acquire(n, maximum, now), interval)
    {
      var sum := (consumption + n) % TWO32;
      if sum > maximum { return false; }
      if last < Boundary(now, interval) { max := sum; } else { max := Max(max, sum); }
      last := now;
      consumption := sum;
      return true;
    }

    method Release(n: nat, now: nat) returns (ok: bool)
      requires interval > 0
      modifies this
      ensures ok == Released(old(Value()), n, now, interval).Some?
      ensures Value() == Applied(old(Value()), Op.Release(n, now), interval)
    {
      if n > consumption { return false; }
      if last < Boundary(now, interval) { max := consumption; }
      last := now;
      consumption := consumption - n;
      return true;
    }
  }
}
