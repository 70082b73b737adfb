/**
  The worker synchronizer (src/sync.hpp): a request completes once every worker has been
  seen idle at least once since the request was made.
*/
module Sync {

  const MAX_WORKERS: nat := 64

  /** A pending request.  `what` stands for the callback that runs on completion. */
  datatype Request<T> = Request(flags: seq<bool>, what: T)

  predicate All(flags: seq<bool>) {
    forall i :: 0 <= i < |flags| ==> flags[i]
  }

  /** `idle[i]` is what the load of worker i's running flag showed, negated. */
  function Mark(flags: seq<bool>, idle: seq<bool>): (r: seq<bool>)
    requires |flags| == MAX_WORKERS && |idle| <= MAX_WORKERS
    ensures |r| == MAX_WORKERS
    ensures forall i :: 0 <= i < MAX_WORKERS ==> (r[i] <==> flags[i] || (i < |idle| && idle[i]))
  {
    seq(MAX_WORKERS, i requires 0 <= i < MAX_WORKERS => flags[i] || (i < |idle| && idle[i]))
  }

  /** Flags of a new request: idle workers and the bits no worker uses are set. */
  function FirstFlags(idle: seq<bool>): (r: seq<bool>)
    requires |idle| <= MAX_WORKERS
    ensures |r| == MAX_WORKERS
    ensures forall i :: 0 <= i < MAX_WORKERS ==> (r[i] <==> (i < |idle| ==> idle[i]))
  {
    seq(MAX_WORKERS, i requires 0 <= i < MAX_WORKERS => i < |idle| ==> idle[i])
  }

  ghost predicate WellFormed<T>(rs: seq<Request<T>>) {
    forall i :: 0 <= i < |rs| ==> |rs[i].flags| == MAX_WORKERS
  }

  /** One round of `check`, up to the callbacks: mark every request. */
  function MarkAll<T>(rs: seq<Request<T>>, idle: seq<bool>): (r: seq<Request<T>>)
    requires WellFormed(rs) && |idle| <= MAX_WORKERS
    ensures WellFormed(r) && |r| == |rs|
    ensures forall i :: 0 <= i < |rs| ==> r[i] == Request(Mark(rs[i].flags, idle), rs[i].what)
  {
    seq(|rs|, i requires 0 <= i < |rs| => Request(Mark(rs[i].flags, idle), rs[i].what))
  }

  /** The requests that stay queued, in order. */
  function Waiting<T(!new)>(rs: seq<Request<T>>): (r: seq<Request<T>>)
    ensures |r| <= |rs|
    ensures forall q :: q in r <==> q in rs && !All(q.flags)
    ensures (forall q :: q in rs ==> !All(q.flags)) ==> r == rs
  {
    if rs == [] then []
    else
      var rest := Waiting(rs[..|rs| - 1]);
      var last := rs[|rs| - 1];
      assert rs == rs[..|rs| - 1] + [last];
      if All(last.flags) then rest else rest + [last]
  }

  /** The callbacks that run, in order. */
  function Fired<T(!new)>(rs: seq<Request<T>>): (r: seq<T>)
    ensures forall q :: q in rs && All(q.flags) ==> q.what in r
    ensures forall t :: t in r ==> exists q :: q in rs && All(q.flags) && q.what == t
  {
    if rs == [] then []
    else
      var rest := Fired(rs[..|rs| - 1]);
      var last := rs[|rs| - 1];
      assert rs == rs[..|rs| - 1] + [last];
      if All(last.flags) then rest + [last.what] else rest
  }

  /** The positions are in order, and exactly those of the requests that are (not) complete. */
  ghost predicate Selects<T>(rs: seq<Request<T>>, at: seq<nat>, complete: bool) {
    && (forall k :: 0 <= k < |at| ==> at[k] < |rs|)
    && (forall k, l :: 0 <= k < l < |at| ==> at[k] < at[l])
    && forall i :: 0 <= i < |rs| ==> (i in at <==> All(rs[i].flags) == complete)
  }

  lemma SelectsNone<T(!new)>(rs: seq<Request<T>>)
    requires rs == []
    ensures Selects(rs, [], false) && Selects(rs, [], true) && Waiting(rs) == [] && Fired(rs) == []
  {}

  lemma SelectsFirst<T>(rs: seq<Request<T>>, at: seq<nat>, complete: bool)
    requires Selects(rs, at, complete)
    ensures forall k :: 0 <= k < |at| ==> at[k] < |rs|
  {}

  lemma SelectsLast<T>(rs: seq<Request<T>>, at: seq<nat>, complete: bool)
    requires rs != [] && Selects(rs[..|rs| - 1], at, complete)
    ensures var n := |rs| - 1; Selects(rs, if All(rs[n].flags) == complete then at + [n] else at, complete)
  {
    var n := |rs| - 1;
    var at' := if All(rs[n].flags) == complete then at + [n] else at;
    forall i | 0 <= i < |rs|
      ensures i in at' <==> All(rs[i].flags) == complete
    {
      if i < n { assert rs[..n][i] == rs[i]; }
    }
  }

  /** The waiting requests are the incomplete ones, each once and in the order of the queue. */
  lemma {:induction false} WaitingInOrder<T(!new)>(rs: seq<Request<T>>) returns (at: seq<nat>)
    ensures Selects(rs, at, false) && |Waiting(rs)| == |at|
    ensures forall k :: 0 <= k < |at| ==> Waiting(rs)[k] == rs[at[k]]
    decreases |rs|
  {
    hide All, Selects, Waiting, Fired;
    if rs == [] {
      at := [];
      SelectsNone(rs);
    } else {
      var n := |rs| - 1;
      at := WaitingInOrder(rs[..n]);
      SelectsLast(rs, at, false);
      assert rs == rs[..n] + [rs[n]];
      WaitingLast(rs[..n], rs[n]);
      SelectsFirst(rs[..n], at, false);
      if !All(rs[n].flags) { at := at + [n]; }
    }
  }

  /** The callbacks that run are those of the complete requests, each once and in the order of the queue. */
  lemma {:induction false} FiredInOrder<T(!new)>(rs: seq<Request<T>>) returns (at: seq<nat>)
    ensures Selects(rs, at, true) && |Fired(rs)| == |at|
    ensures forall k :: 0 <= k < |at| ==> Fired(rs)[k] == rs[at[k]].what
    decreases |rs|
  {
    hide All, Selects, Waiting, Fired;
    if rs == [] {
      at := [];
      SelectsNone(rs);
    } else {
      var n := |rs| - 1;
      at := FiredInOrder(rs[..n]);
      SelectsLast(rs, at, true);
      assert rs == rs[..n] + [rs[n]];
      WaitingLast(rs[..n], rs[n]);
      SelectsFirst(rs[..n], at, true);
      if All(rs[n].flags) { at := at + [n]; }
    }
  }

  lemma WaitingLast<T(!new)>(rs: seq<Request<T>>, q: Request<T>)
    ensures Waiting(rs + [q]) == if All(q.flags) then Waiting(rs) else Waiting(rs) + [q]
    ensures Fired(rs + [q]) == if All(q.flags) then Fired(rs) + [q.what] else Fired(rs)
  {
    assert (rs + [q])[..|rs|] == rs;
  }

  /** The worker synchronizer.  `fired` is the sequence of callbacks run so far. */
  class Syncer<T(!new)> {
    var requests: seq<Request<T>>
    ghost var fired: seq<T>

    ghost predicate Valid()
      reads this
    {
      WellFormed(requests)
    }

    constructor ()
      ensures Valid() && requests == [] && fired == []
    {
      requests, fired := [], [];
    }

    /** `add_request`: workers seen idle and unused bits are set; a complete request fires at once. */
    method AddRequest(what: T, idle: seq<bool>) returns (done: bool)
      requires Valid() && |idle| <= MAX_WORKERS
      modifies this
      ensures Valid() && done == All(FirstFlags(idle))
      ensures requests == if done then old(requests) else old(requests) + [Request(FirstFlags(idle), what)]
      ensures fired == if done then old(fired) + [what] else old(fired)
    {
      var flags := seq(MAX_WORKERS, _ => false);
      var i := 0;
      while i < |idle|
        invariant i <= |idle| && |flags| == MAX_WORKERS
        invariant forall j :: 0 <= j < MAX_WORKERS ==> flags[j] == (j < i && idle[j])
      {
        if idle[i] { flags := flags[i := true]; }
        i := i + 1;
      }
      while i < MAX_WORKERS
        invariant |idle| <= i <= MAX_WORKERS && |flags| == MAX_WORKERS
        invariant forall j :: 0 <= j < MAX_WORKERS ==> flags[j] == if j < |idle| then idle[j] else j < i
      {
        flags := flags[i := true];
        i := i + 1;
      }
      assert flags == FirstFlags(idle);
      done := All(flags);
      if done {
        fired := fired + [what];
      } else {
        requests := requests + [Request(flags, what)];
      }
    }

    /** First loop of `check`: set the bit of every idle worker in every request. */
    method MarkIdle(idle: seq<bool>)
      requires Valid() && |idle| <= MAX_WORKERS
      modifies `requests
      ensures Valid() && requests == MarkAll(old(requests), idle)
    {
      var before := requests;
      var i := 0;
      while i < |idle|
        invariant i <= |idle| && |requests| == |before| && Valid()
        invariant forall r :: 0 <= r < |before| ==>
          requests[r].what == before[r].what && MarkedTo(before[r].flags, requests[r].flags, idle, i)
      {
        if idle[i] { SetBit(i); }
        i := i + 1;
      }
      forall r | 0 <= r < |before|
        ensures requests[r] == Request(Mark(before[r].flags, idle), before[r].what)
      {
        assert MarkedTo(before[r].flags, requests[r].flags, idle, i);
        assert requests[r].flags == Mark(before[r].flags, idle);
      }
      assert requests == MarkAll(before, idle);
    }

    method SetBit(i: nat)
      requires Valid() && i < MAX_WORKERS
      modifies `requests
      ensures Valid() && |requests| == |old(requests)|
      ensures forall r :: 0 <= r < |requests| ==>
        requests[r] == Request(old(requests)[r].flags[i := true], old(requests)[r].what)
    {
      var before := requests;
      var r := 0;
      while r < |requests|
        invariant r <= |requests| == |before| && Valid()
        invariant forall k :: 0 <= k < r ==> requests[k] == Request(before[k].flags[i := true], before[k].what)
        invariant forall k :: r <= k < |before| ==> requests[k] == before[k]
      {
        requests := requests[r := Request(requests[r].flags[i := true], requests[r].what)];
        r := r + 1;
      }
    }

    /** `check`: mark, then fire and erase the complete requests while walking the list. */
    method Check(idle: seq<bool>)
      requires Valid() && |idle| <= MAX_WORKERS
      modifies this
      ensures Valid()
      ensures requests == Waiting(MarkAll(old(requests), idle))
      ensures fired == old(fired) + Fired(MarkAll(old(requests), idle))
    {
      hide Progress;
      ghost var before := fired;
      MarkIdle(idle);
      ghost var rs := requests;
      Sweep();
      SweepDone(rs, requests, fired[|before|..]);
      assert fired == before + fired[|before|..];
    }

    /** Second loop of `check`: fire and erase the complete requests while walking the list. */
    method Sweep()
      requires Valid()
      modifies this
      ensures Valid() && |fired| >= |old(fired)| && fired[..|old(fired)|] == old(fired)
      ensures Progress(old(requests), |old(requests)|, requests, fired[|old(fired)|..])
    {
      hide Progress, All;
      ghost var rs, n, f := requests, 0, [];
      var it := 0;
      SweepStart(rs);
      while it < |requests|
        invariant it <= |requests| && n <= |rs| && Valid()
        invariant Progress(rs, n, requests[..it], f) && requests[it..] == rs[n..]
        invariant fired == old(fired) + f
        decreases |requests| - it
      {
        var q := requests[it];
        SweepStep(rs, n, requests[..it], f);
        if All(q.flags) {
          fired, f := fired + [q.what], f + [q.what];
          requests := requests[..it] + requests[it + 1..];
        } else {
          assert requests[..it + 1] == requests[..it] + [q];
          it := it + 1;
        }
        n := n + 1;
      }
      assert requests[..it] == requests && n == |rs|;
    }
  }

  /** After `n` requests: `kept` stay queued and `f` were fired. */
  ghost predicate Progress<T(!new)>(rs: seq<Request<T>>, n: nat, kept: seq<Request<T>>, f: seq<T>) {
    n <= |rs| && kept == Waiting(rs[..n]) && f == Fired(rs[..n])
  }

  lemma SweepStart<T(!new)>(rs: seq<Request<T>>)
    ensures Progress(rs, 0, [], [])
  {}

  lemma SweepStep<T(!new)>(rs: seq<Request<T>>, n: nat, kept: seq<Request<T>>, f: seq<T>)
    requires n < |rs| && Progress(rs, n, kept, f)
    ensures var q := rs[n];
      if All(q.flags) then Progress(rs, n + 1, kept, f + [q.what]) else Progress(rs, n + 1, kept + [q], f)
  {
    assert rs[..n + 1] == rs[..n] + [rs[n]];
    WaitingLast(rs[..n], rs[n]);
  }

  lemma SweepDone<T(!new)>(rs: seq<Request<T>>, kept: seq<Request<T>>, f: seq<T>)
    requires Progress(rs, |rs|, kept, f)
    ensures kept == Waiting(rs) && f == Fired(rs)
  {
    assert rs[..|rs|] == rs;
  }

  /** The bits of the workers below `i` that were seen idle have been added. */
  predicate MarkedTo(flags: seq<bool>, now: seq<bool>, idle: seq<bool>, i: nat)
    requires |flags| == MAX_WORKERS && i <= |idle|
  {
    |now| == MAX_WORKERS && forall j :: 0 <= j < MAX_WORKERS ==> now[j] == (flags[j] || (j < i && idle[j]))
  }
}
