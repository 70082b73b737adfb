/**
  The second internal error of the locking code happens: a run in which a closed descriptor's number
  is handed out again while its first socket still waits for destruction with a lock in its list.
*/
module WorldReuse {
  import opened Seqs
  import opened Objects
  import opened Commands
  import opened World
  import P = Protocol
  import L = WorldLocks

  const FD: nat := 5

  /** The protocol state with one worker and nothing but client sockets. */
  function Idling(res: map<Id, P.Res>, table: map<P.Fd, Id>, garbage: seq<Id>, job: P.Job,
                  removals: map<Id, nat>, closings: map<Id, nat>, next: nat): P.State
  {
    P.State(res, table, [], garbage, [], [job], [P.Out, P.Out], None, [], [], [], P.Poll, next, {}, removals, closings)
  }

  function Open(busy: bool): P.Res { P.Res(P.Client, FD, true, false, busy, []) }

  function Gone(): P.Res { P.Res(P.Client, FD, false, true, false, []) }

  /** The first socket alone, with the given job, store, list and stage. */
  function First(busy: bool, job: P.Job, store: map<Key, Item>, refs: seq<Ref>, ctx: int, stage: Stage): World {
    World(Idling(map[0 := Open(busy)], map[FD := 0], [], job, map[0 := 0], map[0 := 0], 1),
          store, if store == map[] then 0 else 1, map[0 := refs], [ctx], [stage], Scan(0, None), map[], map[])
  }

  /** The second socket with the same number; the first is garbage and still has its lock. */
  function Second(busy: bool, job: P.Job, k: Key, stage: Stage): World {
    World(Idling(map[0 := Gone(), 1 := Open(busy)], map[FD := 1], [0], job,
                 map[0 := 1, 1 := 0], map[0 := 1, 1 := 0], 2),
          map[k := Item(0, Owned())], 1, map[0 := [Ref(k, 0)], 1 := []], [FD], [stage], Scan(0, None), map[], map[])
  }

  function Plain(): Obj { NewObj([1], 0, 0) }
  function Owned(): Obj { Plain().(lock := FD) }

  /** The state between: the first socket was removed and closed. */
  function Between(k: Key): World {
    World(Idling(map[0 := Gone()], map[], [0], P.Idle, map[0 := 1], map[0 := 1], 1),
          map[k := Item(0, Owned())], 1, map[0 := [Ref(k, 0)]], [FD], [Ready], Scan(0, None), map[], map[])
  }

  lemma Arrives(cfg: Config)
    requires cfg.buckets > 0
    ensures Goes(cfg, Init(1), Proto(P.AcceptClient(FD)), First(false, P.Idle, map[], [], -1, Fresh))
  {
    assert seq(1, _ => P.Idle) == [P.Idle];
    assert seq(2, _ => P.Out) == [P.Out, P.Out];
    assert P.Init(1).jobs == [P.Idle] && P.Init(1).uses == [P.Out, P.Out];
    assert Init(1).ctxs == [-1] && Init(1).stages == [Fresh];
  }

  lemma Begins(cfg: Config)
    requires cfg.buckets > 0
    ensures Goes(cfg, First(false, P.Idle, map[], [], -1, Fresh), Proto(P.PostRecv(0, 0)),
                 First(true, P.Recv(0), map[], [], -1, Fresh))
    ensures Goes(cfg, First(true, P.Recv(0), map[], [], -1, Fresh), Begin(0),
                 First(true, P.Recv(0), map[], [], FD, Ready))
  {}

  lemma Stores(cfg: Config, k: Key)
    requires cfg.buckets > 0 && cfg.maxData >= 1 && 1 <= |k| <= MAX_KEY_LENGTH
    ensures Goes(cfg, First(true, P.Recv(0), map[], [], FD, Ready),
                 Execute(0, k, Store(Set, false, [1], 0, 0, 0), 0, 0),
                 First(true, P.Recv(0), map[k := Item(0, Plain())], [], FD, Ready))
  {}

  lemma Locks(cfg: Config, k: Key)
    requires cfg.buckets > 0 && |k| >= 1
    ensures Goes(cfg, First(true, P.Recv(0), map[k := Item(0, Plain())], [], FD, Ready), Execute(0, k, Lock, 0, 0),
                 First(true, P.Recv(0), map[k := Item(0, Owned())], [Ref(k, 0)], FD, Ready))
  {
    var s := First(true, P.Recv(0), map[k := Item(0, Plain())], [], FD, Ready);
    assert k in s.store;
    assert s.locks[0] + [Ref(k, 0)] == [Ref(k, 0)];
    assert s.locks[0 := [Ref(k, 0)]] == map[0 := [Ref(k, 0)]];
    assert s.store[k := Item(0, Owned())] == map[k := Item(0, Owned())];
  }

  lemma Ends(cfg: Config, k: Key)
    requires cfg.buckets > 0
    ensures var m := map[k := Item(0, Owned())];
      Goes(cfg, First(true, P.Recv(0), m, [Ref(k, 0)], FD, Ready), Proto(P.EndJob(0)),
           First(false, P.Done(0), m, [Ref(k, 0)], FD, Ready))
  {}

  lemma Idles(cfg: Config, k: Key)
    requires cfg.buckets > 0
    ensures var m := map[k := Item(0, Owned())];
      Goes(cfg, First(false, P.Done(0), m, [Ref(k, 0)], FD, Ready), Proto(P.GoIdle(0)),
           First(false, P.Idle, m, [Ref(k, 0)], FD, Ready))
  {}

  lemma Leaves(cfg: Config, k: Key)
    requires cfg.buckets > 0
    ensures Goes(cfg, First(false, P.Idle, map[k := Item(0, Owned())], [Ref(k, 0)], FD, Ready),
                 Proto(P.ReactorRemove(0, true)), Between(k))
  {
    var s := First(false, P.Idle, map[k := Item(0, Owned())], [Ref(k, 0)], FD, Ready);
    assert k in s.store;
    Removes(s.p);
  }

  lemma Removes(p: P.State)
    requires p == Idling(map[0 := Open(false)], map[FD := 0], [], P.Idle, map[0 := 0], map[0 := 0], 1)
    ensures P.InTable(p, 0)
    ensures P.Removed(p, 0, true) == Idling(map[0 := Gone()], map[], [0], P.Idle, map[0 := 1], map[0 := 1], 1)
  {
    assert p.table - {FD} == map[] && p.garbage + [0] == [0];
    assert P.Bump(map[0 := 0], {0}) == map[0 := 1];
  }

  lemma Returns(cfg: Config, k: Key)
    requires cfg.buckets > 0
    ensures Goes(cfg, Between(k), Proto(P.AcceptClient(FD)), Second(false, P.Idle, k, Ready))
  {}

  lemma BeginsAgain(cfg: Config, k: Key)
    requires cfg.buckets > 0
    ensures Goes(cfg, Second(false, P.Idle, k, Ready), Proto(P.PostRecv(0, 1)), Second(true, P.Recv(1), k, Fresh))
    ensures Goes(cfg, Second(true, P.Recv(1), k, Fresh), Begin(0), Second(true, P.Recv(1), k, Ready))
  {}

  lemma Fails(cfg: Config, k: Key)
    requires cfg.buckets > 0 && |k| >= 1
    ensures Guard(cfg, Second(true, P.Recv(1), k, Ready), Execute(0, k, Unlock(false), 0, 0))
    ensures Faults(cfg, Second(true, P.Recv(1), k, Ready), Execute(0, k, Unlock(false), 0, 0))
  {}

  /** From the lock held by the first connection to the job of the second. */
  lemma SecondHalf(cfg: Config, k: Key) returns (steps: seq<Step>)
    requires cfg.buckets > 0
    ensures Run(cfg, First(true, P.Recv(0), map[k := Item(0, Owned())], [Ref(k, 0)], FD, Ready), steps,
                  Second(true, P.Recv(1), k, Ready))
  {
    hide Goes, Run, Guard, Faults, Do, First, Second, Between;
    var m, refs := map[k := Item(0, Owned())], [Ref(k, 0)];
    var last := Second(true, P.Recv(1), k, Ready);
    steps := [];
    Nowhere(cfg, last);
    BeginsAgain(cfg, k);
    steps := Precede(cfg, Second(true, P.Recv(1), k, Fresh), Begin(0), last, steps, last);
    steps := Precede(cfg, Second(false, P.Idle, k, Ready), Proto(P.PostRecv(0, 1)), Second(true, P.Recv(1), k, Fresh),
                     steps, last);
    Returns(cfg, k);
    steps := Precede(cfg, Between(k), Proto(P.AcceptClient(FD)), Second(false, P.Idle, k, Ready), steps, last);
    Leaves(cfg, k);
    steps := Precede(cfg, First(false, P.Idle, m, refs, FD, Ready), Proto(P.ReactorRemove(0, true)), Between(k),
                     steps, last);
    Ends(cfg, k);
    Idles(cfg, k);
    steps := Precede(cfg, First(false, P.Done(0), m, refs, FD, Ready), Proto(P.GoIdle(0)),
                     First(false, P.Idle, m, refs, FD, Ready), steps, last);
    steps := Precede(cfg, First(true, P.Recv(0), m, refs, FD, Ready), Proto(P.EndJob(0)),
                     First(false, P.Done(0), m, refs, FD, Ready), steps, last);
  }

  /** The first connection stores an object: what leads there, in front of whatever follows. */
  lemma Beginning(cfg: Config, k: Key, rest: seq<Step>, last: World) returns (steps: seq<Step>)
    requires cfg.buckets > 0 && cfg.maxData >= 1 && 1 <= |k| <= MAX_KEY_LENGTH
    requires Run(cfg, First(true, P.Recv(0), map[k := Item(0, Plain())], [], FD, Ready), rest, last)
    ensures Run(cfg, Init(1), steps, last)
  {
    hide Goes, Run, Guard, Faults, Do, First, Init;
    Stores(cfg, k);
    steps := Precede(cfg, First(true, P.Recv(0), map[], [], FD, Ready),
                     Execute(0, k, Store(Set, false, [1], 0, 0, 0), 0, 0),
                     First(true, P.Recv(0), map[k := Item(0, Plain())], [], FD, Ready), rest, last);
    Begins(cfg);
    steps := Precede(cfg, First(true, P.Recv(0), map[], [], -1, Fresh), Begin(0),
                     First(true, P.Recv(0), map[], [], FD, Ready), steps, last);
    steps := Precede(cfg, First(false, P.Idle, map[], [], -1, Fresh), Proto(P.PostRecv(0, 0)),
                     First(true, P.Recv(0), map[], [], -1, Fresh), steps, last);
    Arrives(cfg);
    steps := Precede(cfg, Init(1), Proto(P.AcceptClient(FD)), First(false, P.Idle, map[], [], -1, Fresh), steps, last);
  }

  lemma FirstStored(cfg: Config, k: Key) returns (steps: seq<Step>)
    requires cfg.buckets > 0 && cfg.maxData >= 1 && 1 <= |k| <= MAX_KEY_LENGTH
    ensures Run(cfg, Init(1), steps, First(true, P.Recv(0), map[k := Item(0, Plain())], [], FD, Ready))
  {
    hide Run, First, Init;
    var last := First(true, P.Recv(0), map[k := Item(0, Plain())], [], FD, Ready);
    Nowhere(cfg, last);
    steps := Beginning(cfg, k, [], last);
  }

  lemma WholeRun(cfg: Config, k: Key) returns (steps: seq<Step>)
    requires cfg.buckets > 0 && cfg.maxData >= 1 && 1 <= |k| <= MAX_KEY_LENGTH
    ensures Run(cfg, Init(1), steps, Second(true, P.Recv(1), k, Ready))
  {
    hide Goes, Run, Guard, Faults, Do, First, Second, Init;
    var last := Second(true, P.Recv(1), k, Ready);
    steps := SecondHalf(cfg, k);
    Locks(cfg, k);
    steps := Precede(cfg, First(true, P.Recv(0), map[k := Item(0, Plain())], [], FD, Ready), Execute(0, k, Lock, 0, 0),
                     First(true, P.Recv(0), map[k := Item(0, Owned())], [Ref(k, 0)], FD, Ready), steps, last);
    steps := Beginning(cfg, k, steps, last);
  }

  /**
    The run exists: the new connection with the old number takes the lock for its own, and its
    unlock command fails in `remove_lock`.
  */
  lemma ReusedNumberFaults(cfg: Config, k: Key)
    requires cfg.buckets > 0 && cfg.maxData >= 1 && 1 <= |k| <= MAX_KEY_LENGTH
    ensures exists steps, s, st :: Reachable(cfg, 1, steps, s) && Guard(cfg, s, st) && Faults(cfg, s, st)
                                   && L.SharedContext(cfg, s, st) && !L.WrongContext(s, st)
  {
    hide Run, Guard, Faults, Second, L.SharedContext;
    var steps := WholeRun(cfg, k);
    var last, st := Second(true, P.Recv(1), k, Ready), Execute(0, k, Unlock(false), 0, 0);
    Fails(cfg, k);
    assert Reachable(cfg, 1, steps, last) && Guard(cfg, last, st) && Faults(cfg, last, st);
    L.RunsFaultExactly(cfg, 1, steps, last, st);
  }
}
