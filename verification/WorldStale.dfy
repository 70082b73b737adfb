/**
  The one internal error of locking that distinct contexts leave: a job that finds its socket
  invalid when it begins keeps the context of the thread's job before it, and fails in `unlock_all`.
  This is a run that gets there.
*/
module WorldStale {
  import opened Seqs
  import opened Objects
  import opened Commands
  import opened World
  import P = Protocol
  import L = WorldLocks

  /** One worker, two client sockets with the numbers 5 and 6; the first one's lock list and state vary. */
  function Both(r0: P.Res, busy: bool, gone: bool, job: P.Job, store: map<Key, Item>, refs: seq<Ref>, ctx: int,
                stage: Stage): World
  {
    World(P.State(map[0 := r0, 1 := P.Res(P.Client, 6, true, false, busy, [])],
                  if gone then map[6 := 1] else map[5 := 0, 6 := 1], [], if gone then [0] else [], [],
                  [job], [P.Out, P.Out], None, [], [], [], P.Poll, 2, {},
                  map[0 := if gone then 1 else 0, 1 := 0], map[0 := 0, 1 := 0]),
          store, if store == map[] then 0 else 1, map[0 := refs, 1 := []], [ctx], [stage], Scan(0, None), map[], map[])
  }

  function Open(busy: bool): P.Res { P.Res(P.Client, 5, true, false, busy, []) }

  function Gone(): P.Res { P.Res(P.Client, 5, false, false, true, []) }

  function Plain(): Obj { NewObj([1], 0, 0) }
  function Owned(): Obj { Plain().(lock := 5) }

  function One(): World {
    World(P.State(map[0 := Open(false)], map[5 := 0], [], [], [], [P.Idle], [P.Out, P.Out], None, [], [], [],
                  P.Poll, 1, {}, map[0 := 0], map[0 := 0]),
          map[], 0, map[0 := []], [-1], [Fresh], Scan(0, None), map[], map[])
  }

  lemma Arrives(cfg: Config)
    requires cfg.buckets > 0
    ensures Goes(cfg, Init(1), Proto(P.AcceptClient(5)), One())
  {
    assert P.Init(1).jobs == [P.Idle] && P.Init(1).uses == [P.Out, P.Out];
    assert Init(1).ctxs == [-1] && Init(1).stages == [Fresh];
  }

  lemma ArrivesToo(cfg: Config)
    requires cfg.buckets > 0
    ensures Goes(cfg, One(), Proto(P.AcceptClient(6)), Both(Open(false), false, false, P.Idle, map[], [], -1, Fresh))
  {}

  lemma Posts(cfg: Config, store: map<Key, Item>, refs: seq<Ref>, ctx: int, stage: Stage)
    requires cfg.buckets > 0
    ensures Goes(cfg, Both(Open(false), false, false, P.Idle, store, refs, ctx, stage), Proto(P.PostRecv(0, 0)),
                 Both(Open(true), false, false, P.Recv(0), store, refs, ctx, Fresh))
  {}

  lemma PostsToo(cfg: Config, store: map<Key, Item>, refs: seq<Ref>, ctx: int, stage: Stage)
    requires cfg.buckets > 0
    ensures Goes(cfg, Both(Open(false), false, false, P.Idle, store, refs, ctx, stage), Proto(P.PostRecv(0, 1)),
                 Both(Open(false), true, false, P.Recv(1), store, refs, ctx, Fresh))
  {}

  lemma Begins(cfg: Config, store: map<Key, Item>, refs: seq<Ref>, ctx: int)
    requires cfg.buckets > 0
    ensures Goes(cfg, Both(Open(true), false, false, P.Recv(0), store, refs, ctx, Fresh), Begin(0),
                 Both(Open(true), false, false, P.Recv(0), store, refs, 5, Ready))
  {}

  lemma BeginsToo(cfg: Config, store: map<Key, Item>, refs: seq<Ref>, ctx: int)
    requires cfg.buckets > 0
    ensures Goes(cfg, Both(Open(false), true, false, P.Recv(1), store, refs, ctx, Fresh), Begin(0),
                 Both(Open(false), true, false, P.Recv(1), store, refs, 6, Ready))
  {}

  lemma Stores(cfg: Config, k: Key)
    requires cfg.buckets > 0 && cfg.maxData >= 1 && 1 <= |k| <= MAX_KEY_LENGTH
    ensures Goes(cfg, Both(Open(true), false, false, P.Recv(0), map[], [], 5, Ready),
                 Execute(0, k, Store(Set, false, [1], 0, 0, 0), 0, 0),
                 Both(Open(true), false, false, P.Recv(0), map[k := Item(0, Plain())], [], 5, Ready))
  {}

  lemma Locks(cfg: Config, k: Key)
    requires cfg.buckets > 0 && |k| >= 1
    ensures Goes(cfg, Both(Open(true), false, false, P.Recv(0), map[k := Item(0, Plain())], [], 5, Ready),
                 Execute(0, k, Lock, 0, 0),
                 Both(Open(true), false, false, P.Recv(0), map[k := Item(0, Owned())], [Ref(k, 0)], 5, Ready))
  {
    var s := Both(Open(true), false, false, P.Recv(0), map[k := Item(0, Plain())], [], 5, Ready);
    assert k in s.store;
    assert s.locks[0] + [Ref(k, 0)] == [Ref(k, 0)];
    assert s.locks[0 := [Ref(k, 0)]] == map[0 := [Ref(k, 0)], 1 := []];
  }

  lemma Ends(cfg: Config, store: map<Key, Item>, refs: seq<Ref>, ctx: int)
    requires cfg.buckets > 0
    ensures Goes(cfg, Both(Open(true), false, false, P.Recv(0), store, refs, ctx, Ready), Proto(P.EndJob(0)),
                 Both(Open(false), false, false, P.Done(0), store, refs, ctx, Ready))
  {}

  lemma EndsToo(cfg: Config, store: map<Key, Item>, refs: seq<Ref>, ctx: int)
    requires cfg.buckets > 0
    ensures Goes(cfg, Both(Open(false), true, false, P.Recv(1), store, refs, ctx, Ready), Proto(P.EndJob(0)),
                 Both(Open(false), false, false, P.Done(1), store, refs, ctx, Ready))
  {}

  lemma Idles(cfg: Config, store: map<Key, Item>, refs: seq<Ref>, ctx: int, x: Id)
    requires cfg.buckets > 0
    ensures Goes(cfg, Both(Open(false), false, false, P.Done(x), store, refs, ctx, Ready), Proto(P.GoIdle(0)),
                 Both(Open(false), false, false, P.Idle, store, refs, ctx, Ready))
  {}

  /** The reactor drops the socket between the posting of the job and its begin. */
  lemma HangsUp(cfg: Config, store: map<Key, Item>, refs: seq<Ref>, ctx: int)
    requires cfg.buckets > 0
    ensures Goes(cfg, Both(Open(true), false, false, P.Recv(0), store, refs, ctx, Fresh),
                 Proto(P.ReactorRemove(0, false)),
                 Both(Gone(), false, true, P.Recv(0), store, refs, ctx, Fresh))
  {
    var s, t := Both(Open(true), false, false, P.Recv(0), store, refs, ctx, Fresh),
                Both(Gone(), false, true, P.Recv(0), store, refs, ctx, Fresh);
    Removes(s.p, t.p);
    hide P.Removed;
  }

  lemma Removes(p: P.State, q: P.State)
    requires p == Both(Open(true), false, false, P.Recv(0), map[], [], 0, Fresh).p
    requires q == Both(Gone(), false, true, P.Recv(0), map[], [], 0, Fresh).p
    ensures P.InTable(p, 0) && P.Removed(p, 0, false) == q
  {
    assert p.table - {5} == map[6 := 1] && p.garbage + [0] == [0];
    assert P.Bump(p.removals, {0}) == map[0 := 1, 1 := 0];
  }

  lemma BeginsLate(cfg: Config, store: map<Key, Item>, refs: seq<Ref>, ctx: int)
    requires cfg.buckets > 0
    ensures Goes(cfg, Both(Gone(), false, true, P.Recv(0), store, refs, ctx, Fresh), Begin(0),
                 Both(Gone(), false, true, P.Recv(0), store, refs, ctx, Stale))
    ensures Goes(cfg, Both(Gone(), false, true, P.Recv(0), store, refs, ctx, Stale), UnlockStart(0),
                 Both(Gone(), false, true, P.Recv(0), store, refs, ctx, Unlocking(false)))
  {}

  lemma Fails(cfg: Config, k: Key)
    requires cfg.buckets > 0
    ensures var s := Both(Gone(), false, true, P.Recv(0), map[k := Item(0, Owned())], [Ref(k, 0)], 6, Unlocking(false));
      Guard(cfg, s, UnlockOne(0)) && Faults(cfg, s, UnlockOne(0)) && L.Contexts(s.p.res)
  {}

  /** From the held lock to the failing job. */
  lemma SecondHalf(cfg: Config, k: Key) returns (steps: seq<Step>)
    requires cfg.buckets > 0
    ensures var m, refs := map[k := Item(0, Owned())], [Ref(k, 0)];
      Run(cfg, Both(Open(true), false, false, P.Recv(0), m, refs, 5, Ready), steps,
            Both(Gone(), false, true, P.Recv(0), m, refs, 6, Unlocking(false)))
  {
    hide Goes, Run, Guard, Faults, Do, Both;
    var m, refs := map[k := Item(0, Owned())], [Ref(k, 0)];
    var last := Both(Gone(), false, true, P.Recv(0), m, refs, 6, Unlocking(false));
    Fails(cfg, k);
    Nowhere(cfg, last);
    BeginsLate(cfg, m, refs, 6);
    steps := Precede(cfg, Both(Gone(), false, true, P.Recv(0), m, refs, 6, Stale), UnlockStart(0), last, [], last);
    steps := Precede(cfg, Both(Gone(), false, true, P.Recv(0), m, refs, 6, Fresh), Begin(0),
                     Both(Gone(), false, true, P.Recv(0), m, refs, 6, Stale), steps, last);
    HangsUp(cfg, m, refs, 6);
    steps := Precede(cfg, Both(Open(true), false, false, P.Recv(0), m, refs, 6, Fresh),
                     Proto(P.ReactorRemove(0, false)),
                     Both(Gone(), false, true, P.Recv(0), m, refs, 6, Fresh), steps, last);
    Posts(cfg, m, refs, 6, Ready);
    steps := Precede(cfg, Both(Open(false), false, false, P.Idle, m, refs, 6, Ready), Proto(P.PostRecv(0, 0)),
                     Both(Open(true), false, false, P.Recv(0), m, refs, 6, Fresh), steps, last);
    steps := OtherJob(cfg, m, refs, steps, last);
    Idles(cfg, m, refs, 5, 0);
    steps := Precede(cfg, Both(Open(false), false, false, P.Done(0), m, refs, 5, Ready), Proto(P.GoIdle(0)),
                     Both(Open(false), false, false, P.Idle, m, refs, 5, Ready), steps, last);
    Ends(cfg, m, refs, 5);
    steps := Precede(cfg, Both(Open(true), false, false, P.Recv(0), m, refs, 5, Ready), Proto(P.EndJob(0)),
                     Both(Open(false), false, false, P.Done(0), m, refs, 5, Ready), steps, last);
  }

  /** The worker serves the second connection, and keeps its context. */
  lemma OtherJob(cfg: Config, m: map<Key, Item>, refs: seq<Ref>, rest: seq<Step>, last: World)
    returns (steps: seq<Step>)
    requires cfg.buckets > 0 && Run(cfg, Both(Open(false), false, false, P.Idle, m, refs, 6, Ready), rest, last)
    ensures Run(cfg, Both(Open(false), false, false, P.Idle, m, refs, 5, Ready), steps, last)
  {
    hide Goes, Run, Guard, Faults, Do, Both;
    Idles(cfg, m, refs, 6, 1);
    steps := Precede(cfg, Both(Open(false), false, false, P.Done(1), m, refs, 6, Ready), Proto(P.GoIdle(0)),
                     Both(Open(false), false, false, P.Idle, m, refs, 6, Ready), rest, last);
    EndsToo(cfg, m, refs, 6);
    steps := Precede(cfg, Both(Open(false), true, false, P.Recv(1), m, refs, 6, Ready), Proto(P.EndJob(0)),
                     Both(Open(false), false, false, P.Done(1), m, refs, 6, Ready), steps, last);
    BeginsToo(cfg, m, refs, 5);
    steps := Precede(cfg, Both(Open(false), true, false, P.Recv(1), m, refs, 5, Fresh), Begin(0),
                     Both(Open(false), true, false, P.Recv(1), m, refs, 6, Ready), steps, last);
    PostsToo(cfg, m, refs, 5, Ready);
    steps := Precede(cfg, Both(Open(false), false, false, P.Idle, m, refs, 5, Ready), Proto(P.PostRecv(0, 1)),
                     Both(Open(false), true, false, P.Recv(1), m, refs, 5, Fresh), steps, last);
  }

  /** The error is reached in a state where no two sockets share a number. */
  lemma StaleContextFaults(cfg: Config, k: Key)
    requires cfg.buckets > 0 && cfg.maxData >= 1 && 1 <= |k| <= MAX_KEY_LENGTH
    ensures exists steps, s, st :: Reachable(cfg, 1, steps, s) && Guard(cfg, s, st) && Faults(cfg, s, st)
                                   && L.WrongContext(s, st) && L.Contexts(s.p.res)
  {
    hide Goes, Run, Guard, Faults, Do, Both, One, Init, L.Contexts, L.WrongContext;
    var m1 := map[k := Item(0, Plain())];
    var last := Both(Gone(), false, true, P.Recv(0), map[k := Item(0, Owned())], [Ref(k, 0)], 6, Unlocking(false));
    var steps := SecondHalf(cfg, k);
    Locks(cfg, k);
    steps := Precede(cfg, Both(Open(true), false, false, P.Recv(0), m1, [], 5, Ready), Execute(0, k, Lock, 0, 0),
                     Both(Open(true), false, false, P.Recv(0), map[k := Item(0, Owned())], [Ref(k, 0)], 5, Ready),
                     steps, last);
    Stores(cfg, k);
    steps := Precede(cfg, Both(Open(true), false, false, P.Recv(0), map[], [], 5, Ready),
                     Execute(0, k, Store(Set, false, [1], 0, 0, 0), 0, 0),
                     Both(Open(true), false, false, P.Recv(0), m1, [], 5, Ready), steps, last);
    Begins(cfg, map[], [], -1);
    steps := Precede(cfg, Both(Open(true), false, false, P.Recv(0), map[], [], -1, Fresh), Begin(0),
                     Both(Open(true), false, false, P.Recv(0), map[], [], 5, Ready), steps, last);
    Posts(cfg, map[], [], -1, Fresh);
    steps := Precede(cfg, Both(Open(false), false, false, P.Idle, map[], [], -1, Fresh), Proto(P.PostRecv(0, 0)),
                     Both(Open(true), false, false, P.Recv(0), map[], [], -1, Fresh), steps, last);
    ArrivesToo(cfg);
    steps := Precede(cfg, One(), Proto(P.AcceptClient(6)),
                     Both(Open(false), false, false, P.Idle, map[], [], -1, Fresh), steps, last);
    Arrives(cfg);
    steps := Precede(cfg, Init(1), Proto(P.AcceptClient(5)), One(), steps, last);
    Fails(cfg, k);
    assert Reachable(cfg, 1, steps, last) && Guard(cfg, last, UnlockOne(0)) && Faults(cfg, last, UnlockOne(0));
    L.DistinctFaults(cfg, 1, steps, last, UnlockOne(0));
  }
}
