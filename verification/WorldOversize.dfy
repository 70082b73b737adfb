/**
  A run that sends a slave a message of 4 GiB: appending has no size limit, so a client gets there
  byte by byte.
*/
module WorldOversize {
  import opened Seqs
  import opened Objects
  import opened Commands
  import opened Wire
  import opened Replicas
  import opened Frames
  import opened Streams
  import opened World
  import P = Protocol
  import I = ProtocolInv
  import R = WorldRepl
  import W = WorldWire

  const BYTE: Cmd := Append([1], 0)

  // ---------------------------------------------------------------- appending for ever

  /** Worker `w` may append to `k`, and slave `x` is on its list. */
  ghost predicate Appending(cfg: Config, s: World, w: nat, k: Key, x: Id)
    requires cfg.buckets > 0
  {
    && Receiving(s, w) && s.stages[w].Ready? && !BucketBusy(cfg, s, k) && |k| >= 1
    && k in s.store && !Locked(s.store[k].obj) && s.store[k].obj.exptime == 0
    && x in s.p.res[s.p.jobs[w].sock].list && P.Valid(s.p, x) && x in s.streams
  }

  lemma ExecAppends(env: Env, keyLength: nat, o: Obj)
    requires !Locked(o) && o.exptime == 0 && env.flushTime == 0
    ensures Exec(BYTE, env, keyLength, Some(o)) == Outcome(Some(AppendObj(o, [1])), OK, Some(ReplSet), NoChange)
  {}

  lemma AppendOnce(cfg: Config, s: World, w: nat, k: Key, x: Id) returns (t: World)
    requires cfg.buckets > 0 && Appending(cfg, s, w, k, x)
    ensures Goes(cfg, s, Execute(w, k, BYTE, 0, 0), t) && Appending(cfg, t, w, k, x) && t.p == s.p
    ensures t.store[k].obj.data == s.store[k].obj.data + [1]
    ensures t.streams[x] == s.streams[x] + [SetOf(k, t.store[k].obj)]
  {
    hide Exec;
    ExecAppends(EnvOf(cfg, s, w, 0, 0), |k|, s.store[k].obj);
    t := DoExecute(cfg, s, w, k, BYTE, 0, 0);
  }

  lemma {:induction false} AppendMany(cfg: Config, s: World, w: nat, k: Key, x: Id, n: nat)
    returns (steps: seq<Step>, t: World)
    requires cfg.buckets > 0 && Appending(cfg, s, w, k, x) && n > 0
    ensures Run(cfg, s, steps, t) && t.p == s.p && x in t.streams
    ensures exists i :: 0 <= i < |t.streams[x]| && BodyLength(t.streams[x][i]) >= n
    decreases n
  {
    hide Run, Goes, Guard, Faults, Do;
    var u := AppendOnce(cfg, s, w, k, x);
    steps, t := AppendOn(cfg, u, w, k, x, n - 1);
    steps := Precede(cfg, s, Execute(w, k, BYTE, 0, 0), u, steps, t);
  }

  /** From a state that has just told the slave. */
  lemma {:induction false} AppendOn(cfg: Config, s: World, w: nat, k: Key, x: Id, n: nat)
    returns (steps: seq<Step>, t: World)
    requires cfg.buckets > 0 && Appending(cfg, s, w, k, x)
    requires s.streams[x] != [] && s.streams[x][|s.streams[x]| - 1] == SetOf(k, s.store[k].obj)
    ensures Run(cfg, s, steps, t) && t.p == s.p && x in t.streams
    ensures exists i :: 0 <= i < |t.streams[x]| && BodyLength(t.streams[x][i]) >= |s.store[k].obj.data| + n
    decreases n
  {
    hide Run, Goes, Guard, Faults, Do;
    if n == 0 {
      steps, t := [], s;
      Nowhere(cfg, s);
      assert BodyLength(s.streams[x][|s.streams[x]| - 1]) >= |s.store[k].obj.data|;
    } else {
      var u := AppendOnce(cfg, s, w, k, x);
      steps, t := AppendOn(cfg, u, w, k, x, n - 1);
      steps := Precede(cfg, s, Execute(w, k, BYTE, 0, 0), u, steps, t);
    }
  }

  // ---------------------------------------------------------------- getting there

  function Slave(): P.Res { P.Res(P.Slave, 6, true, false, false, []) }

  function Client(busy: bool, list: seq<Id>): P.Res { P.Res(P.Client, 5, true, false, busy, list) }

  function Alone(): World {
    World(P.State(map[0 := Slave()], map[6 := 0], [], [], [], [P.Idle], [P.Out, P.Out], None, [0], [0], [],
                  P.Poll, 1, {}, map[0 := 0], map[0 := 0]),
          map[], 0, map[], [-1], [Fresh], Scan(0, None), map[0 := []], map[0 := {}])
  }

  function Both(client: P.Res, job: P.Job, store: map<Key, Item>, ctx: int, stage: Stage, stream: seq<Msg>): World {
    World(P.State(map[0 := Slave(), 1 := client], map[6 := 0, 5 := 1], [], [], [], [job], [P.Out, P.Out], None,
                  [0], [0], [], P.Poll, 2, {}, map[0 := 0, 1 := 0], map[0 := 0, 1 := 0]),
          store, if store == map[] then 0 else 1, map[1 := []], [ctx], [stage], Scan(0, None),
          map[0 := stream], map[0 := {}])
  }

  lemma SlaveComes(cfg: Config)
    requires cfg.buckets > 0
    ensures Goes(cfg, Init(1), Proto(P.AcceptSlave(6, [true])), Alone())
  {
    assert seq(1, _ => P.Idle) == [P.Idle];
    assert seq(2, _ => P.Out) == [P.Out, P.Out];
    assert P.Init(1).jobs == [P.Idle] && P.Init(1).uses == [P.Out, P.Out];
    assert Init(1).ctxs == [-1] && Init(1).stages == [Fresh];
  }

  lemma ClientComes(cfg: Config)
    requires cfg.buckets > 0
    ensures Goes(cfg, Alone(), Proto(P.AcceptClient(5)), Both(Client(false, []), P.Idle, map[], -1, Fresh, []))
  {}

  lemma JobPosted(cfg: Config)
    requires cfg.buckets > 0
    ensures Goes(cfg, Both(Client(false, []), P.Idle, map[], -1, Fresh, []), Proto(P.PostRecv(0, 1)),
                 Both(Client(true, [0]), P.Recv(1), map[], -1, Fresh, []))
  {}

  lemma JobBegins(cfg: Config)
    requires cfg.buckets > 0
    ensures Goes(cfg, Both(Client(true, [0]), P.Recv(1), map[], -1, Fresh, []), Begin(0),
                 Both(Client(true, [0]), P.Recv(1), map[], 5, Ready, []))
  {}

  lemma Stores(cfg: Config, k: Key)
    requires cfg.buckets > 0 && cfg.maxData >= 1 && 1 <= |k| <= MAX_KEY_LENGTH
    ensures Goes(cfg, Both(Client(true, [0]), P.Recv(1), map[], 5, Ready, []),
                 Execute(0, k, Store(Set, false, [1], 0, 0, 0), 0, 0),
                 Both(Client(true, [0]), P.Recv(1), map[k := Item(0, NewObj([1], 0, 0))], 5, Ready,
                      [SetMsg(k, [1], 0, 0)]))
  {
    var s := Both(Client(true, [0]), P.Recv(1), map[], 5, Ready, []);
    var m := SetMsg(k, [1], 0, 0);
    assert s.streams[0] + [m] == [m];
    assert Sent(s.streams, s.p, [0], m) == map[0 := [m]];
  }

  lemma Beginning(cfg: Config, k: Key, rest: seq<Step>, last: World) returns (steps: seq<Step>)
    requires cfg.buckets > 0 && cfg.maxData >= 1 && 1 <= |k| <= MAX_KEY_LENGTH
    requires Run(cfg, Both(Client(true, [0]), P.Recv(1), map[k := Item(0, NewObj([1], 0, 0))], 5, Ready,
                           [SetMsg(k, [1], 0, 0)]),
                 rest, last)
    ensures Run(cfg, Init(1), steps, last)
  {
    hide Goes, Run, Guard, Faults, Do, Both, Alone, Init;
    Stores(cfg, k);
    steps := Precede(cfg, Both(Client(true, [0]), P.Recv(1), map[], 5, Ready, []),
                     Execute(0, k, Store(Set, false, [1], 0, 0, 0), 0, 0),
                     Both(Client(true, [0]), P.Recv(1), map[k := Item(0, NewObj([1], 0, 0))], 5, Ready,
                          [SetMsg(k, [1], 0, 0)]),
                     rest, last);
    JobBegins(cfg);
    steps := Precede(cfg, Both(Client(true, [0]), P.Recv(1), map[], -1, Fresh, []), Begin(0),
                     Both(Client(true, [0]), P.Recv(1), map[], 5, Ready, []), steps, last);
    JobPosted(cfg);
    steps := Precede(cfg, Both(Client(false, []), P.Idle, map[], -1, Fresh, []), Proto(P.PostRecv(0, 1)),
                     Both(Client(true, [0]), P.Recv(1), map[], -1, Fresh, []), steps, last);
    ClientComes(cfg);
    steps := Precede(cfg, Alone(), Proto(P.AcceptClient(5)), Both(Client(false, []), P.Idle, map[], -1, Fresh, []),
                     steps, last);
    SlaveComes(cfg);
    steps := Precede(cfg, Init(1), Proto(P.AcceptSlave(6, [true])), Alone(), steps, last);
  }

  /** The run exists, and the slave does not see the messages it was sent. */
  lemma OversizeReached(cfg: Config, k: Key)
    requires cfg.buckets > 0 && cfg.maxData >= 1 && 1 <= |k| <= MAX_KEY_LENGTH
    ensures Steady(BinaryFrame)
    ensures exists steps, s, x :: Reachable(cfg, 1, steps, s) && P.Valid(s.p, x) && I.IsSlave(s.p.res, x)
              && !W.AllFit(s, x) && x in s.streams && AllGood(s.streams[x])
              && Drain(BinaryFrame, EncodeAll(s.streams[x])) != Drained(Encodings(s.streams[x]), [], false)
  {
    BinarySteady();
    hide Steady, Run, BodyLength, BinaryFrame, Drain, Encodings, EncodeAll;
    var s := Both(Client(true, [0]), P.Recv(1), map[k := Item(0, NewObj([1], 0, 0))], 5, Ready, [SetMsg(k, [1], 0, 0)]);
    assert k in s.store;
    var rest, t := AppendMany(cfg, s, 0, k, 0, TWO32);
    var steps := Beginning(cfg, k, rest, t);
    assert Reachable(cfg, 1, steps, t) && P.Valid(t.p, 0) && I.IsSlave(t.p.res, 0);
    R.SentMessagesAreGood(cfg, 1, steps, t, 0);
    BoundariesExactly(t.streams[0]);
    NotSendable(t.streams[0]);
  }

  lemma NotSendable(ms: seq<Msg>)
    requires exists i :: 0 <= i < |ms| && BodyLength(ms[i]) >= TWO32
    ensures !AllSendable(ms)
  {
    hide BodyLength;
    var i :| 0 <= i < |ms| && BodyLength(ms[i]) >= TWO32;
    assert !Sendable(ms[i]);
  }
}
