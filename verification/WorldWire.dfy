/**
  Replica agreement on the wire: what a slave holds after any bytes of its stream have arrived,
  related to the states the master went through.
*/
module WorldWire {
  import opened Seqs
  import opened Numeric
  import opened Objects
  import opened Commands
  import opened Wire
  import opened Replicas
  import opened Frames
  import opened Streams
  import opened World
  import P = Protocol
  import I = ProtocolInv
  import F = ProtocolFrame
  import R = WorldRepl
  import Q = SendQueue

  // ---------------------------------------------------------------- the bytes of a run

  /** No message to `x` reached 4 GiB. */
  ghost predicate AllFit(s: World, x: Id) {
    x in s.streams ==> forall i :: 0 <= i < |s.streams[x]| ==> BodyLength(s.streams[x][i]) < TWO32
  }

  lemma FitsIsSendable(ms: seq<Msg>)
    requires AllGood(ms) && forall i :: 0 <= i < |ms| ==> BodyLength(ms[i]) < TWO32
    ensures AllSendable(ms)
  {
    hide BodyLength, GoodMsg;
  }

  /** The table agrees with the master on `k` as far as the wire can carry the object. */
  ghost predicate Agrees(s: World, k: Key, t: Table)
    requires k in s.store
  {
    var o := s.store[k].obj;
    && k in t
    && (if DataSurvives(o) then t[k].data == o.data && t[k].flags == o.flags else t[k].data == [] && t[k].flags == 0)
    && (DataSurvives(o) && ExptimeSurvives(o.exptime) ==> t[k] == Replica(o.data, o.flags, o.exptime))
  }

  /** What a slave may hold in state `s`: the scanned keys as the master has them, and otherwise only keys it missed. */
  ghost predicate Consistent(cfg: Config, s: World, x: Id, t: Table)
    requires cfg.buckets > 0
  {
    && (x in s.p.started ==> forall k :: k in s.store && R.Scanned(cfg, s.p.gc, s.scan, x, k) ==> Agrees(s, k, t))
    && (x in s.missed ==> forall k :: k in t ==> k in s.store || k in s.missed[x])
  }

  lemma ReplayConsistent(cfg: Config, workers: nat, clock: nat -> int, steps: seq<Step>, s: World, x: Id)
    requires Reachable(cfg, workers, steps, s) && P.Valid(s.p, x) && I.IsSlave(s.p.res, x)
    ensures x in s.streams && AllGood(s.streams[x]) && Consistent(cfg, s, x, Replay(s.streams[x], clock))
  {
    hide Run, R.Scanned, P.Valid, I.IsSlave, Replay;
    var clocks := (_: Id) => clock;
    R.SentMessagesAreGood(cfg, workers, steps, s, x);
    forall k
      ensures k in Replay(s.streams[x], clock) && x in s.missed ==> k in s.store || k in s.missed[x]
    {
      R.SlaveExtras(cfg, workers, clocks, steps, s, x, k);
    }
    if x in s.p.started {
      forall k | k in s.store && R.Scanned(cfg, s.p.gc, s.scan, x, k)
        ensures Agrees(s, k, Replay(s.streams[x], clock))
      {
        R.ReplicaAgreement(cfg, workers, clocks, steps, s, x, k);
      }
    }
  }

  // ---------------------------------------------------------------- everything has arrived

  /**
    Replica agreement on bytes.  In every run, for every valid slave none of whose messages reached
    4 GiB: however the bytes sent to it are cut, the table it builds from them agrees with the master
    on every scanned key, and holds no other key than those it missed the removal of.
  */
  lemma ByteAgreement(cfg: Config, workers: nat, clock: nat -> int, steps: seq<Step>, s: World, x: Id)
    requires Reachable(cfg, workers, steps, s) && P.Valid(s.p, x) && I.IsSlave(s.p.res, x) && AllFit(s, x)
    ensures Steady(BinaryFrame) && x in s.streams && AllGood(s.streams[x])
    ensures forall chunks: seq<seq<byte>> :: Concat(chunks) == EncodeAll(s.streams[x]) ==>
              !FeedAll(BinaryFrame, None, NEW_CONN, chunks).closed && Consistent(cfg, s, x, SlaveTable(chunks, clock))
  {
    BinarySteady();
    hide Steady, Run, P.Valid, I.IsSlave, Consistent, BinaryFrame, Encodings, Concat, FeedAll, Replay, BodyLength;
    ReplayConsistent(cfg, workers, clock, steps, s, x);
    var ms := s.streams[x];
    FitsIsSendable(ms);
    forall chunks: seq<seq<byte>> | Concat(chunks) == EncodeAll(ms)
      ensures !FeedAll(BinaryFrame, None, NEW_CONN, chunks).closed && Consistent(cfg, s, x, SlaveTable(chunks, clock))
    {
      var j := MasterToSlave(ms, Concat(chunks), chunks, clock);
      assert ms[..j] == ms;
    }
  }

  // ---------------------------------------------------------------- some of it has arrived

  /** A step adds at most one message to a stream; a slave that is valid after it was so before. */
  lemma StreamStep(cfg: Config, u: World, st: Step, x: Id)
    requires cfg.buckets > 0 && Guard(cfg, u, st) && !Faults(cfg, u, st) && u.p.next !in u.p.res
    requires var s := Do(cfg, u, st);
      x in s.streams && s.streams[x] != [] && P.Valid(s.p, x) && I.IsSlave(s.p.res, x)
    ensures x in u.streams && P.Valid(u.p, x) && I.IsSlave(u.p.res, x)
    ensures OneMore(u.streams[x], Do(cfg, u, st).streams[x])
  {
    hide P.Guard, P.Faults, P.Do, DoExecute, DoScanItem, DoProto, Find, BucketBusy, Unlocked, Exec;
    if st.Proto? {
      ProtoStream(cfg, u, st.st, x);
    } else if st.Execute? {
      CommandStream(cfg, u, st, x);
    } else if st.ScanItem? {
      ScanStream(cfg, u, st, x);
    }
  }

  predicate OneMore(ms: seq<Msg>, ms': seq<Msg>) {
    ms' == ms || (|ms'| == |ms| + 1 && ms == ms'[..|ms|])
  }

  lemma ProtoStream(cfg: Config, u: World, st: P.Step, x: Id)
    requires cfg.buckets > 0 && Guard(cfg, u, Proto(st)) && u.p.next !in u.p.res
    requires var s := DoProto(cfg, u, st);
      x in s.streams && s.streams[x] != [] && P.Valid(s.p, x) && I.IsSlave(s.p.res, x)
    ensures x in u.streams && P.Valid(u.p, x) && I.IsSlave(u.p.res, x)
    ensures DoProto(cfg, u, st).streams[x] == u.streams[x]
  {
    hide P.Guard, P.Faults, P.Do;
    F.FrameRes(u.p, st, x);
  }

  lemma CommandStream(cfg: Config, u: World, st: Step, x: Id)
    requires cfg.buckets > 0 && st.Execute? && Receiving(u, st.w)
    ensures var s := DoExecute(cfg, u, st.w, st.key, st.cmd, st.now, st.flushTime);
      s.p == u.p && (x in s.streams ==> x in u.streams && OneMore(u.streams[x], s.streams[x]))
  {
    hide Exec, MessageOf;
  }

  lemma ScanStream(cfg: Config, u: World, st: Step, x: Id)
    requires cfg.buckets > 0 && st.ScanItem? && Guard(cfg, u, st)
    ensures var s := DoScanItem(u, st.flush, st.evictAge, st.now, st.flushTime);
      s.p == u.p && (x in s.streams ==> x in u.streams && OneMore(u.streams[x], s.streams[x]))
  {
    hide Collects;
  }

  lemma NextIsNew(cfg: Config, workers: nat, steps: seq<Step>, s: World)
    requires Reachable(cfg, workers, steps, s)
    ensures s.p.next !in s.p.res
  {
    hide I.Inv;
    R.ReachableInv(cfg, workers, (_: Id) => (_: nat) => 0, steps, s);
    R.InvNew(s.p);
  }

  /** Every prefix of a stream was the whole stream at some point of the run. */
  lemma {:induction false} Earlier(cfg: Config, workers: nat, steps: seq<Step>, s: World, x: Id, j: nat)
    returns (n: nat, u: World)
    requires Reachable(cfg, workers, steps, s) && P.Valid(s.p, x) && I.IsSlave(s.p.res, x)
    requires x in s.streams && j <= |s.streams[x]|
    ensures n <= |steps| && Reachable(cfg, workers, steps[..n], u)
    ensures P.Valid(u.p, x) && I.IsSlave(u.p.res, x) && x in u.streams && u.streams[x] == s.streams[x][..j]
    ensures j == |s.streams[x]| ==> n == |steps| && u == s
    decreases |steps|
  {
    hide Guard, Faults, Do, P.Valid, I.IsSlave;
    if j == |s.streams[x]| {
      assert steps[..|steps|] == steps;
      n, u := |steps|, s;
    } else {
      var last := |steps| - 1;
      var r := RunLast(cfg, Init(workers), steps, s);
      NextIsNew(cfg, workers, steps[..last], r);
      StreamStep(cfg, r, steps[last], x);
      n, u := Earlier(cfg, workers, steps[..last], r, x, j);
      assert steps[..last][..n] == steps[..n];
    }
  }

  /**
    Prefix consistency.  Whatever part of the accepted messages the slave's connection has given to
    the kernel, and however it arrives: the slave holds what the master's messages up to some earlier
    point of the run make of its table, and that table is consistent with the master at that point.
    Once nothing is left to send, that point is now.
  */
  lemma PrefixConsistency(cfg: Config, workers: nat, clock: nat -> int, steps: seq<Step>, s: World, x: Id,
                          q: Q.SendQueue, chunks: seq<seq<byte>>)
    returns (n: nat, u: World)
    requires Reachable(cfg, workers, steps, s) && P.Valid(s.p, x) && I.IsSlave(s.p.res, x) && AllFit(s, x)
    requires q.Valid() && x in s.streams && AllGood(s.streams[x]) && q.accepted == Encodings(s.streams[x])
    requires Concat(chunks) == q.kernel
    ensures Steady(BinaryFrame) && !FeedAll(BinaryFrame, None, NEW_CONN, chunks).closed
    ensures n <= |steps| && Reachable(cfg, workers, steps[..n], u) && P.Valid(u.p, x) && I.IsSlave(u.p.res, x)
    ensures x in u.streams && u.streams[x] <= s.streams[x]
    ensures SlaveTable(chunks, clock) == Replay(u.streams[x], clock) && Consistent(cfg, u, x, SlaveTable(chunks, clock))
    ensures q.Unsent() == [] ==> n == |steps| && u == s
  {
    BinarySteady();
    hide Steady, Run, P.Valid, I.IsSlave, Consistent, BinaryFrame, Encodings, Concat, FeedAll, Replay, BodyLength;
    var ms := s.streams[x];
    FitsIsSendable(ms);
    var j := MasterToSlave(ms, q.kernel, chunks, clock);
    n, u := Earlier(cfg, workers, steps, s, x, j);
    ReplayConsistent(cfg, workers, clock, steps[..n], u, x);
  }
}
