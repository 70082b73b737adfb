/**
  The three request streams of the server (binary memcache, counter, replication) as framed byte
  streams, and a slave that decodes its master's messages out of chunks.
*/
module Streams {
  import opened Seqs
  import opened Numeric
  import opened Objects
  import opened Commands
  import opened Wire
  import opened Replicas
  import opened Frames

  // ---------------------------------------------------------------- binary requests

  /** `is_binary_request` and `binary_request::length`; Bad is any other first byte. */
  function BinaryFrame(p: seq<byte>): Head {
    if p == [] then More
    else if p[0] != 0x80 then Bad
    else if |p| < HEADER || |p| < HEADER + TotalLength(p) then More
    else Got(HEADER + TotalLength(p))
  }

  lemma BinaryPrefix(a: seq<byte>, b: seq<byte>)
    requires |a| >= HEADER
    ensures TotalLength(a + b) == TotalLength(a)
  {
    assert (a + b)[8..12] == a[8..12];
  }

  lemma BinarySteady()
    ensures Steady(BinaryFrame)
  {
    hide TotalLength, UnBe;
    forall a, b
      ensures !BinaryFrame(a).More? ==> BinaryFrame(a + b) == BinaryFrame(a)
      ensures BinaryFrame(a + b).Got? && BinaryFrame(a + b).n <= |a| ==> BinaryFrame(a) == BinaryFrame(a + b)
    {
      if |a| >= HEADER { BinaryPrefix(a, b); }
    }
  }

  /** A memcache connection serves a binary stream alike under every cut exactly if it is within the request limit. */
  lemma BinaryServed(p: seq<byte>)
    ensures Steady(BinaryFrame)
    ensures var limit := Some(MAX_REQUEST_LENGTH);
      var d := Drain(BinaryFrame, p);
      Within(BinaryFrame, limit, p) <==>
        forall chunks: seq<seq<byte>> :: Concat(chunks) == p ==>
          FeedAll(BinaryFrame, limit, NEW_CONN, chunks) == Conn(d.requests, d.rest, false)
  {
    BinarySteady();
    hide Steady, BinaryFrame, Drain, FeedAll, Concat;
    Served(BinaryFrame, Some(MAX_REQUEST_LENGTH), p);
  }

  /** The parser sees what the framing says, and only the bytes of that request. */
  lemma BinaryParse(p: seq<byte>, now: int)
    requires p != [] && p[0] == 0x80
    ensures Parse(p, now).Some? <==> BinaryFrame(p).Got?
    ensures BinaryFrame(p).Got? ==>
      && Parse(p, now).value.length == BinaryFrame(p).n <= |p|
      && Parse(p[..BinaryFrame(p).n], now) == Parse(p, now)
  {
    hide UnBe, ParseExtras;
    if BinaryFrame(p).Got? {
      var q := p[..BinaryFrame(p).n];
      SameFields(p, q);
      var at, k := HEADER + p[4] as int, UnBe(p[2..4]);
      if k + p[4] as int <= TotalLength(p) {
        var r := Rest(p, k);
        assert q[at..at + k] == p[at..at + k];
        assert q[at + k..|q|] == p[at + k..|q|];
        SameExtras(r, p, q, k, p[4], |r.data|, now);
        assert Rest(q, k) == r;
      }
    }
  }

  /** The request as far as it is parsed before its extras. */
  function Rest(p: seq<byte>, keyLength: nat): BinRequest
    requires |p| >= HEADER && HEADER + TotalLength(p) <= |p| && keyLength + p[4] as int <= TotalLength(p)
  {
    var at := HEADER + p[4] as int;
    BinRequest(HEADER + TotalLength(p), BadRequest, p[1], p[at..at + keyLength], UnBe(p[16..24]), 0, 0,
               p[at + keyLength..HEADER + TotalLength(p)], 0, 0)
  }

  lemma SameFields(p: seq<byte>, q: seq<byte>)
    requires HEADER <= |q| <= |p| && q == p[..|q|]
    ensures TotalLength(q) == TotalLength(p) && q[2..4] == p[2..4] && q[16..24] == p[16..24]
  {
    assert q[8..12] == p[8..12];
  }

  lemma SameExtras(r: BinRequest, p: seq<byte>, q: seq<byte>, keyLength: nat, extras: nat, dataLength: nat, now: int)
    requires HEADER + extras <= |q| <= |p| && q == p[..|q|]
    ensures ParseExtras(r, q, keyLength, extras, dataLength, now) ==
      ParseExtras(r, p, keyLength, extras, dataLength, now)
  {
    hide UnBe;
    if extras >= 4 { assert q[24..28] == p[24..28]; }
    if extras >= 8 { assert q[28..32] == p[28..32] && q[24..32] == p[24..32]; }
    if extras >= 20 { assert q[32..40] == p[32..40] && q[40..44] == p[40..44]; }
  }

  // ---------------------------------------------------------------- the replication stream

  /** The switch of `repl_recv`; the parser's status is not looked at. */
  function ApplyRequest(t: Table, r: BinRequest): Table {
    if r.command == SETQ then t[r.key := Replica(r.data, r.flags, r.exptime)]
    else if r.command == TOUCH then
      if r.key in t then t[r.key := t[r.key].(exptime := r.exptime)] else t
    else if r.command == DELETEQ then t - {r.key}
    else t
  }

  /** The requests applied one after the other; request i is number `base + i` of the connection. */
  function ReplayBytes(t: Table, requests: seq<seq<byte>>, clock: nat -> int, base: nat): Table {
    if requests == [] then t
    else
      var last := |requests| - 1;
      var t' := ReplayBytes(t, requests[..last], clock, base);
      match Parse(requests[last], clock(base + last))
      case None => t'
      case Some(r) => ApplyRequest(t', r)
  }

  /** `repl_recv`; `n` counts the requests, for the clock. */
  method ReplRecv(p: seq<byte>, t: Table, clock: nat -> int, base: nat)
    returns (consumed: nat, table: Table, bad: bool, n: nat, ghost requests: seq<seq<byte>>)
    ensures Steady(BinaryFrame)
    ensures consumed <= |p|
    ensures Drain(BinaryFrame, p) == Drained(requests, p[consumed..], bad)
    ensures table == ReplayBytes(t, requests, clock, base) && n == |requests|
  {
    BinarySteady();
    hide Steady, Parse, BinaryFrame, ApplyRequest, Drain, ReplayBytes;
    HeadLength(BinaryFrame, []);
    DrainStep(BinaryFrame, []);
    ReplayNothing(t, clock, base);
    consumed, table, bad, n, requests := 0, t, false, 0, [];
    assert p[0..] == p;
    while consumed < |p|
      invariant consumed <= |p| && !bad && n == |requests|
      invariant Drain(BinaryFrame, p) ==
        var d := Drain(BinaryFrame, p[consumed..]); d.(requests := requests + d.requests)
      invariant table == ReplayBytes(t, requests, clock, base)
    {
      var q := p[consumed..];
      NonBinary(q);
      HeadLength(BinaryFrame, q);
      DrainStep(BinaryFrame, q);
      if q[0] != 0x80 { bad := true; return; }
      BinaryParse(q, clock(base + n));
      var r := Parse(q, clock(base + n));
      if r.None? { return; }
      var c := r.value.length;
      assert q[c..] == p[consumed + c..];
      ReplayOne(t, requests, q[..c], clock, base);
      requests := requests + [q[..c]];
      consumed := consumed + c;
      table := ApplyRequest(table, r.value);
      n := n + 1;
    }
    assert p[consumed..] == [];
  }

  lemma ReplayNothing(t: Table, clock: nat -> int, base: nat)
    ensures ReplayBytes(t, [], clock, base) == t
  {}

  lemma ReplayOne(t: Table, requests: seq<seq<byte>>, q: seq<byte>, clock: nat -> int, base: nat)
    ensures ReplayBytes(t, requests + [q], clock, base) ==
            var t' := ReplayBytes(t, requests, clock, base);
            match Parse(q, clock(base + |requests|))
            case None => t'
            case Some(r) => ApplyRequest(t', r)
  {
    assert (requests + [q])[..|requests|] == requests;
  }

  lemma {:induction false} ReplayMore(a: seq<seq<byte>>, b: seq<seq<byte>>, clock: nat -> int)
    ensures ReplayBytes(ReplayBytes(map[], a, clock, 0), b, clock, |a|) == ReplayBytes(map[], a + b, clock, 0)
    decreases |b|
  {
    hide ReplayBytes, Parse, ApplyRequest;
    if b == [] {
      assert a + b == a;
      ReplayNothing(ReplayBytes(map[], a, clock, 0), clock, |a|);
    } else {
      var last := |b| - 1;
      var c := b[..last];
      ReplayMore(a, c, clock);
      assert b == c + [b[last]];
      assert a + b == (a + c) + [b[last]];
      ReplayOne(ReplayBytes(map[], a, clock, 0), c, b[last], clock, |a|);
      ReplayOne(map[], a + c, b[last], clock, 0);
    }
  }

  lemma NonBinary(q: seq<byte>)
    requires q != []
    ensures BinaryFrame(q).Bad? <==> q[0] != 0x80
  {}

  // ---------------------------------------------------------------- messages in chunks

  predicate Sendable(m: Msg) { GoodMsg(m) && BodyLength(m) < TWO32 }

  predicate AllSendable(ms: seq<Msg>) {
    forall i :: 0 <= i < |ms| ==> Sendable(ms[i])
  }

  /** One message out of its bytes: the round trip, as `repl_recv` applies it. */
  lemma MessageDecodes(m: Msg, suffix: seq<byte>, t: Table, now: int)
    requires Sendable(m)
    ensures BinaryFrame(Encode(m) + suffix) == Got(|Encode(m)|)
    ensures Parse(Encode(m) + suffix, now).Some?
    ensures ApplyRequest(t, Parse(Encode(m) + suffix, now).value) == Apply(t, m, now)
  {
    hide Parse, UnBe, Be;
    match m {
      case SetMsg(_, _, _, _) => RoundTripSet(m, suffix, now);
      case TouchMsg(_, _) => RoundTripTouch(m, suffix, now);
      case DeleteMsg(_) => RoundTripDelete(m, suffix, now);
    }
    assert (Encode(m) + suffix)[0] == 0x80 by { FirstByte(m, suffix); }
    BinaryParse(Encode(m) + suffix, now);
  }

  lemma FirstByte(m: Msg, suffix: seq<byte>)
    requires GoodMsg(m)
    ensures (Encode(m) + suffix)[0] == 0x80
  {}

  function Encodings(ms: seq<Msg>): (r: seq<seq<byte>>)
    requires AllGood(ms)
    ensures |r| == |ms| && forall i :: 0 <= i < |ms| ==> GoodMsg(ms[i]) && r[i] == Encode(ms[i])
  {
    seq(|ms|, i requires 0 <= i < |ms| => assert GoodMsg(ms[i]); Encode(ms[i]))
  }

  /** The bytes of a stream of messages. */
  function EncodeAll(ms: seq<Msg>): seq<byte>
    requires AllGood(ms)
  {
    Concat(Encodings(ms))
  }

  /** An unfinished message is no request yet. */
  lemma PartOfMessage(m: Msg, part: seq<byte>)
    requires Sendable(m) && part < Encode(m)
    ensures BinaryFrame(part) == More
  {
    hide Encode, BodyLength;
    BinarySteady();
    MessageDecodes(m, [], map[], 0);
    assert Encode(m) + [] == Encode(m);
    assert Encode(m) == part + Encode(m)[|part|..];
    HeadGrows(BinaryFrame, part, Encode(m)[|part|..]);
    HeadLength(BinaryFrame, part);
  }

  /** What has been parsed of a stream of messages that stops anywhere. */
  lemma {:induction false} DrainMessages(ms: seq<Msg>, m: Msg, part: seq<byte>)
    requires AllSendable(ms)
    requires Sendable(m) && part < Encode(m)
    ensures Steady(BinaryFrame)
    ensures Drain(BinaryFrame, EncodeAll(ms) + part) == Drained(Encodings(ms), part, false)
    decreases |ms|
  {
    BinarySteady();
    hide Steady, Encode, BodyLength, BinaryFrame, Drain, Encodings, EncodeAll;
    if ms == [] {
      NoMessages(ms, part);
      PartOfMessage(m, part);
      DrainStep(BinaryFrame, part);
    } else {
      var n := |ms| - 1;
      var head, e := ms[..n], Encode(ms[n]);
      LastMessage(ms);
      NothingOf(ms[n]);
      DrainMessages(head, ms[n], []);
      assert EncodeAll(head) + [] == EncodeAll(head);
      DrainSplit(BinaryFrame, EncodeAll(head), e + part);
      Assoc(EncodeAll(head), e, part);
      assert [] + (e + part) == e + part;
      DrainMessage(ms[n], m, part);
    }
  }

  lemma NoMessages(ms: seq<Msg>, part: seq<byte>)
    requires ms == []
    ensures EncodeAll(ms) + part == part && Encodings(ms) == []
  {
    ConcatNothing<byte>();
  }

  lemma LastSendable(ms: seq<Msg>)
    requires AllSendable(ms) && ms != []
    ensures AllSendable(ms[..|ms| - 1]) && Sendable(ms[|ms| - 1])
  {
    hide Sendable;
  }

  lemma LastEncoding(ms: seq<Msg>)
    requires AllSendable(ms) && ms != [] && AllSendable(ms[..|ms| - 1]) && Sendable(ms[|ms| - 1])
    ensures Encodings(ms) == Encodings(ms[..|ms| - 1]) + [Encode(ms[|ms| - 1])]
  {
    hide Encode, Encodings;
    var n := |ms| - 1;
    var a, b := Encodings(ms), Encodings(ms[..n]);
    forall i | 0 <= i < n
      ensures a[i] == b[i]
    {
      assert ms[..n][i] == ms[i];
    }
  }

  lemma LastMessage(ms: seq<Msg>)
    requires AllSendable(ms) && ms != []
    ensures var n := |ms| - 1;
      && AllSendable(ms[..n]) && Sendable(ms[n])
      && EncodeAll(ms) == EncodeAll(ms[..n]) + Encode(ms[n]) && Encodings(ms) == Encodings(ms[..n]) + [Encode(ms[n])]
  {
    hide Encode, Encodings, AllSendable, Concat;
    LastSendable(ms);
    LastEncoding(ms);
    ConcatLast(Encodings(ms[..|ms| - 1]), Encode(ms[|ms| - 1]));
  }

  /** One whole message in front of an unfinished one. */
  lemma DrainMessage(last: Msg, m: Msg, part: seq<byte>)
    requires Sendable(last) && Sendable(m) && part < Encode(m)
    ensures Steady(BinaryFrame)
    ensures Drain(BinaryFrame, Encode(last) + part) == Drained([Encode(last)], part, false)
  {
    BinarySteady();
    hide Steady, Encode, BodyLength, BinaryFrame, Drain;
    var e := Encode(last);
    MessageDecodes(last, part, map[], 0);
    DrainStep(BinaryFrame, e + part);
    TakeFirst(e, part);
    PartOfMessage(m, part);
    DrainStep(BinaryFrame, part);
  }

  lemma NothingOf(m: Msg)
    requires GoodMsg(m)
    ensures [] < Encode(m)
  {}

  lemma {:induction false} ReplayDecodes(ms: seq<Msg>, clock: nat -> int)
    requires AllSendable(ms)
    ensures ReplayBytes(map[], Encodings(ms), clock, 0) == Replay(ms, clock)
    decreases |ms|
  {
    if ms != [] {
      var head, last := ms[..|ms| - 1], ms[|ms| - 1];
      ReplayDecodes(head, clock);
      assert Encodings(ms)[..|ms| - 1] == Encodings(head);
      MessageDecodes(last, [], Replay(head, clock), clock(|ms| - 1));
      assert Encode(last) + [] == Encode(last);
    }
  }

  /**
    However the bytes of a message stream are cut, and wherever they stop, the slave has applied
    exactly the complete messages, in order, and holds exactly the bytes of the unfinished one.
  */
  lemma SlaveReplays(ms: seq<Msg>, m: Msg, part: seq<byte>, chunks: seq<seq<byte>>, clock: nat -> int)
    requires AllSendable(ms)
    requires Sendable(m) && part < Encode(m)
    requires Concat(chunks) == EncodeAll(ms) + part
    ensures Steady(BinaryFrame)
    ensures var c := FeedAll(BinaryFrame, None, NEW_CONN, chunks);
      && !c.closed && c.pending == part
      && ReplayBytes(map[], c.executed, clock, 0) == Replay(ms, clock)
  {
    hide Encode, BodyLength, BinaryFrame;
    DrainMessages(ms, m, part);
    assert Within(BinaryFrame, None, Concat(chunks));
    WithinIsServed(BinaryFrame, None, chunks);
    ChunkIndependence(BinaryFrame, None, chunks);
    ReplayDecodes(ms, clock);
  }

  // ---------------------------------------------------------------- master to slave

  lemma SmallMessage()
    ensures Sendable(DeleteMsg([0]))
  {}

  /** The bytes given to the kernel end inside some message, or at the end of them all. */
  lemma {:induction false} WholeMessages(ms: seq<Msg>, kernel: seq<byte>) returns (j: nat, part: seq<byte>)
    requires AllSendable(ms) && kernel <= EncodeAll(ms)
    ensures j <= |ms| && AllSendable(ms[..j]) && kernel == EncodeAll(ms[..j]) + part
    ensures part != [] ==> j < |ms| && Sendable(ms[j]) && part < Encode(ms[j])
    ensures kernel == EncodeAll(ms) ==> j == |ms| && part == []
    decreases |ms|
  {
    hide Encode, Encodings, Concat;
    if kernel == EncodeAll(ms) {
      assert ms[..|ms|] == ms;
      j, part := |ms|, [];
    } else if ms == [] {
      NoMessages(ms, []);
      assert false;
    } else {
      var n := |ms| - 1;
      LastMessage(ms);
      var head := EncodeAll(ms[..n]);
      if |kernel| < |head| {
        j, part := WholeMessages(ms[..n], kernel);
        assert ms[..n][..j] == ms[..j];
      } else {
        assert Sendable(ms[n]);
        j, part := n, kernel[|head|..];
        assert kernel == head + part;
        assert EncodeAll(ms)[|head|..] == Encode(ms[n]);
        assert part <= Encode(ms[n]);
      }
    }
  }

  /**
    End to end: whatever prefix of the accepted messages the kernel was given, and however it
    arrives, the slave has replayed whole messages of it in order, and all of them once all bytes
    have arrived.
  */
  lemma MasterToSlave(ms: seq<Msg>, kernel: seq<byte>, chunks: seq<seq<byte>>, clock: nat -> int) returns (j: nat)
    requires AllSendable(ms) && kernel <= EncodeAll(ms) && Concat(chunks) == kernel
    ensures Steady(BinaryFrame) && j <= |ms|
    ensures var c := FeedAll(BinaryFrame, None, NEW_CONN, chunks);
      !c.closed && |c.executed| == j && ReplayBytes(map[], c.executed, clock, 0) == Replay(ms[..j], clock)
    ensures kernel == EncodeAll(ms) ==> j == |ms|
  {
    hide Encode, BodyLength, BinaryFrame, Drain;
    var part;
    j, part := WholeMessages(ms, kernel);
    var m := if part != [] then ms[j] else DeleteMsg([0]);
    SmallMessage();
    if part == [] { NothingOf(m); }
    SlaveReplays(ms[..j], m, part, chunks, clock);
    DrainMessages(ms[..j], m, part);
    ChunkIndependence(BinaryFrame, None, chunks);
  }

  /** The slave's table after the bytes arrived in these chunks. */
  ghost function SlaveTable(chunks: seq<seq<byte>>, clock: nat -> int): Table
    requires Steady(BinaryFrame)
  {
    ReplayBytes(map[], FeedAll(BinaryFrame, None, NEW_CONN, chunks).executed, clock, 0)
  }

  // ---------------------------------------------------------------- the 4 GiB border

  lemma SmallUnlessSet(m: Msg)
    requires GoodMsg(m) && !m.SetMsg?
    ensures BodyLength(m) < TWO32
  {}

  /** A message is seen as one request exactly when its body length fits the header field. */
  lemma OneRequest(m: Msg)
    requires GoodMsg(m)
    ensures BinaryFrame(Encode(m)) == Got(|Encode(m)|) <==> BodyLength(m) < TWO32
  {
    hide Encode, BinaryFrame, Parse, BodyLength;
    assert Encode(m) + [] == Encode(m);
    if BodyLength(m) < TWO32 {
      MessageDecodes(m, [], map[], 0);
    } else {
      if !m.SetMsg? { SmallUnlessSet(m); }
      OversizeDesynchronizes(m, [], 0);
      FirstByte(m, []);
      BinaryParse(Encode(m), 0);
    }
  }

  /** The receiver splits a stream into the messages it was made of exactly when all of them fit. */
  lemma BoundariesExactly(ms: seq<Msg>)
    requires AllGood(ms)
    ensures Steady(BinaryFrame)
    ensures Drain(BinaryFrame, EncodeAll(ms)) == Drained(Encodings(ms), [], false) <==> AllSendable(ms)
  {
    BinarySteady();
    hide Steady, Encode, BinaryFrame, Drain, Encodings, BodyLength, Concat;
    if AllSendable(ms) {
      SmallMessage();
      NothingOf(DeleteMsg([0]));
      DrainMessages(ms, DeleteMsg([0]), []);
        assert EncodeAll(ms) + [] == EncodeAll(ms);
    }
    if Drain(BinaryFrame, EncodeAll(ms)) == Drained(Encodings(ms), [], false) {
      DrainHeads(BinaryFrame, EncodeAll(ms));
      forall i | 0 <= i < |ms|
        ensures Sendable(ms[i])
      {
        assert Encodings(ms)[i] == Encode(ms[i]);
        OneRequest(ms[i]);
      }
    }
  }

  /** A body of exactly 4 GiB: the length field of its header is 0. */
  function Oversize(k: Key): (m: Msg)
    requires GoodKey(k)
    ensures GoodMsg(m) && BodyLength(m) == TWO32
  {
    SetMsg(k, seq(TWO32 - 8 - |k|, _ => 0), 0, 0)
  }

  /** The oversize message is taken for its bare header, and the bytes behind it for no request. */
  lemma OversizeDrains(k: Key, suffix: seq<byte>)
    requires GoodKey(k)
    ensures Steady(BinaryFrame)
    ensures var p := Encode(Oversize(k)) + suffix; Drain(BinaryFrame, p) == Drained([p[..HEADER]], p[HEADER..], true)
  {
    BinarySteady();
    hide Steady, Be, UnBe, Drain;
    var m := Oversize(k);
    var p := Encode(m) + suffix;
    assert p[8..12] == Be(0, 4);
    ByteOrder32(0);
    assert BinaryFrame(p) == Got(HEADER);
    DrainStep(BinaryFrame, p);
    assert p[HEADER..][0] == 0 by { FirstZero(); assert p[HEADER..][..4] == Be(0, 4); }
    DrainStep(BinaryFrame, p[HEADER..]);
  }

  lemma FirstZero()
    ensures Be(0, 4)[0] == 0
  {
    assert Be(0, 1)[0] == 0;
    assert Be(0, 2)[0] == 0;
    assert Be(0, 3)[0] == 0;
  }

  /**
    Behind such a message a slave loses what is sent: here it misses a key that the messages would
    have given it.
  */
  lemma OversizeLosesTheRest(k: Key, n: Msg, clock: nat -> int)
    requires GoodKey(k) && GoodMsg(n) && n.SetMsg?
    ensures var ms := [Oversize(k), n];
      && Steady(BinaryFrame) && AllGood(ms)
      && n.key in Replay(ms, clock) && n.key !in SlaveTable([EncodeAll(ms)], clock)
  {
    BinarySteady();
    hide Steady, BinaryFrame, Drain, Encode, Encodings, Concat, Parse, ReplayBytes, BodyLength, FeedAll, Oversize,
         Replay;
    var m := Oversize(k);
    var ms := [m, n];
    var bytes := EncodeAll(ms);
    TwoMessages(m, n);
    OversizeDrains(k, Encode(n));
    OneChunk(bytes);
    var h := bytes[..HEADER];
    HeaderAlone(k, h, Encode(n), clock(0));
    ReplayNothing(map[], clock, 0);
    ReplayOne(map[], [], h, clock, 0);
    assert [] + [h] == [h];
    LastReplayed(m, n, clock);
  }

  lemma LastReplayed(m: Msg, n: Msg, clock: nat -> int)
    requires n.SetMsg?
    ensures n.key in Replay([m, n], clock)
  {}

  lemma TwoMessages(m: Msg, n: Msg)
    requires GoodMsg(m) && GoodMsg(n)
    ensures EncodeAll([m, n]) == Encode(m) + Encode(n)
  {
    hide Encode;
    var e := Encodings([m, n]);
    assert e == [Encode(m)] + [Encode(n)];
    ConcatLast([Encode(m)], Encode(n));
    ConcatLast([], Encode(m));
    assert [] + [Encode(m)] == [Encode(m)];
    assert Concat<byte>([]) + Encode(m) == Encode(m);
  }

  lemma OneChunk(bytes: seq<byte>)
    requires Steady(BinaryFrame) && Drain(BinaryFrame, bytes).bad
    ensures FeedAll(BinaryFrame, None, NEW_CONN, [bytes]).executed == Drain(BinaryFrame, bytes).requests
  {
    hide Steady, BinaryFrame, Drain;
    assert [bytes][..0] == [];
    assert [] + bytes == bytes;
  }

  /** The header alone is parsed as a SetQ of the empty key. */
  lemma HeaderAlone(k: Key, h: seq<byte>, suffix: seq<byte>, now: int)
    requires GoodKey(k) && h == (Encode(Oversize(k)) + suffix)[..HEADER]
    ensures Parse(h, now).Some? && Parse(h, now).value.key == []
  {
    hide Be, UnBe;
    var m := Oversize(k);
    var p := Header(SETQ, |k|, 8, |m.data|);
    assert h == p;
    ByteOrder32(0);
    ByteOrder16(|k|);
    assert h[8..12] == Be(0, 4);
    assert h[2..4] == Be(|k|, 2);
  }

  const MAX_ITER: nat := 50

  /** How a turn of the slave ends: no more bytes, enough of them, connection gone, not a request. */
  datatype Ending = Waits | Yields | Quits | Throws

  /** The slave's socket: its receive buffer, and the table its messages build. */
  class ReplClient {
    const clock: nat -> int
    var buffer: seq<byte>
    var table: Table
    var handled: nat
    ghost var requests: seq<seq<byte>>

    ghost predicate Valid()
      reads this
    {
      handled == |requests| && table == ReplayBytes(map[], requests, clock, 0)
    }

    constructor (clock: nat -> int)
      ensures Valid() && this.clock == clock && buffer == [] && requests == []
    {
      this.clock := clock;
      buffer, table, handled, requests := [], map[], 0, [];
    }

    /**
      `on_readable`: at most MAX_ITER reads, each followed by `repl_recv` and the removal of what
      it consumed, until nothing is there or the connection is gone.  `results` are the answers of
      the reads it would get.
    */
    method OnReadable(results: seq<Received>) returns (used: nat, end: Ending)
      requires Valid()
      modifies this
      ensures Valid() && Steady(BinaryFrame)
      ensures used <= |results| && used <= MAX_ITER
      ensures var c := FeedAll(BinaryFrame, None, Conn(old(requests), old(buffer), false), Chunks(results[..used]));
        if end.Throws? then c.closed && requests == c.executed else c == Conn(requests, buffer, false)
      ensures |Chunks(results[..used])| == used
      ensures end.Yields? ==> used == MAX_ITER
      ensures end.Quits? ==> used < |results| && results[used].Reset?
      ensures end.Waits? ==> used < MAX_ITER && (used == |results| || results[used].Again?)
    {
      BinarySteady();
      hide Steady, BinaryFrame, Drain, ReplayBytes, Parse;
      used, end := 0, Waits;
      ghost var start := Conn(requests, buffer, false);
      while used < |results| && results[used].Data?
        invariant used <= |results| && used < MAX_ITER && Valid()
        invariant forall i :: 0 <= i < used ==> results[i].Data?
        invariant |Chunks(results[..used])| == used
        invariant FeedAll(BinaryFrame, None, start, Chunks(results[..used])) == Conn(requests, buffer, false)
      {
        ghost var before, chunks := requests, Chunks(results[..used]);
        buffer := buffer + results[used].bytes;
        ChunksMore(results[..used], results[used]);
        assert results[..used] + [results[used]] == results[..used + 1];
        assert Chunks(results[..used + 1])[..used] == chunks;
        var consumed, table', bad, n, more := ReplRecv(buffer, table, clock, handled);
        ReplayMore(before, more, clock);
        requests := requests + more;
        table, handled, used := table', handled + n, used + 1;
        if bad { return used, Throws; }
        buffer := buffer[consumed..];
        if used >= MAX_ITER { return used, Yields; }
      }
      if used < |results| && results[used].Reset? { end := Quits; }
    }
  }
}
