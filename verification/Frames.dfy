/**
  Byte streams cut into requests.  A receive loop parses as many requests as its buffer holds and
  keeps the rest for the next chunk; how the network cuts the stream must not matter.
*/
module Frames {
  import opened Seqs
  import opened Numeric

  /** What a parser says of the head of a buffer: incomplete, not a request, or `n` bytes long. */
  datatype Head = More | Bad | Got(n: nat)

  type Framer = seq<byte> -> Head

  /** An answer never changes with more bytes, and a complete request is seen without them. */
  ghost predicate Steady(f: Framer) {
    && f([]) == More
    && (forall a :: f(a).Got? ==> 0 < f(a).n <= |a|)
    && (forall a, b :: !f(a).More? ==> f(a + b) == f(a))
    && (forall a, b :: f(a + b).Got? && f(a + b).n <= |a| ==> f(a) == f(a + b))
  }

  lemma HeadLength(f: Framer, p: seq<byte>)
    requires Steady(f)
    ensures f([]) == More
    ensures f(p).Got? ==> 0 < f(p).n <= |p| && f(p[..f(p).n]) == f(p)
  {
    if f(p).Got? {
      assert p == p[..f(p).n] + p[f(p).n..];
    }
  }

  lemma HeadGrows(f: Framer, a: seq<byte>, b: seq<byte>)
    requires Steady(f)
    ensures !f(a).More? ==> f(a + b) == f(a)
    ensures f(a + b).Got? && f(a + b).n <= |a| ==> f(a) == f(a + b)
  {}

  datatype Drained = Drained(requests: seq<seq<byte>>, rest: seq<byte>, bad: bool)

  /** Every complete request of the buffer, in order, and the unparsed suffix. */
  ghost function Drain(f: Framer, p: seq<byte>): Drained
    requires Steady(f)
    decreases |p|
  {
    match f(p)
    case More => Drained([], p, false)
    case Bad => Drained([], p, true)
    case Got(n) =>
      var d := Drain(f, p[n..]);
      d.(requests := [p[..n]] + d.requests)
  }

  // ---------------------------------------------------------------- cutting the stream

  /** Requests and rest partition the buffer. */
  lemma {:induction false} DrainPartition(f: Framer, p: seq<byte>)
    requires Steady(f)
    ensures Concat(Drain(f, p).requests) + Drain(f, p).rest == p
    decreases |p|
  {
    hide Steady, Concat, Drain;
    HeadLength(f, p);
    DrainStep(f, p);
    if f(p).Got? {
      var n := f(p).n;
      var d := Drain(f, p[n..]);
      DrainPartition(f, p[n..]);
      ConcatFirst(p[..n], d.requests);
      Assoc(p[..n], Concat(d.requests), d.rest);
    } else {
      ConcatNothing<byte>();
    }
  }

  lemma DrainStep(f: Framer, p: seq<byte>)
    requires Steady(f)
    ensures f(p).Got? ==>
      f(p).n <= |p| && Drain(f, p) == var d := Drain(f, p[f(p).n..]); Drained([p[..f(p).n]] + d.requests, d.rest, d.bad)
    ensures !f(p).Got? ==> Drain(f, p) == Drained([], p, f(p).Bad?)
  {}

  /** Each request is exactly one, and the rest holds no complete request. */
  lemma {:induction false} DrainHeads(f: Framer, p: seq<byte>)
    requires Steady(f)
    ensures var d := Drain(f, p);
      && f(d.rest) == (if d.bad then Bad else More)
      && forall i :: 0 <= i < |d.requests| ==> f(d.requests[i]) == Got(|d.requests[i]|) && |d.requests[i]| <= |p|
    decreases |p|
  {
    hide Steady;
    HeadLength(f, p);
    if f(p).Got? {
      DrainHeads(f, p[f(p).n..]);
    }
  }

  /** Parsing a buffer, then what is left with more bytes, is parsing all of it. */
  lemma {:induction false} DrainSplit(f: Framer, a: seq<byte>, b: seq<byte>)
    requires Steady(f)
    ensures var d := Drain(f, a);
      Drain(f, a + b) ==
        if d.bad then d.(rest := d.rest + b)
        else var e := Drain(f, d.rest + b); e.(requests := d.requests + e.requests)
    decreases |a|
  {
    hide Steady, Drain;
    HeadLength(f, a);
    HeadGrows(f, a, b);
    DrainStep(f, a);
    DrainStep(f, a + b);
    if f(a).Got? {
      var n := f(a).n;
      DrainSplit(f, a[n..], b);
      assert (a + b)[..n] == a[..n];
      assert (a + b)[n..] == a[n..] + b;
      var d := Drain(f, a[n..]);
      if !d.bad {
        Assoc([a[..n]], d.requests, Drain(f, d.rest + b).requests);
      }
    }
  }

  // ---------------------------------------------------------------- the receive loop

  /**
    A connection: the requests executed and the bytes not parsed yet.  It is closed once the
    unparsed bytes exceed the limit or do not begin a request.
  */
  datatype Conn = Conn(executed: seq<seq<byte>>, pending: seq<byte>, closed: bool)

  predicate Exceeds(limit: Option<nat>, n: nat) { limit.Some? && n > limit.value }

  /** One chunk received, and the parsing loop behind it. */
  ghost function Feed(f: Framer, limit: Option<nat>, c: Conn, chunk: seq<byte>): Conn
    requires Steady(f)
  {
    if c.closed then c
    else
      var d := Drain(f, c.pending + chunk);
      if d.bad || Exceeds(limit, |d.rest|) then Conn(c.executed + d.requests, [], true)
      else Conn(c.executed + d.requests, d.rest, false)
  }

  ghost function FeedAll(f: Framer, limit: Option<nat>, c: Conn, chunks: seq<seq<byte>>): Conn
    requires Steady(f)
    decreases |chunks|
  {
    if chunks == [] then c
    else Feed(f, limit, FeedAll(f, limit, c, chunks[..|chunks| - 1]), chunks[|chunks| - 1])
  }

  const NEW_CONN := Conn([], [], false)

  /**
    Chunk independence: while the connection is open, what was executed and what is left depend on
    the bytes alone.
  */
  lemma {:induction false} ChunkIndependence(f: Framer, limit: Option<nat>, chunks: seq<seq<byte>>)
    requires Steady(f) && !FeedAll(f, limit, NEW_CONN, chunks).closed
    ensures var d := Drain(f, Concat(chunks));
      FeedAll(f, limit, NEW_CONN, chunks) == Conn(d.requests, d.rest, false) && !d.bad
    decreases |chunks|
  {
    hide Steady;
    HeadLength(f, []);
    if chunks != [] {
      var head, last := chunks[..|chunks| - 1], chunks[|chunks| - 1];
      ChunkIndependence(f, limit, head);
      DrainSplit(f, Concat(head), last);
    }
  }

  /** Nothing malformed, and nothing longer than the limit lets pass. */
  ghost predicate Within(f: Framer, limit: Option<nat>, p: seq<byte>)
    requires Steady(f)
  {
    var d := Drain(f, p);
    && !d.bad && !Exceeds(limit, |d.rest|)
    && forall i :: 0 <= i < |d.requests| && |d.requests[i]| > 0 ==> !Exceeds(limit, |d.requests[i]| - 1)
  }

  /** The unparsed bytes of a prefix are those of the whole, or the beginning of a request. */
  lemma {:induction false} PrefixWithin(f: Framer, limit: Option<nat>, a: seq<byte>, b: seq<byte>)
    requires Steady(f) && Within(f, limit, a + b)
    ensures Within(f, limit, a)
    decreases |a|
  {
    hide Steady;
    HeadLength(f, a);
    HeadLength(f, a + b);
    HeadGrows(f, a, b);
    if f(a).Got? {
      var n := f(a).n;
      assert (a + b)[..n] == a[..n];
      assert (a + b)[n..] == a[n..] + b;
      var d := Drain(f, a[n..] + b);
      assert Drain(f, a + b).requests == [a[..n]] + d.requests;
      assert forall i :: 0 <= i < |d.requests| ==> d.requests[i] == Drain(f, a + b).requests[i + 1];
      PrefixWithin(f, limit, a[n..], b);
      assert Drain(f, a).requests == [a[..n]] + Drain(f, a[n..]).requests;
      assert a[..n] == Drain(f, a + b).requests[0];
    } else if f(a).More? && f(a + b).Got? {
      assert |Drain(f, a + b).requests[0]| == f(a + b).n > |a|;
    }
  }

  /** A stream within the limit is served whole, however it is cut. */
  lemma {:induction false} WithinIsServed(f: Framer, limit: Option<nat>, chunks: seq<seq<byte>>)
    requires Steady(f) && Within(f, limit, Concat(chunks))
    ensures !FeedAll(f, limit, NEW_CONN, chunks).closed
    decreases |chunks|
  {
    hide Steady;
    HeadLength(f, []);
    if chunks != [] {
      var head, last := chunks[..|chunks| - 1], chunks[|chunks| - 1];
      PrefixWithin(f, limit, Concat(head), last);
      WithinIsServed(f, limit, head);
      ChunkIndependence(f, limit, head);
      DrainSplit(f, Concat(head), last);
    }
  }

  /** The stream arriving one byte at a time. */
  function Bytewise(p: seq<byte>): (chunks: seq<seq<byte>>)
    ensures Concat(chunks) == p
  {
    if p == [] then []
    else
      var chunks := Bytewise(p[..|p| - 1]) + [p[|p| - 1..]];
      assert chunks[..|chunks| - 1] == Bytewise(p[..|p| - 1]);
      chunks
  }

  /** Any other stream is cut off when it arrives byte by byte. */
  lemma {:induction false} BeyondIsDenied(f: Framer, limit: Option<nat>, p: seq<byte>)
    requires Steady(f) && !Within(f, limit, p)
    ensures FeedAll(f, limit, NEW_CONN, Bytewise(p)).closed
    decreases |p|
  {
    hide Steady;
    HeadLength(f, p);
    if p != [] {
      var a, b := p[..|p| - 1], p[|p| - 1..];
      assert Bytewise(p)[..|Bytewise(p)| - 1] == Bytewise(a);
      if !Within(f, limit, a) {
        BeyondIsDenied(f, limit, a);
      } else {
        WithinIsServed(f, limit, Bytewise(a));
        ChunkIndependence(f, limit, Bytewise(a));
        assert p == a + b;
        DrainSplit(f, a, b);
        DrainHeads(f, Drain(f, a).rest + b);
      }
    }
  }

  /**
    Exactly the streams within the limit execute the same requests and leave the same rest under
    every cut.
  */
  lemma Served(f: Framer, limit: Option<nat>, p: seq<byte>)
    requires Steady(f)
    ensures Within(f, limit, p) <==>
            forall chunks: seq<seq<byte>> :: Concat(chunks) == p ==>
              FeedAll(f, limit, NEW_CONN, chunks) == Conn(Drain(f, p).requests, Drain(f, p).rest, false)
  {
    if Within(f, limit, p) {
      forall chunks: seq<seq<byte>> | Concat(chunks) == p
        ensures FeedAll(f, limit, NEW_CONN, chunks) == Conn(Drain(f, p).requests, Drain(f, p).rest, false)
      {
        WithinIsServed(f, limit, chunks);
        ChunkIndependence(f, limit, chunks);
      }
    } else {
      BeyondIsDenied(f, limit, p);
      assert Concat(Bytewise(p)) == p;
    }
  }

  // ---------------------------------------------------------------- the loops themselves

  /** The inner loop of a receive job: `head` advances over the requests of the buffer. */
  method ParseLoop(f: Framer, buf: seq<byte>) returns (executed: seq<seq<byte>>, head: nat, bad: bool)
    requires Steady(f)
    ensures head <= |buf|
    ensures Drain(f, buf) == Drained(executed, buf[head..], bad)
  {
    hide Steady;
    HeadLength(f, []);
    executed, head, bad := [], 0, false;
    assert buf[0..] == buf;
    while head < |buf|
      invariant head <= |buf| && !bad
      invariant Drain(f, buf) == var d := Drain(f, buf[head..]); d.(requests := executed + d.requests)
    {
      ghost var p := buf[head..];
      HeadLength(f, p);
      match f(buf[head..]) {
        case More => return;
        case Bad => bad := true; return;
        case Got(n) =>
          assert p[n..] == buf[head + n..] && p[..n] == buf[head..head + n];
          executed := executed + [buf[head..head + n]];
          head := head + n;
      }
    }
    assert buf[head..] == [];
  }

  /** What `receive` returns. */
  datatype Received = Data(bytes: seq<byte>) | Again | Reset

  /** The bytes of a job's successful reads: up to the first other result. */
  function Chunks(results: seq<Received>): seq<seq<byte>> {
    if results == [] || !results[0].Data? then [] else [results[0].bytes] + Chunks(results[1..])
  }

  lemma {:induction false} ChunksMore(results: seq<Received>, r: Received)
    requires forall i :: 0 <= i < |results| ==> results[i].Data?
    ensures |Chunks(results)| == |results|
    ensures Chunks(results + [r]) == Chunks(results) + if r.Data? then [r.bytes] else []
  {
    if results != [] {
      assert (results + [r])[1..] == results[1..] + [r];
      ChunksMore(results[1..], r);
    } else {
      assert results + [r] == [r];
    }
  }

  lemma {:induction false} FeedFirst(f: Framer, limit: Option<nat>, c: Conn, chunk: seq<byte>, rest: seq<seq<byte>>)
    requires Steady(f)
    ensures FeedAll(f, limit, c, [chunk] + rest) == FeedAll(f, limit, Feed(f, limit, c, chunk), rest)
    decreases |rest|
  {
    if rest == [] {
      assert [chunk] + rest == [chunk];
      assert [chunk][..0] == [];
    } else {
      FeedFirst(f, limit, c, chunk, rest[..|rest| - 1]);
      assert ([chunk] + rest)[..|rest|] == [chunk] + rest[..|rest| - 1];
    }
  }

  lemma {:induction false} FeedClosed(f: Framer, limit: Option<nat>, c: Conn, chunks: seq<seq<byte>>)
    requires Steady(f) && c.closed
    ensures FeedAll(f, limit, c, chunks) == c
    decreases |chunks|
  {
    if chunks != [] { FeedClosed(f, limit, c, chunks[..|chunks| - 1]); }
  }

  /** A client socket with its receive job. */
  class Receiver {
    const frame: Framer
    const limit: Option<nat>
    var executed: seq<seq<byte>>
    var pending: seq<byte>
    var closed: bool

    constructor (f: Framer, limit: Option<nat>)
      ensures frame == f && this.limit == limit && State() == NEW_CONN
    {
      frame, this.limit, executed, pending, closed := f, limit, [], [], false;
    }

    ghost function State(): Conn
      reads this
    {
      Conn(executed, pending, closed)
    }

    /**
      The receive job: load the pending bytes, receive and parse until the socket has no more,
      save what is left.  A reset drops the unparsed bytes.
    */
    method ReceiveJob(results: seq<Received>) returns (reset: bool)
      requires Steady(frame) && !closed
      modifies this
      ensures var s := FeedAll(frame, limit, old(State()), Chunks(results));
        if reset then State() == s.(pending := [], closed := true) else State() == s
    {
      hide Steady, Drain;
      var buf := pending;
      pending := [];
      reset := false;
      var i := 0;
      ghost var end := FeedAll(frame, limit, old(State()), Chunks(results));
      assert results[0..] == results;
      while i < |results| && results[i].Data?
        invariant 0 <= i <= |results|
        invariant pending == [] && (closed ==> buf == [])
        invariant FeedAll(frame, limit, Conn(executed, buf, closed), Chunks(results[i..])) == end
        invariant !closed
      {
        var chunk := results[i].bytes;
        assert results[i..][1..] == results[i + 1..];
        FeedFirst(frame, limit, Conn(executed, buf, false), chunk, Chunks(results[i + 1..]));
        buf := buf + chunk;
        var requests, head, bad := ParseLoop(frame, buf);
        executed := executed + requests;
        if bad || Exceeds(limit, |buf| - head) {
          closed := true;
          FeedClosed(frame, limit, State(), Chunks(results[i + 1..]));
          return;
        }
        buf := buf[head..];
        i := i + 1;
      }
      if i < |results| && results[i].Reset? {
        buf, closed, reset := [], true, true;
      }
      pending := buf;
    }
  }
}
