/** The counter protocol's requests, and the connection object that executes them. */
module CounterSockets {
  import opened Seqs
  import opened Numeric
  import opened Objects
  import opened CounterObjects
  import opened Counters
  import opened Frames
  import Wire

  // ---------------------------------------------------------------- requests

  const COUNTER_HEADER: nat := 12
  const MAGIC: byte := 0x90
  const GET: byte := 0x01
  const ACQUIRE: byte := 0x02
  const RELEASE: byte := 0x03
  const UNKNOWN: byte := 0x12

  datatype ParseStatus = Good | Invalid | UnknownCommand

  /** Fields the parser did not reach keep their initial values. */
  datatype Request = Request(
    length: nat, command: byte, resources: nat, maximum: nat, name: Name, status: ParseStatus)

  predicate Bodyless(c: byte) { c == 0x00 || c == 0x10 || c == 0x11 }

  /** A name with its 16-bit length at offset `at` of the body. */
  function NameAt(body: seq<byte>, at: nat): Option<Name>
    requires at + 2 <= |body|
  {
    var n := Wire.UnBe(body[at..at + 2]);
    if n == 0 || at + 2 + n > |body| then None else Some(body[at + 2..at + 2 + n])
  }

  function WithName(r: Request, body: seq<byte>, at: nat): Request
    requires at + 2 <= |body|
  {
    match NameAt(body, at)
    case None => r
    case Some(name) => r.(name := name, status := Good)
  }

  function ParseBody(r: Request, body: seq<byte>): Request {
    if Bodyless(r.command) then r.(status := Good)
    else if r.command == GET then if |body| < 2 then r else WithName(r, body, 0)
    else if r.command == ACQUIRE then
      if |body| < 10 then r
      else
        var r1 := r.(resources := Wire.UnBe(body[0..4]));
        if r1.resources == 0 then r1
        else
          var r2 := r1.(maximum := Wire.UnBe(body[4..8]));
          if r2.maximum < r2.resources then r2 else WithName(r2, body, 8)
    else if r.command == RELEASE then
      if |body| < 6 then r else WithName(r.(resources := Wire.UnBe(body[0..4])), body, 4)
    else r.(command := UNKNOWN, status := UnknownCommand)
  }

  /** `request::parse`; None while the request is incomplete.  A wrong magic number is consumed. */
  function ParseRequest(p: seq<byte>): Option<Request> {
    match CounterFrame(p)
    case Got(n) =>
      var r := Request(n, p[1], 0, 0, [], Invalid);
      Some(if p[0] != MAGIC then r else ParseBody(r, p[COUNTER_HEADER..n]))
    case _ => None
  }

  function CounterFrame(p: seq<byte>): (h: Head)
    ensures h.Got? ==> COUNTER_HEADER <= h.n <= |p|
  {
    if |p| < COUNTER_HEADER || |p| < COUNTER_HEADER + Wire.UnBe(p[4..8]) then More
    else Got(COUNTER_HEADER + Wire.UnBe(p[4..8]))
  }

  /** Counter requests frame a byte stream, so the stream may be cut anywhere. */
  lemma CounterSteady()
    ensures Steady(CounterFrame)
  {
    hide Wire.UnBe;
    forall a: seq<byte>, b: seq<byte>
      ensures !CounterFrame(a).More? ==> CounterFrame(a + b) == CounterFrame(a)
      ensures CounterFrame(a + b).Got? && CounterFrame(a + b).n <= |a| ==> CounterFrame(a) == CounterFrame(a + b)
    {
      if |a| >= COUNTER_HEADER { assert (a + b)[4..8] == a[4..8]; }
    }
  }

  /** A counter connection serves a stream alike under every cut exactly if it is within the request limit. */
  lemma CounterServed(p: seq<byte>)
    ensures Steady(CounterFrame)
    ensures var limit := Some(Wire.MAX_REQUEST_LENGTH);
      var d := Drain(CounterFrame, p);
      Within(CounterFrame, limit, p) <==>
        forall chunks: seq<seq<byte>> :: Concat(chunks) == p ==>
          FeedAll(CounterFrame, limit, NEW_CONN, chunks) == Conn(d.requests, d.rest, false)
  {
    CounterSteady();
    hide Steady, CounterFrame, Drain, FeedAll, Concat;
    Served(CounterFrame, Some(Wire.MAX_REQUEST_LENGTH), p);
  }

  /** The parser reads only the bytes of the request. */
  lemma CounterParse(p: seq<byte>)
    requires CounterFrame(p).Got?
    ensures ParseRequest(p[..CounterFrame(p).n]) == ParseRequest(p)
  {
    hide Wire.UnBe, ParseBody;
    var n := CounterFrame(p).n;
    var q := p[..n];
    assert q[4..8] == p[4..8];
    assert q[COUNTER_HEADER..n] == p[COUNTER_HEADER..n];
  }

  /** What the conservation machine assumes of a request, the parser guarantees. */
  lemma ParsedRequest(p: seq<byte>)
    requires ParseRequest(p).Some? && ParseRequest(p).value.status.Good?
    ensures var r := ParseRequest(p).value;
      && (r.command == ACQUIRE ==> 1 <= r.resources <= r.maximum < TWO32)
      && (r.command == RELEASE ==> r.resources < TWO32)
      && (r.command == GET || r.command == ACQUIRE || r.command == RELEASE ==> r.name != [])
  {
    var body := p[COUNTER_HEADER..CounterFrame(p).n];
    assert Wire.Pow256(4) == TWO32;
    if |body| >= 4 { Wire.UnBeBound(body[0..4]); }
    if |body| >= 8 { Wire.UnBeBound(body[4..8]); }
    hide Wire.UnBe, Wire.Pow256;
  }

  /** A request as a client writes it: magic, command, flags, body length, opaque, body. */
  function CounterPacket(op: byte, flags: seq<byte>, opaq: seq<byte>, body: seq<byte>): (p: seq<byte>)
    requires |flags| == 2 && |opaq| == 4
    ensures |p| == COUNTER_HEADER + |body|
  {
    [MAGIC, op] + flags + Wire.Be(|body|, 4) + opaq + body
  }

  /** The length of the name before the name. */
  function NameBytes(name: Name): seq<byte> { Wire.Be(|name|, 2) + name }

  lemma PacketParses(op: byte, flags: seq<byte>, opaq: seq<byte>, body: seq<byte>, suffix: seq<byte>)
    requires |flags| == 2 && |opaq| == 4 && |body| < TWO32
    ensures var p := CounterPacket(op, flags, opaq, body) + suffix;
      ParseRequest(p) == Some(ParseBody(Request(COUNTER_HEADER + |body|, op, 0, 0, [], Invalid), body))
  {
    hide Wire.Be, Wire.UnBe, ParseBody;
    var p := CounterPacket(op, flags, opaq, body) + suffix;
    Wire.ByteOrder32(|body|);
    assert p[4..8] == Wire.Be(|body|, 4);
    assert p[COUNTER_HEADER..COUNTER_HEADER + |body|] == body;
  }

  lemma NameReads(front: seq<byte>, name: Name, rest: seq<byte>)
    requires 1 <= |name| < 0x1_0000
    ensures NameAt(front + (NameBytes(name) + rest), |front|) == Some(name)
  {
    hide Wire.Be, Wire.UnBe;
    var body := front + (NameBytes(name) + rest);
    Wire.ByteOrder16(|name|);
    assert body[|front|..|front| + 2] == Wire.Be(|name|, 2);
    assert body[|front| + 2..|front| + 2 + |name|] == name;
  }

  /** Every request for a counter arrives as it was written, whatever follows the name and the request. */
  lemma CounterRequestsArrive(name: Name, n: nat, maximum: nat, flags: seq<byte>, opaq: seq<byte>,
                              rest: seq<byte>, suffix: seq<byte>)
    requires 1 <= |name| < 0x1_0000 && n < TWO32 && maximum < TWO32 && |flags| == 2 && |opaq| == 4
    requires |rest| + |name| + 10 < TWO32
    ensures var body := NameBytes(name) + rest;
      ParseRequest(CounterPacket(GET, flags, opaq, body) + suffix) ==
        Some(Request(COUNTER_HEADER + |body|, GET, 0, 0, name, Good))
    ensures var body := Wire.Be(n, 4) + (NameBytes(name) + rest);
      ParseRequest(CounterPacket(RELEASE, flags, opaq, body) + suffix) ==
        Some(Request(COUNTER_HEADER + |body|, RELEASE, n, 0, name, Good))
    ensures var body := Wire.Be(n, 4) + Wire.Be(maximum, 4) + (NameBytes(name) + rest);
      ParseRequest(CounterPacket(ACQUIRE, flags, opaq, body) + suffix) ==
        Some(if n == 0 then Request(COUNTER_HEADER + |body|, ACQUIRE, 0, 0, [], Invalid)
             else if maximum < n then Request(COUNTER_HEADER + |body|, ACQUIRE, n, maximum, [], Invalid)
             else Request(COUNTER_HEADER + |body|, ACQUIRE, n, maximum, name, Good))
  {
    hide Wire.Be, Wire.UnBe, CounterPacket, ParseRequest, NameAt, NameBytes;
    var tail := NameBytes(name) + rest;
    assert |NameBytes(name)| == 2 + |name| by { NameLength(name); }
    GetArrives(name, flags, opaq, rest, suffix);
    ReleaseArrives(name, n, flags, opaq, rest, suffix);
    AcquireArrives(name, n, maximum, flags, opaq, rest, suffix);
  }

  lemma NameLength(name: Name)
    ensures |NameBytes(name)| == 2 + |name|
  {}

  lemma GetArrives(name: Name, flags: seq<byte>, opaq: seq<byte>, rest: seq<byte>, suffix: seq<byte>)
    requires 1 <= |name| < 0x1_0000 && |flags| == 2 && |opaq| == 4 && |rest| + |name| + 10 < TWO32
    ensures var body := NameBytes(name) + rest;
      ParseRequest(CounterPacket(GET, flags, opaq, body) + suffix) ==
        Some(Request(COUNTER_HEADER + |body|, GET, 0, 0, name, Good))
  {
    hide Wire.Be, Wire.UnBe, CounterPacket, ParseRequest, NameAt, NameBytes;
    var body := NameBytes(name) + rest;
    NameLength(name);
    NameReads([], name, rest);
    assert [] + body == body;
    PacketParses(GET, flags, opaq, body, suffix);
  }

  lemma ReleaseArrives(name: Name, n: nat, flags: seq<byte>, opaq: seq<byte>, rest: seq<byte>, suffix: seq<byte>)
    requires 1 <= |name| < 0x1_0000 && n < TWO32 && |flags| == 2 && |opaq| == 4 && |rest| + |name| + 10 < TWO32
    ensures var body := Wire.Be(n, 4) + (NameBytes(name) + rest);
      ParseRequest(CounterPacket(RELEASE, flags, opaq, body) + suffix) ==
        Some(Request(COUNTER_HEADER + |body|, RELEASE, n, 0, name, Good))
  {
    hide Wire.Be, Wire.UnBe, CounterPacket, ParseRequest, NameAt, NameBytes;
    var body := Wire.Be(n, 4) + (NameBytes(name) + rest);
    NameLength(name);
    NameReads(Wire.Be(n, 4), name, rest);
    Wire.ByteOrder32(n);
    assert body[0..4] == Wire.Be(n, 4);
    PacketParses(RELEASE, flags, opaq, body, suffix);
  }

  lemma AcquireArrives(name: Name, n: nat, maximum: nat, flags: seq<byte>, opaq: seq<byte>,
                       rest: seq<byte>, suffix: seq<byte>)
    requires 1 <= |name| < 0x1_0000 && n < TWO32 && maximum < TWO32 && |flags| == 2 && |opaq| == 4
    requires |rest| + |name| + 10 < TWO32
    ensures var body := Wire.Be(n, 4) + Wire.Be(maximum, 4) + (NameBytes(name) + rest);
      ParseRequest(CounterPacket(ACQUIRE, flags, opaq, body) + suffix) ==
        Some(if n == 0 then Request(COUNTER_HEADER + |body|, ACQUIRE, 0, 0, [], Invalid)
             else if maximum < n then Request(COUNTER_HEADER + |body|, ACQUIRE, n, maximum, [], Invalid)
             else Request(COUNTER_HEADER + |body|, ACQUIRE, n, maximum, name, Good))
  {
    hide Wire.Be, Wire.UnBe, CounterPacket, ParseRequest, NameAt, NameBytes;
    var front := Wire.Be(n, 4) + Wire.Be(maximum, 4);
    var body := front + (NameBytes(name) + rest);
    NameLength(name);
    NameReads(front, name, rest);
    Wire.ByteOrder32(n);
    Wire.ByteOrder32(maximum);
    assert body[0..4] == Wire.Be(n, 4) && body[4..8] == Wire.Be(maximum, 4);
    PacketParses(ACQUIRE, flags, opaq, body, suffix);
  }

  // ---------------------------------------------------------------- the connection

  /** The shared hash map, by its contents (module HashMaps has its structure). */
  class Hash {
    var table: Table
    var next: nat
    constructor ()
      ensures table == map[] && next == 0
    {
      table, next := map[], 0;
    }
  }

  predicate Releasable(table: Table, entries: Entries, r: Ref) {
    r in entries ==> AliveRef(table, r) && entries[r] <= table[r.name].counter.consumption
  }

  /** Every entry given back to its counter. */
  function AfterRelease(table: Table, entries: Entries, now: nat, interval: nat): (t: Table)
    requires interval > 0
    ensures t.Keys == table.Keys
  {
    map k | k in table ::
      var c := Released(table[k].counter, Entry(entries, Ref(k, table[k].id)), now, interval);
      if Ref(k, table[k].id) in entries && c.Some? then Item(table[k].id, c.value) else table[k]
  }

  function Only(entries: Entries, done: set<Ref>): Entries {
    map r | r in entries && r in done :: entries[r]
  }

  lemma AllAtOnce(table: Table, entries: Entries, now: nat, interval: nat)
    requires interval > 0
    ensures AfterRelease(table, Only(entries, {}), now, interval) == table
    ensures Only(entries, entries.Keys) == entries
  {}

  lemma NotYet(table: Table, entries: Entries, done: set<Ref>, r: Ref, now: nat, interval: nat)
    requires interval > 0 && r !in done
    ensures var t := AfterRelease(table, Only(entries, done), now, interval);
      && (r.name in t <==> r.name in table)
      && (r.name in t ==> t[r.name].id == table[r.name].id)
      && (AliveRef(table, r) ==> t[r.name] == table[r.name])
  {}

  lemma OneMore(table: Table, entries: Entries, done: set<Ref>, r: Ref, now: nat, interval: nat)
    requires interval > 0 && r in entries && Releasable(table, entries, r)
    ensures AfterRelease(table, Only(entries, done + {r}), now, interval) ==
            AfterRelease(table, Only(entries, done), now, interval)
              [r.name := Item(r.id, Released(table[r.name].counter, entries[r], now, interval).value)]
  {
    assert forall q :: q != r ==> (q in Only(entries, done + {r}) <==> q in Only(entries, done));
  }

  class CounterSocket {
    const hash: Hash
    const interval: nat
    var acquired: Entries

    constructor (hash: Hash, interval: nat)
      ensures this.hash == hash && this.interval == interval && acquired == map[]
    {
      this.hash, this.interval, acquired := hash, interval, map[];
    }

    method NoteAcquired(r: Ref, n: nat)
      modifies this
      ensures acquired == OnAcquire(old(acquired), r, n)
    {
      if r in acquired {
        acquired := acquired[r := (acquired[r] + n) % TWO32];
        return;
      }
      acquired := acquired[r := n];
    }

    method NoteReleased(r: Ref, n: nat) returns (ok: bool)
      modifies this
      ensures var e := OnRelease(old(acquired), r, n);
        ok == e.Some? && acquired == if ok then e.value else old(acquired)
    {
      if r !in acquired || acquired[r] < n { return false; }
      if acquired[r] == n {
        acquired := acquired - {r};
        return true;
      }
      acquired := acquired[r := acquired[r] - n];
      return true;
    }

    method CmdAcquire(name: Name, n: nat, maximum: nat, now: nat) returns (status: Status)
      requires interval > 0
      modifies this, hash
      ensures Result(hash.table, hash.next, acquired, status) ==
              Counters.Acquire(old(hash.table), old(hash.next), old(acquired), name, n, maximum, now, interval)
    {
      if name in hash.table {
        var i := hash.table[name];
        var c := Acquired(i.counter, n, maximum, now, interval);
        if c.None? { return NotAvailable; }
        hash.table := hash.table[name := i.(counter := c.value)];
        NoteAcquired(Ref(name, i.id), n);
        return Ok;
      }
      var id := hash.next;
      NoteAcquired(Ref(name, id), n);
      hash.table, hash.next := hash.table[name := Item(id, NewCounter(n, now))], id + 1;
      return Ok;
    }

    method CmdRelease(name: Name, n: nat, now: nat) returns (status: Status)
      requires interval > 0
      modifies this, hash
      ensures Result(hash.table, hash.next, acquired, status) ==
              Counters.Release(old(hash.table), old(hash.next), old(acquired), name, n, now, interval)
    {
      if name !in hash.table { return NotFound; }
      var i := hash.table[name];
      var ok := NoteReleased(Ref(name, i.id), n);
      if !ok { return NotAcquired; }
      var c := Released(i.counter, n, now, interval);
      if c.None? { return Bug; }
      hash.table := hash.table[name := i.(counter := c.value)];
      return Ok;
    }

    /**
      `release_all`, in whatever order the entries come: it ends well exactly when every entry can
      be given back, and then each counter is lower by this connection's entry.
    */
    method ReleaseAll(now: nat) returns (ok: bool)
      requires interval > 0
      modifies this, hash
      ensures ok <==> forall r :: Releasable(old(hash.table), old(acquired), r)
      ensures ok ==> acquired == map[] && hash.table == AfterRelease(old(hash.table), old(acquired), now, interval)
      ensures hash.next == old(hash.next)
    {
      hide AfterRelease, Only;
      ghost var table := hash.table;
      var todo := acquired.Keys;
      ghost var done: set<Ref> := {};
      AllAtOnce(table, acquired, now, interval);
      while todo != {}
        invariant acquired == old(acquired) && hash.next == old(hash.next)
        invariant todo + done == acquired.Keys && todo !! done
        invariant forall r :: r in done ==> Releasable(table, acquired, r)
        invariant hash.table == AfterRelease(table, Only(acquired, done), now, interval)
        decreases |todo|
      {
        var r :| r in todo;
        assert r in acquired;
        NotYet(table, acquired, done, r, now, interval);
        if r.name !in hash.table || hash.table[r.name].id != r.id {
          assert !Releasable(table, acquired, r);
          return false;
        }
        var c := Released(hash.table[r.name].counter, acquired[r], now, interval);
        if c.None? {
          assert !Releasable(table, acquired, r);
          return false;
        }
        OneMore(table, acquired, done, r, now, interval);
        hash.table := hash.table[r.name := Item(r.id, c.value)];
        todo, done := todo - {r}, done + {r};
      }
      acquired := map[];
      return true;
    }
  }

  /** In a balanced state `release_all` ends well, for every connection. */
  lemma ReleaseAllSucceeds(s: State, x: nat, r: Ref)
    requires Conserved(s) && x < |s.conns|
    ensures Releasable(s.table, s.conns[x], r)
  {
    if r in s.conns[x] {
      EntryAlive(s, x, r);
      EntryBound(s, x, r.name);
    }
  }
}
