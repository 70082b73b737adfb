/**
  The binary protocol as the replication stream uses it: `binary_request::parse`, the encoders
  of `repl_object`, `repl_touch` and `repl_delete`, and what survives the trip.
*/
module Wire {
  import opened Seqs
  import opened Numeric
  import opened Objects
  import opened Commands

  const HEADER: nat := 24
  const MAX_REQUEST_LENGTH: nat := 30 * 1024 * 1024
  const EXPTIME_THRESHOLD: int := 60 * 60 * 24 * 30
  const EXPTIME_NONE: int := -1

  const SETQ: byte := 0x11
  const TOUCH: byte := 0x1c
  const DELETEQ: byte := 0x14

  // ---------------------------------------------------------------- network byte order

  /** hton for an n-byte unsigned integer. */
  function Be(v: nat, n: nat): (s: seq<byte>)
    ensures |s| == n
  {
    if n == 0 then [] else Be(v / 256, n - 1) + [v % 256]
  }

  /** ntoh. */
  function UnBe(s: seq<byte>): nat {
    if s == [] then 0 else 256 * UnBe(s[..|s| - 1]) + s[|s| - 1]
  }

  function Pow256(n: nat): (r: nat)
    ensures r > 0
  {
    if n == 0 then 1 else 256 * Pow256(n - 1)
  }

  lemma {:induction false} ByteOrder(v: nat, n: nat)
    requires v < Pow256(n)
    ensures UnBe(Be(v, n)) == v
  {
    if n > 0 {
      ByteOrder(v / 256, n - 1);
      assert Be(v, n)[..n - 1] == Be(v / 256, n - 1);
    }
  }

  lemma ByteOrder16(v: nat)
    requires v < 0x1_0000
    ensures UnBe(Be(v, 2)) == v
  {
    assert Pow256(2) == 0x1_0000;
    ByteOrder(v, 2);
  }

  lemma ByteOrder32(v: nat)
    requires v < TWO32
    ensures UnBe(Be(v, 4)) == v
  {
    assert Pow256(4) == TWO32;
    ByteOrder(v, 4);
  }

  lemma {:induction false} UnBeBound(s: seq<byte>)
    ensures UnBe(s) < Pow256(|s|)
    decreases |s|
  {
    if s != [] { UnBeBound(s[..|s| - 1]); }
  }

  // ---------------------------------------------------------------- parsing

  predicate IsGet(c: byte) {
    c in {0x00, 0x09, 0x0c, 0x0d, 0x1d, 0x1e, 0x23, 0x24} || 0x46 <= c <= 0x49
  }
  predicate IsStore(c: byte) { c in {0x01, 0x02, 0x03, 0x11, 0x12, 0x13, 0x4a, 0x4b} }
  predicate IsDelete(c: byte) { c == 0x04 || c == 0x14 }
  predicate IsArith(c: byte) { c in {0x05, 0x06, 0x15, 0x16} }
  predicate IsFlush(c: byte) { c == 0x08 || c == 0x18 }
  predicate IsConcat(c: byte) { c in {0x0e, 0x0f, 0x19, 0x1a} }
  predicate IsLocking(c: byte) { 0x40 <= c <= 0x43 }
  predicate IsLoose(c: byte) { c in {0x07, 0x0a, 0x0b, 0x17, 0x44, 0x45} }
  const STAT: byte := 0x10
  const KEYS: byte := 0x50

  datatype BinStatus = Good | BadRequest | TooLargeValue | UnknownCommand

  /** Fields the parser did not reach keep their initial values. */
  datatype BinRequest = BinRequest(
    length: nat, status: BinStatus, command: byte, key: seq<byte>, cas: nat,
    flags: nat, exptime: int, data: seq<byte>, value: nat, initial: nat)

  /** `binary_exptime`: relative times are resolved against the clock. */
  function BinaryExptime(t: nat, now: int): int {
    if t == 0 then 0
    else if t == TWO32 - 1 then EXPTIME_NONE
    else if t > EXPTIME_THRESHOLD then t
    else now + t
  }

  function TotalLength(p: seq<byte>): nat
    requires |p| >= HEADER
  {
    UnBe(p[8..12])
  }

  /** The extras of a request that carries an expiration time at offset `at`. */
  function ExptimeAt(p: seq<byte>, at: nat, now: int): int
    requires at + 4 <= |p|
  {
    BinaryExptime(UnBe(p[at..at + 4]), now)
  }

  /** The checks and extras of each command; None is "invalid". */
  function ParseExtras(r: BinRequest, p: seq<byte>, keyLength: nat, extras: nat, dataLength: nat, now: int)
    : (x: Option<BinRequest>)
    requires HEADER + extras <= |p|
    ensures x.Some? ==> x.value.length == r.length && x.value.key == r.key && x.value.data == r.data
  {
    var c := r.command;
    if IsGet(c) then
      if (extras != 0 && extras != 4) || keyLength == 0 || dataLength > 0 then None
      else Some(r.(exptime := if extras == 4 then ExptimeAt(p, HEADER, now) else EXPTIME_NONE))
    else if IsStore(c) then
      if extras != 8 || keyLength == 0 || dataLength == 0 then None
      else Some(r.(flags := UnBe(p[HEADER..HEADER + 4]), exptime := ExptimeAt(p, HEADER + 4, now)))
    else if IsDelete(c) || IsLocking(c) then
      if extras != 0 || keyLength == 0 || dataLength > 0 then None else Some(r)
    else if IsArith(c) then
      if extras != 20 || keyLength == 0 || dataLength > 0 then None
      else Some(r.(value := UnBe(p[HEADER..HEADER + 8]), initial := UnBe(p[HEADER + 8..HEADER + 16]),
                   exptime := ExptimeAt(p, HEADER + 16, now)))
    else if c == TOUCH then
      if keyLength == 0 || extras != 4 || dataLength != 0 then None
      else Some(r.(exptime := ExptimeAt(p, HEADER, now)))
    else if IsFlush(c) then
      if (extras != 0 && extras != 4) || keyLength != 0 || dataLength > 0 then None
      else Some(r.(exptime := if extras == 4 then ExptimeAt(p, HEADER, now) else now))
    else if IsConcat(c) then
      if extras != 0 || keyLength == 0 || dataLength == 0 then None else Some(r)
    else if c == STAT || c == KEYS then
      if extras != 0 || dataLength > 0 then None else Some(r)
    else Some(r)
  }

  predicate Known(c: byte) {
    IsGet(c) || IsStore(c) || IsDelete(c) || IsArith(c) || c == TOUCH || IsFlush(c) || IsConcat(c)
    || IsLocking(c) || c == STAT || c == KEYS || IsLoose(c)
  }

  /** A complete request at the head of the buffer, or None when more bytes are needed. */
  function Parse(p: seq<byte>, now: int): Option<BinRequest> {
    if |p| < HEADER || |p| < HEADER + TotalLength(p) then None
    else
      var total := TotalLength(p);
      var keyLength := UnBe(p[2..4]);
      var extras: nat := p[4];
      var r := BinRequest(HEADER + total, BadRequest, p[1], [], 0, 0, 0, [], 0, 0);
      if keyLength > MAX_KEY_LENGTH || total < keyLength + extras then Some(r)
      else
        var at := HEADER + extras;
        var r1 := r.(key := p[at..at + keyLength], cas := UnBe(p[16..24]));
        var dataLength := total - keyLength - extras;
        if dataLength > MAX_REQUEST_LENGTH then Some(r1.(status := TooLargeValue))
        else
          var r2 := r1.(data := p[at + keyLength..HEADER + total]);
          if !Known(r.command) then Some(r2.(status := UnknownCommand))
          else
            match ParseExtras(r2, p, keyLength, extras, dataLength, now)
            case None => Some(r2)
            case Some(r3) => Some(r3.(status := Good))
  }

  /** Extras, key and data partition the body of every request that is not rejected. */
  lemma BodyPartition(p: seq<byte>, now: int)
    requires Parse(p, now).Some? && Parse(p, now).value.status.Good?
    ensures var r := Parse(p, now).value;
      && HEADER <= r.length <= |p|
      && exists extras: seq<byte> :: |extras| == p[4] && p[HEADER..r.length] == extras + r.key + r.data
  {
    var r := Parse(p, now).value;
    var at := HEADER + p[4] as int;
    assert p[HEADER..r.length] == p[HEADER..at] + p[at..at + UnBe(p[2..4])] + p[at + UnBe(p[2..4])..r.length];
  }

  /** The command a good single-key request stands for (`cmd_bin`); None for the keyless ones. */
  function CommandOf(r: BinRequest): Option<Cmd> {
    var c := r.command;
    var initial := if r.exptime == EXPTIME_NONE then None else Some(Initial(r.initial, r.exptime));
    if IsGet(c) then
      Some(Get(if r.exptime == EXPTIME_NONE then None else Some(r.exptime), 0x46 <= c <= 0x49))
    else if c == 0x4a || c == 0x4b then Some(ReplaceAndUnlock(r.data, r.flags, r.exptime, r.cas))
    else if IsStore(c) then
      Some(Store(if c % 16 == 1 then Set else if c % 16 == 2 then Add else Replace,
                 false, r.data, r.flags, r.exptime, r.cas))
    else if IsDelete(c) then Some(Delete(r.cas))
    else if c == 0x05 || c == 0x15 then Some(Increment(r.value, r.cas, initial))
    else if c == 0x06 || c == 0x16 then Some(Decrement(r.value, r.cas, initial))
    else if c == TOUCH then Some(Touch(r.exptime))
    else if c == 0x0e || c == 0x19 then Some(Append(r.data, r.cas))
    else if c == 0x0f || c == 0x1a then Some(Prepend(r.data, r.cas))
    else if c == 0x40 || c == 0x41 then Some(Lock)
    else if c == 0x42 || c == 0x43 then Some(Unlock(false))
    else None
  }

  // ---------------------------------------------------------------- replication messages

  datatype Msg =
    | SetMsg(key: Key, data: seq<byte>, flags: nat, exptime: int)
    | TouchMsg(key: Key, exptime: int)
    | DeleteMsg(key: Key)

  /** The cast of time_t to uint32 (`object::exptime`). */
  function Exptime32(e: int): (r: nat)
    ensures r < TWO32
  {
    e % TWO32
  }

  /** `fill_header`; the body length is computed in 32 bits. */
  function Header(command: byte, keyLength: nat, extras: byte, dataLength: nat): (h: seq<byte>)
    ensures |h| == HEADER
  {
    [0x80, command] + Be(keyLength % 0x1_0000, 2) + [extras, 0, 0, 0]
    + Be((keyLength % 0x1_0000 + extras + dataLength % TWO32) % TWO32, 4) + seq(12, _ => 0)
  }

  function BodyLength(m: Msg): nat {
    match m
    case SetMsg(key, data, _, _) => 8 + |key| + |data|
    case TouchMsg(key, _) => 4 + |key|
    case DeleteMsg(key) => |key|
  }

  function Encode(m: Msg): (s: seq<byte>)
    requires m.SetMsg? ==> m.flags < TWO32
    ensures |s| == HEADER + BodyLength(m)
  {
    match m
    case SetMsg(key, data, flags, exptime) =>
      Header(SETQ, |key|, 8, |data|) + (Be(flags, 4) + Be(Exptime32(exptime), 4)) + key + data
    case TouchMsg(key, exptime) =>
      Header(TOUCH, |key|, 4, 0) + Be(Exptime32(exptime), 4) + key
    case DeleteMsg(key) =>
      Header(DELETEQ, |key|, 0, 0) + key
  }

  predicate GoodKey(key: Key) { 1 <= |key| <= MAX_KEY_LENGTH }

  predicate GoodMsg(m: Msg) {
    GoodKey(m.key) && (m.SetMsg? ==> m.flags < TWO32)
  }

  predicate AllGood(ms: seq<Msg>) {
    forall i :: 0 <= i < |ms| ==> GoodMsg(ms[i])
  }

  /** What a slave keeps of an object. */
  datatype Replica = Replica(data: seq<byte>, flags: nat, exptime: int)

  /** What a slave reads out of a SetQ: the parser drops the rest when the data are empty or too long. */
  function Received(m: Msg, now: int): Replica
    requires m.SetMsg?
  {
    if 1 <= |m.data| <= MAX_REQUEST_LENGTH then
      Replica(m.data, m.flags, BinaryExptime(Exptime32(m.exptime), now))
    else Replica([], 0, 0)
  }

  lemma HeaderFields(command: byte, keyLength: nat, extras: byte, dataLength: nat, rest: seq<byte>)
    requires keyLength <= MAX_KEY_LENGTH && keyLength + extras + dataLength < TWO32
    ensures var p := Header(command, keyLength, extras, dataLength) + rest;
      && p[0] == 0x80 && p[1] == command && p[4] == extras && UnBe(p[2..4]) == keyLength
      && UnBe(p[8..12]) == keyLength + extras + dataLength
  {
    hide Be, UnBe;
    var p := Header(command, keyLength, extras, dataLength) + rest;
    ByteOrder16(keyLength);
    ByteOrder32(keyLength + extras + dataLength);
    assert p[2..4] == Be(keyLength, 2);
    assert p[8..12] == Be(keyLength + extras + dataLength, 4);
  }

  /** Parsing an encoded message followed by anything gives back that message and its exact length. */
  lemma RoundTripSet(m: Msg, suffix: seq<byte>, now: int)
    requires m.SetMsg? && GoodMsg(m) && BodyLength(m) < TWO32
    ensures var r := Parse(Encode(m) + suffix, now);
      && r.Some? && r.value.length == |Encode(m)| && r.value.command == SETQ && r.value.key == m.key
      && Replica(r.value.data, r.value.flags, r.value.exptime) == Received(m, now)
      && (r.value.status.Good? <==> 1 <= |m.data| <= MAX_REQUEST_LENGTH)
  {
    hide Be, UnBe;
    var extras := Be(m.flags, 4) + Be(Exptime32(m.exptime), 4);
    var p := Encode(m) + suffix;
    var rest := extras + m.key + m.data + suffix;
    assert p == Header(SETQ, |m.key|, 8, |m.data|) + rest;
    HeaderFields(SETQ, |m.key|, 8, |m.data|, rest);
    ByteOrder32(m.flags);
    ByteOrder32(Exptime32(m.exptime));
    assert p[24..28] == Be(m.flags, 4);
    assert p[28..32] == Be(Exptime32(m.exptime), 4);
    assert p[32..32 + |m.key|] == m.key;
    assert p[32 + |m.key|..|Encode(m)|] == m.data;
  }

  lemma RoundTripTouch(m: Msg, suffix: seq<byte>, now: int)
    requires m.TouchMsg? && GoodMsg(m)
    ensures var r := Parse(Encode(m) + suffix, now);
      && r.Some? && r.value.length == |Encode(m)| && r.value.status.Good? && r.value.command == TOUCH
      && r.value.key == m.key && r.value.exptime == BinaryExptime(Exptime32(m.exptime), now)
  {
    hide Be, UnBe;
    var p := Encode(m) + suffix;
    var rest := Be(Exptime32(m.exptime), 4) + m.key + suffix;
    assert p == Header(TOUCH, |m.key|, 4, 0) + rest;
    HeaderFields(TOUCH, |m.key|, 4, 0, rest);
    ByteOrder32(Exptime32(m.exptime));
    assert p[24..28] == Be(Exptime32(m.exptime), 4);
    assert p[28..28 + |m.key|] == m.key;
  }

  lemma RoundTripDelete(m: Msg, suffix: seq<byte>, now: int)
    requires m.DeleteMsg? && GoodMsg(m)
    ensures var r := Parse(Encode(m) + suffix, now);
      && r.Some? && r.value.length == |Encode(m)| && r.value.status.Good? && r.value.command == DELETEQ
      && r.value.key == m.key
  {
    var p := Encode(m) + suffix;
    assert p == Header(DELETEQ, |m.key|, 0, 0) + (m.key + suffix);
    HeaderFields(DELETEQ, |m.key|, 0, 0, m.key + suffix);
    assert p[24..24 + |m.key|] == m.key;
  }

  /** A body of 4 GiB or more wraps in the header, and the receiver loses the message boundary. */
  lemma OversizeDesynchronizes(m: Msg, suffix: seq<byte>, now: int)
    requires m.SetMsg? && GoodMsg(m) && BodyLength(m) >= TWO32
    ensures var r := Parse(Encode(m) + suffix, now);
      r.Some? ==> r.value.length < |Encode(m)|
  {
    var p := Encode(m) + suffix;
    assert p[8..12] == Be((|m.key| % 0x1_0000 + 8 + |m.data| % TWO32) % TWO32, 4);
    ByteOrder32((|m.key| % 0x1_0000 + 8 + |m.data| % TWO32) % TWO32);
  }

  // ---------------------------------------------------------------- what survives the wire

  /** Expiration times that reach the slave unchanged whatever its clock shows. */
  predicate ExptimeSurvives(e: int) {
    e == 0 || e == EXPTIME_NONE || EXPTIME_THRESHOLD < e < TWO32 - 1
  }

  /** The slave's clock is a multiple of 2^32 (so not before 2106) less than 30 days below `e`. */
  predicate ClockLines(e: int, now: int) {
    now % TWO32 == 0 && now < e <= now + EXPTIME_THRESHOLD
  }

  /** Exactly those survive, but for that coincidence. */
  lemma ExptimeTrip(e: int, now: int)
    ensures BinaryExptime(Exptime32(e), now) == e <==>
            ExptimeSurvives(e) || ClockLines(e, now)
  {
    var t := Exptime32(e);
    if 0 < t <= EXPTIME_THRESHOLD && now + t == e {
      assert now % TWO32 == 0 by { ModSubtract(e, now); }
    }
    if now % TWO32 == 0 && now < e <= now + EXPTIME_THRESHOLD {
      ModAdd(now, e - now);
    }
  }

  lemma ModSubtract(e: int, now: int)
    requires now + e % TWO32 == e
    ensures now % TWO32 == 0
  {}

  lemma ModAdd(now: int, d: int)
    requires now % TWO32 == 0 && 0 <= d < TWO32
    ensures (now + d) % TWO32 == d
  {}

  /**
    An object reaches the slave unchanged exactly when it has 1 to MAX_REQUEST_LENGTH bytes and
    a surviving expiration time, or is empty with no flags and no expiration.
  */
  lemma ObjectTrip(m: Msg, now: int)
    requires m.SetMsg?
    ensures Received(m, now) == Replica(m.data, m.flags, m.exptime) <==>
            (1 <= |m.data| <= MAX_REQUEST_LENGTH && (ExptimeSurvives(m.exptime) || ClockLines(m.exptime, now)))
            || (m.data == [] && m.flags == 0 && m.exptime == 0)
  {
    ExptimeTrip(m.exptime, now);
  }

  /** An empty object with flags 5 that never expires arrives with flags 0. */
  lemma EmptyObjectLosesFlags(key: Key, now: int)
    ensures Received(SetMsg(key, [], 5, 0), now) != Replica([], 5, 0)
  {}
}
