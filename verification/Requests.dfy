/**
  Binary requests as a client writes them, laid out as the binary protocol's packet structure says,
  and what the server's parser makes of them: every request comes back as the command it was.
*/
module Requests {
  import opened Seqs
  import opened Numeric
  import opened Objects
  import opened Commands
  import opened Wire

  // ---------------------------------------------------------------- bytes of a request

  /** Magic, opcode, key length, extras length, data type and vbucket, body length, opaque, cas; then the body. */
  function Packet(op: byte, reserved: seq<byte>, opaq: seq<byte>, cas: nat, extras: seq<byte>, key: Key,
                  data: seq<byte>)
    : (p: seq<byte>)
    requires |reserved| == 3 && |opaq| == 4 && |extras| < 256
    ensures |p| == HEADER + |extras| + |key| + |data|
  {
    [0x80, op] + Be(|key|, 2) + [|extras|] + reserved + Be(|extras| + |key| + |data|, 4) + opaq + Be(cas, 8)
    + (extras + key + data)
  }

  lemma ByteOrder64(v: nat)
    requires v < TWO64
    ensures UnBe(Be(v, 8)) == v
  {
    assert Pow256(4) == TWO32;
    assert Pow256(8) == TWO64;
    ByteOrder(v, 8);
  }

  predicate Sendable(extras: seq<byte>, key: Key, data: seq<byte>, cas: nat) {
    |extras| < 256 && |key| <= MAX_KEY_LENGTH && |data| <= MAX_REQUEST_LENGTH && cas < TWO64
  }

  /** The fields of the header, and where the parts of the body are. */
  lemma PacketFields(op: byte, reserved: seq<byte>, opaq: seq<byte>, cas: nat, extras: seq<byte>, key: Key,
                     data: seq<byte>, suffix: seq<byte>)
    requires |reserved| == 3 && |opaq| == 4 && Sendable(extras, key, data, cas)
    ensures var p := Packet(op, reserved, opaq, cas, extras, key, data) + suffix;
      && p[0] == 0x80 && p[1] == op && p[4] == |extras|
      && UnBe(p[2..4]) == |key| && UnBe(p[8..12]) == |extras| + |key| + |data| && UnBe(p[16..24]) == cas
  {
    hide Be, UnBe;
    var p := Packet(op, reserved, opaq, cas, extras, key, data) + suffix;
    ByteOrder16(|key|);
    ByteOrder32(|extras| + |key| + |data|);
    ByteOrder64(cas);
    assert p[2..4] == Be(|key|, 2);
    assert p[8..12] == Be(|extras| + |key| + |data|, 4);
    assert p[16..24] == Be(cas, 8);
  }

  lemma PacketBody(op: byte, reserved: seq<byte>, opaq: seq<byte>, cas: nat, extras: seq<byte>, key: Key,
                   data: seq<byte>, suffix: seq<byte>)
    requires |reserved| == 3 && |opaq| == 4 && Sendable(extras, key, data, cas)
    ensures var p := Packet(op, reserved, opaq, cas, extras, key, data) + suffix;
      var at := HEADER + |extras|;
      p[HEADER..at] == extras && p[at..at + |key|] == key && p[at + |key|..at + |key| + |data|] == data
  {
    hide Be;
  }

  /** A packet of a known opcode is parsed whole; what is left to its command are the extras. */
  lemma PacketParses(op: byte, reserved: seq<byte>, opaq: seq<byte>, cas: nat, extras: seq<byte>, key: Key,
                     data: seq<byte>, suffix: seq<byte>, now: int)
    requires |reserved| == 3 && |opaq| == 4 && Sendable(extras, key, data, cas) && Known(op)
    ensures var p := Packet(op, reserved, opaq, cas, extras, key, data) + suffix;
      var n := HEADER + |extras| + |key| + |data|;
      var r := BinRequest(n, BadRequest, op, key, cas, 0, 0, data, 0, 0);
      && p[HEADER..HEADER + |extras|] == extras
      && Parse(p, now) == match ParseExtras(r, p, |key|, |extras|, |data|, now)
                          case None => Some(r)
                          case Some(r') => Some(r'.(status := Good))
  {
    hide Be, UnBe, ParseExtras, Packet, Known;
    PacketFields(op, reserved, opaq, cas, extras, key, data, suffix);
    PacketBody(op, reserved, opaq, cas, extras, key, data, suffix);
  }

  // ---------------------------------------------------------------- commands

  /** The opcodes of a command, loud and quiet, with and without the key in the answer. */
  predicate Opcode(op: byte, c: Cmd) {
    match c
    case Get(_, false) => op in {0x00, 0x09, 0x0c, 0x0d, 0x1d, 0x1e, 0x23, 0x24}
    case Get(_, true) => op in {0x46, 0x47, 0x48, 0x49}
    case Store(Set, _, _, _, _, _) => op in {0x01, 0x11}
    case Store(Add, _, _, _, _, _) => op in {0x02, 0x12}
    case Store(Replace, _, _, _, _, _) => op in {0x03, 0x13}
    case ReplaceAndUnlock(_, _, _, _) => op in {0x4a, 0x4b}
    case Delete(_) => op in {0x04, 0x14}
    case Increment(_, _, _) => op in {0x05, 0x15}
    case Decrement(_, _, _) => op in {0x06, 0x16}
    case Append(_, _) => op in {0x0e, 0x19}
    case Prepend(_, _) => op in {0x0f, 0x1a}
    case Touch(_) => op == 0x1c
    case Lock => op in {0x40, 0x41}
    case Unlock(_) => op in {0x42, 0x43}
    case CompareAndSwap(_, _, _, _) => false
  }

  const NO_TIME: nat := 0xffff_ffff

  predicate Wire32(t: int) { 0 <= t < 0x1_0000_0000 }

  /** A command as it goes over the wire: its times are the 32-bit numbers a client writes. */
  predicate Writable(c: Cmd) {
    match c
    case Get(touch, _) => touch.Some? ==> Wire32(touch.value)
    case Store(_, text, data, flags, t, cas) => !text && data != [] && Wire32(flags) && Wire32(t) && cas < TWO64
    case ReplaceAndUnlock(data, flags, t, cas) => data != [] && Wire32(flags) && Wire32(t) && cas < TWO64
    case Append(data, cas) => data != [] && cas < TWO64
    case Prepend(data, cas) => data != [] && cas < TWO64
    case Delete(cas) => cas < TWO64
    case Increment(n, cas, i) =>
      n < TWO64 && cas < TWO64 && (i.Some? ==> i.value.value < TWO64 && Wire32(i.value.exptime))
    case Decrement(n, cas, i) =>
      n < TWO64 && cas < TWO64 && (i.Some? ==> i.value.value < TWO64 && Wire32(i.value.exptime))
    case Touch(t) => Wire32(t)
    case Lock => true
    case Unlock(text) => !text
    case CompareAndSwap(_, _, _, _) => false
  }

  function CasOf(c: Cmd): nat {
    if c.Store? || c.ReplaceAndUnlock? || c.Append? || c.Prepend? || c.Delete? || c.Increment? || c.Decrement?
    then c.cas
    else 0
  }

  function DataOf(c: Cmd): seq<byte> {
    if c.Store? || c.ReplaceAndUnlock? || c.Append? || c.Prepend? then c.data else []
  }

  /** Flags and expiration time; amount, initial value and expiration time; or the expiration time alone. */
  function ExtrasOf(c: Cmd): (e: seq<byte>)
    requires Writable(c)
    ensures |e| <= 20
  {
    match c
    case Get(touch, _) => if touch.Some? then Be(touch.value, 4) else []
    case Store(_, _, _, flags, t, _) => Be(flags, 4) + Be(t, 4)
    case ReplaceAndUnlock(_, flags, t, _) => Be(flags, 4) + Be(t, 4)
    case Increment(n, _, i) =>
      if i.Some? then Be(n, 8) + Be(i.value.value, 8) + Be(i.value.exptime, 4) else Be(n, 8) + Be(0, 8) + Be(NO_TIME, 4)
    case Decrement(n, _, i) =>
      if i.Some? then Be(n, 8) + Be(i.value.value, 8) + Be(i.value.exptime, 4) else Be(n, 8) + Be(0, 8) + Be(NO_TIME, 4)
    case Touch(t) => Be(t, 4)
    case _ => []
  }

  function RequestOf(op: byte, c: Cmd, key: Key, reserved: seq<byte>, opaq: seq<byte>): seq<byte>
    requires |reserved| == 3 && |opaq| == 4 && Writable(c)
  {
    Packet(op, reserved, opaq, CasOf(c), ExtrasOf(c), key, DataOf(c))
  }

  // ---------------------------------------------------------------- the command that arrives

  /** 0 is never, all ones is no time at all, up to 30 days is from now, the rest is a date. */
  function Resolved(t: int, now: int): int {
    if t == 0xffff_ffff then -1 else if t == 0 || t > 2_592_000 then t else now + t
  }

  /** The command with its times resolved; no time at all means no touch and no initial value. */
  function Arrives(c: Cmd, now: int): Cmd {
    match c
    case Get(touch, lock) =>
      Get(if touch.None? || Resolved(touch.value, now) == -1 then None else Some(Resolved(touch.value, now)), lock)
    case Store(mode, text, data, flags, t, cas) => Store(mode, text, data, flags, Resolved(t, now), cas)
    case ReplaceAndUnlock(data, flags, t, cas) => ReplaceAndUnlock(data, flags, Resolved(t, now), cas)
    case Increment(n, cas, i) => Increment(n, cas, ArrivesInitial(i, now))
    case Decrement(n, cas, i) => Decrement(n, cas, ArrivesInitial(i, now))
    case Touch(t) => Touch(Resolved(t, now))
    case _ => c
  }

  function ArrivesInitial(i: Option<Initial>, now: int): Option<Initial> {
    if i.None? || Resolved(i.value.exptime, now) == -1 then None
    else Some(Initial(i.value.value, Resolved(i.value.exptime, now)))
  }

  /** The parsed request is this one, as far as its command uses the fields. */
  predicate ReadsAs(r: BinRequest, op: byte, c: Cmd, key: Key, now: int, length: nat) {
    r.status.Good? && r.length == length && r.command == op && r.key == key && CommandOf(r) == Some(Arrives(c, now))
  }

  /** A request with no extras but perhaps a time. */
  lemma PlainArrives(op: byte, c: Cmd, r: BinRequest, p: seq<byte>, now: int)
    requires Writable(c) && Opcode(op, c)
    requires c.Get? || c.Delete? || c.Append? || c.Prepend? || c.Lock? || c.Unlock? || c.Touch?
    requires r.command == op && r.key != [] && r.cas == CasOf(c) && r.data == DataOf(c)
    requires |p| >= HEADER + |ExtrasOf(c)| && p[HEADER..HEADER + |ExtrasOf(c)|] == ExtrasOf(c)
    ensures var x := ParseExtras(r, p, |r.key|, |ExtrasOf(c)|, |r.data|, now);
      x.Some? && x.value.command == op && CommandOf(x.value) == Some(Arrives(c, now))
  {
    hide Be, UnBe;
    if c.Get? && c.touch.Some? {
      ByteOrder32(c.touch.value);
      assert p[24..28] == Be(c.touch.value, 4);
    }
    if c.Touch? {
      ByteOrder32(c.exptime);
      assert p[24..28] == Be(c.exptime, 4);
    }
  }

  lemma StoreArrives(op: byte, c: Cmd, r: BinRequest, p: seq<byte>, now: int)
    requires Writable(c) && Opcode(op, c) && (c.Store? || c.ReplaceAndUnlock?)
    requires r.command == op && r.key != [] && r.cas == CasOf(c) && r.data == DataOf(c)
    requires |p| >= HEADER + |ExtrasOf(c)| && p[HEADER..HEADER + |ExtrasOf(c)|] == ExtrasOf(c)
    ensures var x := ParseExtras(r, p, |r.key|, |ExtrasOf(c)|, |r.data|, now);
      x.Some? && x.value.command == op && CommandOf(x.value) == Some(Arrives(c, now))
  {
    hide Be, UnBe;
    ByteOrder32(c.flags);
    ByteOrder32(c.exptime);
    var e := ExtrasOf(c);
    assert p[24..28] == e[..4] == Be(c.flags, 4);
    assert p[28..32] == e[4..8] == Be(c.exptime, 4);
  }

  lemma CountArrives(op: byte, c: Cmd, r: BinRequest, p: seq<byte>, now: int)
    requires Writable(c) && Opcode(op, c) && (c.Increment? || c.Decrement?)
    requires r.command == op && r.key != [] && r.cas == CasOf(c) && r.data == DataOf(c)
    requires |p| >= HEADER + |ExtrasOf(c)| && p[HEADER..HEADER + |ExtrasOf(c)|] == ExtrasOf(c)
    ensures var x := ParseExtras(r, p, |r.key|, |ExtrasOf(c)|, |r.data|, now);
      x.Some? && x.value.command == op && CommandOf(x.value) == Some(Arrives(c, now))
  {
    hide Be, UnBe;
    var e := ExtrasOf(c);
    var v, t: nat := if c.initial.Some? then c.initial.value.value else 0,
                     if c.initial.Some? then c.initial.value.exptime else NO_TIME;
    ByteOrder64(c.amount);
    ByteOrder64(v);
    ByteOrder32(t);
    ThreeParts(Be(c.amount, 8), Be(v, 8), Be(t, 4));
    assert e == Be(c.amount, 8) + Be(v, 8) + Be(t, 4);
    assert p[24..32] == e[..8] && p[32..40] == e[8..16] && p[40..44] == e[16..] by { Slices(p, e); }
  }

  lemma ThreeParts(a: seq<byte>, b: seq<byte>, c: seq<byte>)
    ensures var e := a + b + c; e[..|a|] == a && e[|a|..|a| + |b|] == b && e[|a| + |b|..] == c
  {}

  lemma Slices(p: seq<byte>, e: seq<byte>)
    requires |e| == 20 && |p| >= 44 && p[24..44] == e
    ensures p[24..32] == e[..8] && p[32..40] == e[8..16] && p[40..44] == e[16..]
  {
    assert forall i :: 0 <= i < 20 ==> p[24 + i] == p[24..44][i];
  }

  lemma KnownOpcode(op: byte, c: Cmd)
    requires Opcode(op, c)
    ensures Known(op)
  {}

  /**
    Every binary request of a single-key command is parsed as that command, whatever follows it in
    the buffer: good, as long as it is, with its key, data, flags, unique number, amounts and times.
  */
  lemma RequestArrives(op: byte, c: Cmd, key: Key, reserved: seq<byte>, opaq: seq<byte>, suffix: seq<byte>, now: int)
    requires Writable(c) && Opcode(op, c) && |reserved| == 3 && |opaq| == 4
    requires 1 <= |key| <= MAX_KEY_LENGTH && |DataOf(c)| <= MAX_REQUEST_LENGTH
    ensures var q := RequestOf(op, c, key, reserved, opaq);
      var r := Parse(q + suffix, now);
      r.Some? && ReadsAs(r.value, op, c, key, now, |q|)
  {
    hide Be, UnBe, Packet, ParseExtras, Parse, Known, Opcode, CommandOf, Arrives, ExtrasOf;
    KnownOpcode(op, c);
    SmallCas(c);
    PacketParses(op, reserved, opaq, CasOf(c), ExtrasOf(c), key, DataOf(c), suffix, now);
    var p := RequestOf(op, c, key, reserved, opaq) + suffix;
    var r := BinRequest(HEADER + |ExtrasOf(c)| + |key| + |DataOf(c)|, BadRequest, op, key, CasOf(c), 0, 0, DataOf(c),
                        0, 0);
    if c.Store? || c.ReplaceAndUnlock? {
      StoreArrives(op, c, r, p, now);
    } else if c.Increment? || c.Decrement? {
      CountArrives(op, c, r, p, now);
    } else {
      PlainArrives(op, c, r, p, now);
    }
    SameCommand(ParseExtras(r, p, |key|, |ExtrasOf(c)|, |DataOf(c)|, now).value);
  }

  lemma SmallCas(c: Cmd)
    requires Writable(c)
    ensures CasOf(c) < TWO64
  {}

  lemma SameCommand(r: BinRequest)
    ensures CommandOf(r.(status := Good)) == CommandOf(r)
  {}

  // ---------------------------------------------------------------- which requests are good

  /** The lengths of extras, key and data that an opcode allows. */
  predicate Layout(op: byte, extras: nat, key: nat, data: nat) {
    if op in {0x00, 0x09, 0x0c, 0x0d, 0x1d, 0x1e, 0x23, 0x24, 0x46, 0x47, 0x48, 0x49} then
      extras in {0, 4} && key > 0 && data == 0
    else if op in {0x01, 0x02, 0x03, 0x11, 0x12, 0x13, 0x4a, 0x4b} then extras == 8 && key > 0 && data > 0
    else if op in {0x04, 0x14, 0x40, 0x41, 0x42, 0x43} then extras == 0 && key > 0 && data == 0
    else if op in {0x05, 0x06, 0x15, 0x16} then extras == 20 && key > 0 && data == 0
    else if op == 0x1c then extras == 4 && key > 0 && data == 0
    else if op in {0x08, 0x18} then extras in {0, 4} && key == 0 && data == 0
    else if op in {0x0e, 0x0f, 0x19, 0x1a} then extras == 0 && key > 0 && data > 0
    else if op in {0x10, 0x50} then extras == 0 && data == 0
    else op in {0x07, 0x0a, 0x0b, 0x17, 0x44, 0x45}
  }

  /** A complete request is good exactly if its key is short enough, its body holds its parts,
      and its layout is right. */
  lemma GoodExactly(p: seq<byte>, now: int)
    requires Parse(p, now).Some?
    ensures var key, extras, total := UnBe(p[2..4]), p[4] as int, UnBe(p[8..12]);
      var fits := key <= 250 && key + extras <= total;
      && (Parse(p, now).value.status.Good? <==>
            fits && total - key - extras <= MAX_REQUEST_LENGTH && Layout(p[1], extras, key, total - key - extras))
      && (Parse(p, now).value.status.TooLargeValue? <==> fits && total - key - extras > MAX_REQUEST_LENGTH)
  {
    hide UnBe;
  }
}
