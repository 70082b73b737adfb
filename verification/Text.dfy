/**
  The text request parser, which scans a line without bounds of its own.  Its reference is the list of
  words of the line: what the scans for spaces, keys and other words find are exactly those words, so
  they stay inside the line.  What is read of a number is a parameter.
*/
module Text {
  import opened Seqs
  import opened Numeric
  import Wire

  const SP: byte := 32
  const CR: byte := 13
  const LF: byte := 10

  /** A slice of the buffer. */
  datatype Item = Item(start: nat, len: nat)

  function After(i: Item): nat { i.start + i.len }

  function Word(p: seq<byte>, i: Item): seq<byte>
    requires After(i) <= |p|
  {
    p[i.start..After(i)]
  }

  // ---------------------------------------------------------------- words

  /** The first position from `b` on that is not a space, or `e`. */
  function Skip(p: seq<byte>, b: nat, e: nat): (r: nat)
    requires b <= e <= |p|
    ensures b <= r <= e && (r < e ==> p[r] != SP) && forall i :: b <= i < r ==> p[i] == SP
    decreases e - b
  {
    if b < e && p[b] == SP then Skip(p, b + 1, e) else b
  }

  /** The first position from `b` on that holds `c`, or `e`. */
  function Until(p: seq<byte>, b: nat, e: nat, c: byte): (r: nat)
    requires b <= e <= |p|
    ensures b <= r <= e && (r < e ==> p[r] == c) && forall i :: b <= i < r ==> p[i] != c
    decreases e - b
  {
    if b < e && p[b] != c then Until(p, b + 1, e, c) else b
  }

  /** The words between `b` and `e`. */
  function Words(p: seq<byte>, b: nat, e: nat): seq<Item>
    requires b <= e <= |p|
    decreases e - b
  {
    var s := Skip(p, b, e);
    if s == e then []
    else
      var t := Until(p, s, e, SP);
      [Item(s, t - s)] + Words(p, t, e)
  }

  ghost predicate Shaped(ws: seq<Item>, b: nat, e: nat) {
    && (forall i :: 0 <= i < |ws| ==> ws[i].len > 0 && b <= ws[i].start && After(ws[i]) <= e)
    && (forall i, j :: 0 <= i < j < |ws| ==> After(ws[i]) < ws[j].start)
  }

  /** Words are not empty, lie inside the line, and each begins behind the one before. */
  lemma {:induction false} WordsShape(p: seq<byte>, b: nat, e: nat)
    requires b <= e <= |p|
    ensures Shaped(Words(p, b, e), Skip(p, b, e), e)
    decreases e - b
  {
    var s := Skip(p, b, e);
    if s < e {
      var t := Until(p, s, e, SP);
      WordsShape(p, t, e);
      assert t > s && (t < e ==> Skip(p, t, e) > t);
      assert t == e ==> Words(p, t, e) == [];
      OneMore(Item(s, t - s), Words(p, t, e), Skip(p, t, e), e);
    }
  }

  lemma OneMore(w: Item, ws: seq<Item>, b: nat, e: nat)
    requires Shaped(ws, b, e) && w.len > 0 && After(w) <= e && (ws != [] ==> After(w) < b)
    ensures Shaped([w] + ws, w.start, e)
  {
    var r := [w] + ws;
    assert forall i :: 1 <= i < |r| ==> r[i] == ws[i - 1];
  }

  predicate Covered(ws: seq<Item>, i: nat) {
    exists j :: 0 <= j < |ws| && ws[j].start <= i < After(ws[j])
  }

  lemma CoveredFirst(w: Item, ws: seq<Item>, i: nat)
    ensures Covered([w] + ws, i) <==> w.start <= i < After(w) || Covered(ws, i)
  {
    var r := [w] + ws;
    if w.start <= i < After(w) { assert r[0].start <= i < After(r[0]); }
    if Covered(ws, i) {
      var j :| 0 <= j < |ws| && ws[j].start <= i < After(ws[j]);
      assert r[j + 1] == ws[j];
    }
    if Covered(r, i) {
      var j :| 0 <= j < |r| && r[j].start <= i < After(r[j]);
      assert j > 0 ==> r[j] == ws[j - 1];
    }
  }

  /** Every byte of a word is no space, and every other byte is one. */
  lemma {:induction false} WordsCover(p: seq<byte>, b: nat, e: nat, i: nat)
    requires b <= i < e <= |p|
    ensures p[i] != SP <==> Covered(Words(p, b, e), i)
    decreases e - b
  {
    hide Covered;
    var s := Skip(p, b, e);
    if s == e {
      CoveredNothing(i);
    } else {
      var t := Until(p, s, e, SP);
      CoveredFirst(Item(s, t - s), Words(p, t, e), i);
      if i >= t {
        WordsCover(p, t, e, i);
      } else {
        WordsShape(p, t, e);
        NotBefore(Words(p, t, e), Skip(p, t, e), e, i);
      }
    }
  }

  lemma CoveredNothing(i: nat)
    ensures !Covered([], i)
  {}

  lemma NotBefore(ws: seq<Item>, b: nat, e: nat, i: nat)
    requires Shaped(ws, b, e) && i < b
    ensures !Covered(ws, i)
  {}

  // ---------------------------------------------------------------- scans

  /** `while( *b == SP ) ++b`, which has no bound of its own: the CR of the line stops it. */
  method SkipSpaces(p: seq<byte>, start: nat, ghost e: nat) returns (b: nat)
    requires start <= e < |p| && p[e] == CR
    ensures b == Skip(p, start, e)
  {
    b := start;
    while p[b] == SP
      invariant start <= b <= e && forall i :: start <= i < b ==> p[i] == SP
      decreases e - b
    {
      b := b + 1;
    }
  }

  /** `cfind`. */
  method Find(p: seq<byte>, b: nat, e: nat, c: byte) returns (r: Option<nat>)
    requires b <= e <= |p|
    ensures r == var u := Until(p, b, e, c); if u < e then Some(u) else None
  {
    var i := b;
    while i < e
      invariant b <= i <= e && forall j :: b <= j < i ==> p[j] != c
    {
      if p[i] == c { return Some(i); }
      i := i + 1;
    }
    return None;
  }

  /** The next word, and where the scan goes on: at its end. */
  method NextWord(p: seq<byte>, start: nat, e: nat) returns (w: Option<Item>, b: nat)
    requires start <= e < |p| && p[e] == CR
    ensures b <= e && w.None? == (Words(p, start, e) == [])
    ensures w.Some? ==> Words(p, start, e) == [w.value] + Words(p, b, e)
  {
    b := SkipSpaces(p, start, e);
    if b == e { return None, b; }
    var end := Find(p, b, e, SP);
    var t := if end.Some? then end.value else e;
    return Some(Item(b, t - b)), t;
  }

  // ---------------------------------------------------------------- requests

  /** Fields the parser did not reach keep their initial values. */
  datatype TextRequest = TextRequest(
    length: nat, valid: bool, noReply: bool, key: Item, flags: nat, exptime: int, cas: nat, data: Item, value: nat)

  /** What `to_uint` makes of the text at a position, for an integer of so many bits. */
  type Numbers = (nat, nat) -> Option<nat>

  /** A time is a signed number of 64 bits. */
  const TIME_BITS: nat := 63

  const NOREPLY: seq<byte> := [110, 111, 114, 101, 112, 108, 121]

  /** `b` to `e` is the rest of a line that ends in CR LF. */
  predicate Line(p: seq<byte>, b: nat, e: nat) {
    b <= e && e + 1 < |p| && p[e] == CR && p[e + 1] == LF
  }

  /** Items of the request lie inside it. */
  predicate Inside(r: TextRequest) {
    r.valid ==> After(r.key) <= r.length && After(r.data) <= r.length
  }

  predicate IsNoReply(p: seq<byte>, w: Item) {
    After(w) <= |p| && Word(p, w) == NOREPLY
  }

  /** The words after the first `k` are nothing, or "noreply". */
  predicate EndsWell(p: seq<byte>, ws: seq<Item>, k: nat) {
    |ws| == k || (|ws| == k + 1 && IsNoReply(p, ws[k]))
  }

  /** The end of most commands: an optional "noreply" and nothing else. */
  method Tail(p: seq<byte>, start: nat, e: nat) returns (ok: bool, noReply: bool)
    requires Line(p, start, e)
    ensures ok <==> EndsWell(p, Words(p, start, e), 0)
    ensures ok ==> noReply == (|Words(p, start, e)| == 1)
  {
    var b := SkipSpaces(p, start, e);
    noReply := false;
    if b != e {
      var we := Find(p, b, e, SP);
      var t := if we.Some? then we.value else e;
      if t - b != 7 || p[b..t] != NOREPLY { return false, false; }
      noReply := true;
      b := t;
    }
    b := SkipSpaces(p, b, e);
    ok := b == e;
  }

  function Exptime(t: nat, now: int): (e: int)
    ensures e == 0 <==> t == 0 || (t <= 30 * 24 * 3600 && now + t == 0)
    ensures 0 < t <= 30 * 24 * 3600 ==> e - now == t
    ensures t > 30 * 24 * 3600 ==> e == t
  {
    if t == 0 then 0 else if t > Wire.EXPTIME_THRESHOLD then t else now + t
  }

  /** The words of a storage command after its name: key, flags, exptime, bytes, and cas unique. */
  predicate StorageLine(p: seq<byte>, ws: seq<Item>, isCas: bool, num: Numbers) {
    var k := if isCas then 5 else 4;
    && |ws| >= k && EndsWell(p, ws, k)
    && num(ws[1].start, 32).Some? && num(ws[2].start, TIME_BITS).Some? && num(ws[3].start, 32).Some?
    && (isCas ==> num(ws[4].start, 64).Some?)
  }

  /** The scan stands behind the first `i` words. */
  ghost predicate At(p: seq<byte>, ws: seq<Item>, i: nat, b: nat, e: nat) {
    i <= |ws| && b <= e <= |p| && ws[i..] == Words(p, b, e)
  }

  method WordAt(p: seq<byte>, start: nat, e: nat, ghost ws: seq<Item>, ghost i: nat) returns (w: Option<Item>, b: nat)
    requires Line(p, start, e) && At(p, ws, i, start, e)
    ensures w.Some? <==> i < |ws|
    ensures w.Some? ==> w.value == ws[i] && At(p, ws, i + 1, b, e)
    ensures b == e && w.Some? ==> i + 1 == |ws|
  {
    hide Words;
    w, b := NextWord(p, start, e);
    if w.Some? {
      assert ws[i] == ws[i..][0] && ws[i + 1..] == ws[i..][1..];
      NoWords(p, e);
    }
  }

  lemma NoWords(p: seq<byte>, e: nat)
    requires e <= |p|
    ensures Words(p, e, e) == []
  {}

  predicate StorageNumbers(ws: seq<Item>, isCas: bool, num: Numbers)
    requires |ws| >= if isCas then 5 else 4
  {
    && num(ws[1].start, 32).Some? && num(ws[2].start, TIME_BITS).Some? && num(ws[3].start, 32).Some?
    && (isCas ==> num(ws[4].start, 64).Some?)
  }

  /** Key, flags and expiration time of a storage command. */
  method StorageHead(p: seq<byte>, start: nat, e: nat, num: Numbers, now: int, r0: TextRequest, ghost ws: seq<Item>)
    returns (r: TextRequest, ok: bool, b: nat)
    requires Line(p, start, e) && r0.exptime == 0 && At(p, ws, 0, start, e)
    ensures b <= e && r == r0.(key := r.key, flags := r.flags, exptime := r.exptime)
    ensures ok ==> |ws| >= 3 && num(ws[1].start, 32).Some? && num(ws[2].start, TIME_BITS).Some?
    ensures |ws| >= 4 && num(ws[1].start, 32).Some? && num(ws[2].start, TIME_BITS).Some? ==> ok
    ensures ok ==>
      && At(p, ws, 3, b, e) && r.key == ws[0] && r.flags == num(ws[1].start, 32).value
      && r.exptime == Exptime(num(ws[2].start, TIME_BITS).value, now)
  {
    hide At, Line;
    r := r0;
    InLine(p, start, e);
    var w;
    w, b := WordAt(p, start, e, ws, 0);
    if w.None? || b == e { return r, false, e; }
    r := r.(key := w.value);

    MoveOn(p, start, b, e, ws, 1);
    w, b := WordAt(p, b, e, ws, 1);
    if w.None? || b == e { return r, false, e; }
    var n := num(w.value.start, 32);
    if n.None? { return r, false, e; }
    r := r.(flags := n.value);

    MoveOn(p, start, b, e, ws, 2);
    w, b := WordAt(p, b, e, ws, 2);
    if w.None? || b == e { return r, false, e; }
    n := num(w.value.start, TIME_BITS);
    if n.None? { return r, false, e; }
    if n.value != 0 { r := r.(exptime := Exptime(n.value, now)); }
    MoveOn(p, start, b, e, ws, 3);
    return r, true, b;
  }

  lemma InLine(p: seq<byte>, b: nat, e: nat)
    requires Line(p, b, e)
    ensures b <= e <= |p|
  {}

  lemma MoveOn(p: seq<byte>, start: nat, b: nat, e: nat, ws: seq<Item>, i: nat)
    requires Line(p, start, e) && At(p, ws, i, b, e)
    ensures Line(p, b, e) && b <= e && i <= |ws|
  {}

  /** The four or five leading words of a storage command. */
  method StorageWords(p: seq<byte>, start: nat, e: nat, isCas: bool, num: Numbers, now: int, r0: TextRequest,
                      ghost ws: seq<Item>)
    returns (r: TextRequest, nbytes: Option<nat>, b: nat)
    requires Line(p, start, e) && r0.exptime == 0 && At(p, ws, 0, start, e)
    ensures b <= e && r == r0.(key := r.key, flags := r.flags, exptime := r.exptime, cas := r.cas)
    ensures var k := if isCas then 5 else 4;
      && (nbytes.Some? <==> |ws| >= k && StorageNumbers(ws, isCas, num))
      && (nbytes.Some? ==>
            && At(p, ws, k, b, e) && nbytes == num(ws[3].start, 32)
            && r.key == ws[0] && r.flags == num(ws[1].start, 32).value
            && r.exptime == Exptime(num(ws[2].start, TIME_BITS).value, now)
            && (isCas ==> r.cas == num(ws[4].start, 64).value))
  {
    hide At, Line;
    var ok;
    InLine(p, start, e);
    r, ok, b := StorageHead(p, start, e, num, now, r0, ws);
    if !ok { return r, None, e; }
    MoveOn(p, start, b, e, ws, 3);
    var w;
    w, b := WordAt(p, b, e, ws, 3);
    if w.None? { return r, None, e; }
    MoveOn(p, start, b, e, ws, 4);
    nbytes := num(w.value.start, 32);
    if nbytes.None? { return r, None, e; }
    if isCas {
      w, b := WordAt(p, b, e, ws, 4);
      if w.None? { return r, None, e; }
      MoveOn(p, start, b, e, ws, 5);
      var n := num(w.value.start, 64);
      if n.None? { return r, None, e; }
      r := r.(cas := n.value);
    }
  }

  /**
    What a storage line ending at `e` is read as: rejected for its words, incomplete, or the request
    they and the data block spell, valid exactly if the block ends where it should.
  */
  predicate StorageRead(p: seq<byte>, e: nat, ws: seq<Item>, isCas: bool, num: Numbers, now: int, r: TextRequest) {
    if !StorageLine(p, ws, isCas, num) then !r.valid && r.length == e + 2
    else
      var n := num(ws[3].start, 32).value;
      if |p| < e + n + 4 then !r.valid && r.length == 0
      else
        && r.length == e + n + 4 && (r.valid <==> p[e + n + 2] == CR && p[e + n + 3] == LF)
        && r.key == ws[0] && r.flags == num(ws[1].start, 32).value
        && r.exptime == Exptime(num(ws[2].start, TIME_BITS).value, now)
        && (isCas ==> r.cas == num(ws[4].start, 64).value)
        && r.noReply == (|ws| == if isCas then 6 else 5)
        && (r.valid ==> r.data == Item(e + 2, n))
  }

  /**
    `parse_storage`: the request is the line and the data block; it is incomplete, not invalid,
    while the block has not arrived.
  */
  method ParseStorage(p: seq<byte>, start: nat, e: nat, isCas: bool, num: Numbers, now: int, r0: TextRequest)
    returns (r: TextRequest)
    requires Line(p, start, e) && r0.exptime == 0 && r0.length == e + 2 && !r0.valid
    ensures StorageRead(p, e, Words(p, start, e), isCas, num, now, r)
    ensures Inside(r) && r.length <= |p|
  {
    hide Words;
    ghost var ws := Words(p, start, e);
    ghost var k := if isCas then 5 else 4;
    var nbytes, b;
    assert ws[0..] == ws;
    r, nbytes, b := StorageWords(p, start, e, isCas, num, now, r0, ws);
    if nbytes.None? { return; }
    var ok, noReply := Tail(p, b, e);
    assert EndsWell(p, ws, k) <==> EndsWell(p, ws[k..], 0) by { EndsFrom(p, ws, k); }
    if !ok { return; }
    r := r.(noReply := noReply);
    var n := nbytes.value;
    var d := e + 2;
    r := r.(length := d + n + 2);
    if |p| < r.length { return r.(length := 0); }
    WordsShape(p, start, e);
    if p[d + n] != CR || p[d + n + 1] != LF { return; }
    return r.(data := Item(d, n), valid := true);
  }

  lemma EndsFrom(p: seq<byte>, ws: seq<Item>, k: nat)
    requires k <= |ws|
    ensures EndsWell(p, ws, k) <==> EndsWell(p, ws[k..], 0)
  {}

  /** One word, and "noreply" at most (`parse_delete`); or one word alone (`parse_lock`). */
  method ParseKeyOnly(p: seq<byte>, start: nat, e: nat, mayNoReply: bool, r0: TextRequest) returns (r: TextRequest)
    requires Line(p, start, e) && r0.length == e + 2 && !r0.valid && r0.data == Item(0, 0)
    ensures var ws := Words(p, start, e);
      && r.length == e + 2
      && (r.valid <==> |ws| >= 1 && if mayNoReply then EndsWell(p, ws, 1) else |ws| == 1)
      && (r.valid ==> r.key == ws[0] && r.noReply == if mayNoReply then |ws| == 2 else r0.noReply)
    ensures Inside(r)
  {
    hide Words;
    ghost var ws := Words(p, start, e);
    assert ws[0..] == ws;
    r := r0;
    var w, b := WordAt(p, start, e, ws, 0);
    if w.None? { return; }
    WordsShape(p, start, e);
    r := r.(key := w.value);
    EndsFrom(p, ws, 1);
    if mayNoReply {
      var ok, noReply := Tail(p, b, e);
      if ok { r := r.(noReply := noReply, valid := true); }
    } else {
      var c := SkipSpaces(p, b, e);
      NothingLeft(p, b, e);
      if c == e { r := r.(valid := true); }
    }
  }

  lemma NothingLeft(p: seq<byte>, b: nat, e: nat)
    requires b <= e <= |p|
    ensures Words(p, b, e) == [] <==> Skip(p, b, e) == e
  {}

  /** A key and a number: a time (`parse_touch`) or an amount (`parse_incdec`). */
  method ParseKeyNumber(p: seq<byte>, start: nat, e: nat, timed: bool, num: Numbers, now: int, r0: TextRequest)
    returns (r: TextRequest)
    requires Line(p, start, e) && r0.length == e + 2 && !r0.valid && r0.data == Item(0, 0)
    ensures var ws := Words(p, start, e);
      && r.length == e + 2
      && (r.valid <==> |ws| >= 2 && EndsWell(p, ws, 2) && num(ws[1].start, if timed then TIME_BITS else 64).Some?)
      && (r.valid ==> r.key == ws[0] && r.noReply == (|ws| == 3))
      && (r.valid ==> if timed then r.exptime == Exptime(num(ws[1].start, TIME_BITS).value, now) && r.value == r0.value
                      else r.value == num(ws[1].start, 64).value && r.exptime == r0.exptime)
    ensures Inside(r)
  {
    hide Words;
    ghost var ws := Words(p, start, e);
    assert ws[0..] == ws;
    r := r0;
    var w, b := WordAt(p, start, e, ws, 0);
    if w.None? || b == e { return; }
    WordsShape(p, start, e);
    r := r.(key := w.value);
    w, b := WordAt(p, b, e, ws, 1);
    if w.None? { return; }
    var n := num(w.value.start, if timed then TIME_BITS else 64);
    if n.None? { return; }
    r := if timed then r.(exptime := Exptime(n.value, now)) else r.(value := n.value);
    EndsFrom(p, ws, 2);
    var ok, noReply := Tail(p, b, e);
    if ok { r := r.(noReply := noReply, valid := true); }
  }

  /** `parse_get`: the first key; the others are read by `next_key`. */
  method ParseGet(p: seq<byte>, start: nat, e: nat, r0: TextRequest) returns (r: TextRequest)
    requires Line(p, start, e) && r0.length == e + 2 && !r0.valid && r0.data == Item(0, 0)
    ensures var ws := Words(p, start, e);
      r.length == e + 2 && (r.valid <==> ws != []) && (r.valid ==> r.key == ws[0]) && r.noReply == r0.noReply
    ensures Inside(r)
  {
    var w, _ := NextWord(p, start, e);
    if w.None? { return r0; }
    return r0.(key := w.value, valid := true);
  }

  predicate Timed(p: seq<byte>, ws: seq<Item>) {
    ws != [] && ws[0].start < |p| && IsDigit(p[ws[0].start])
  }

  /** The words of flush_all: an optional time, an optional "noreply". */
  predicate FlushLine(p: seq<byte>, ws: seq<Item>, num: Numbers) {
    if Timed(p, ws) then num(ws[0].start, TIME_BITS).Some? && EndsWell(p, ws, 1) else EndsWell(p, ws, 0)
  }

  function FlushWhen(p: seq<byte>, ws: seq<Item>, num: Numbers, now: int): int {
    if Timed(p, ws) && num(ws[0].start, TIME_BITS).Some? then FlushTime(num(ws[0].start, TIME_BITS).value, now) else now
  }

  /** `parse_flushall`. */
  method ParseFlushAll(p: seq<byte>, start: nat, e: nat, num: Numbers, now: int, r0: TextRequest)
    returns (r: TextRequest)
    requires Line(p, start, e) && r0.length == e + 2 && !r0.valid && !r0.noReply
    requires r0.key == Item(0, 0) && r0.data == Item(0, 0)
    ensures var ws := Words(p, start, e);
      && r.length == e + 2 && (r.valid <==> FlushLine(p, ws, num))
      && (r.valid ==> r.exptime == FlushWhen(p, ws, num, now) && r.noReply == (|ws| == if Timed(p, ws) then 2 else 1))
    ensures Inside(r)
  {
    hide Words, EndsWell, Skip, FlushLine, FlushWhen, Inside;
    ghost var ws := Words(p, start, e);
    r := r0.(exptime := now);
    var b := SkipSpaces(p, start, e);
    Skipped(p, start, e);
    StartOf(p, b, e, ws);
    if b == e {
      EmptyFlush(p, num, now);
      r := r.(valid := true);
      NoItems(r);
      return;
    }
    var ok, time, noReply := FlushRest(p, b, e, num, now, ws);
    if ok { r := r.(exptime := time, noReply := noReply, valid := true); }
    assert r.key == Item(0, 0) && r.data == Item(0, 0);
    NoItems(r);
  }

  lemma NoItems(r: TextRequest)
    requires r.key == Item(0, 0) && r.data == Item(0, 0)
    ensures Inside(r)
  {}

  lemma EmptyFlush(p: seq<byte>, num: Numbers, now: int)
    ensures FlushLine(p, [], num) && FlushWhen(p, [], num, now) == now
  {}

  method FlushRest(p: seq<byte>, b: nat, e: nat, num: Numbers, now: int, ghost ws: seq<Item>)
    returns (ok: bool, time: int, noReply: bool)
    requires Line(p, b, e) && At(p, ws, 0, b, e) && ws != [] && ws[0].start == b
    ensures ok <==> FlushLine(p, ws, num)
    ensures ok ==> time == FlushWhen(p, ws, num, now) && noReply == (|ws| == if Timed(p, ws) then 2 else 1)
  {
    hide Words, EndsWell, At;
    var go, t;
    go, time, t := FlushArgument(p, b, e, num, now, ws);
    noReply := false;
    if !go { return false, time, false; }
    Ending(p, ws, if IsDigit(p[b]) then 1 else 0, t, e);
    ok, noReply := Tail(p, t, e);
  }

  /** The optional time of flush_all, which starts with a digit. */
  method FlushArgument(p: seq<byte>, b: nat, e: nat, num: Numbers, now: int, ghost ws: seq<Item>)
    returns (ok: bool, time: int, t: nat)
    requires Line(p, b, e) && At(p, ws, 0, b, e) && ws != []
    ensures Line(p, t, e) && At(p, ws, if IsDigit(p[b]) then 1 else 0, t, e)
    ensures if IsDigit(p[b]) then ok == num(b, TIME_BITS).Some? else ok && time == now
    ensures IsDigit(p[b]) && ok ==> time == FlushTime(num(b, TIME_BITS).value, now)
  {
    hide Words;
    ok, time, t := true, now, b;
    if IsDigit(p[b]) {
      var _, end := WordAt(p, b, e, ws, 0);
      t := end;
      var n := num(b, TIME_BITS);
      ok := n.Some?;
      if ok { time := FlushTime(n.value, now); }
    }
  }

  lemma StartOf(p: seq<byte>, b: nat, e: nat, ws: seq<Item>)
    requires b <= e <= |p| && ws == Words(p, b, e)
    ensures At(p, ws, 0, b, e)
  {
    assert ws[0..] == ws;
  }

  lemma Ending(p: seq<byte>, ws: seq<Item>, k: nat, b: nat, e: nat)
    requires At(p, ws, k, b, e)
    ensures EndsWell(p, ws, k) <==> EndsWell(p, Words(p, b, e), 0)
    ensures |ws| == k + |Words(p, b, e)|
  {
    EndsFrom(p, ws, k);
  }

  function FlushTime(t: nat, now: int): (e: int)
    ensures if t <= 30 * 24 * 3600 then e - now == t else e == t
  {
    if t > Wire.EXPTIME_THRESHOLD then t else now + t
  }

  /** Both protocols give a time the same meaning, but for the binary one that stands for none. */
  lemma TimesAgree(t: nat, now: int)
    requires t != 0xffff_ffff
    ensures Exptime(t, now) == Wire.BinaryExptime(t, now)
    ensures t > 0 ==> FlushTime(t, now) == Exptime(t, now)
  {}

  lemma Skipped(p: seq<byte>, b: nat, e: nat)
    requires b <= e <= |p|
    ensures Words(p, Skip(p, b, e), e) == Words(p, b, e)
    ensures Words(p, b, e) == [] <==> Skip(p, b, e) == e
    ensures Words(p, b, e) != [] ==> Words(p, b, e)[0].start == Skip(p, b, e)
  {
    var s := Skip(p, b, e);
    assert Skip(p, s, e) == s;
  }

  // ---------------------------------------------------------------- commands

  datatype Command =
    | Unknown | Set | Add | Replace | Append | Prepend | Cas | Get | Gets | Delete | Incr | Decr | Touch | Lock | Unlock
    | UnlockAll | Slabs | Stats | FlushAll | Version | Verbosity | Quit | Keys

  function ThreeBytes(w: seq<byte>): Command {
    if w == [115, 101, 116] then Set
    else if w == [97, 100, 100] then Add
    else if w == [99, 97, 115] then Cas
    else if w == [103, 101, 116] then Get
    else Unknown
  }

  function FourBytes(w: seq<byte>): Command {
    if w == [103, 101, 116, 115] then Gets
    else if w == [105, 110, 99, 114] then Incr
    else if w == [100, 101, 99, 114] then Decr
    else if w == [108, 111, 99, 107] then Lock
    else if w == [113, 117, 105, 116] then Quit
    else if w == [107, 101, 121, 115] then Keys
    else Unknown
  }

  function FiveBytes(w: seq<byte>): Command {
    if w == [116, 111, 117, 99, 104] then Touch
    else if w == [115, 108, 97, 98, 115] then Slabs
    else if w == [115, 116, 97, 116, 115] then Stats
    else Unknown
  }

  function SixBytes(w: seq<byte>): Command {
    if w == [97, 112, 112, 101, 110, 100] then Append
    else if w == [100, 101, 108, 101, 116, 101] then Delete
    else if w == [117, 110, 108, 111, 99, 107] then Unlock
    else Unknown
  }

  function SevenBytes(w: seq<byte>): Command {
    if w == [114, 101, 112, 108, 97, 99, 101] then Replace
    else if w == [112, 114, 101, 112, 101, 110, 100] then Prepend
    else if w == [118, 101, 114, 115, 105, 111, 110] then Version
    else Unknown
  }

  function NineBytes(w: seq<byte>): Command {
    if w == [102, 108, 117, 115, 104, 95, 97, 108, 108] then FlushAll
    else if w == [118, 101, 114, 98, 111, 115, 105, 116, 121] then Verbosity
    else Unknown
  }

  function TenBytes(w: seq<byte>): Command {
    if w == [117, 110, 108, 111, 99, 107, 95, 97, 108, 108] then UnlockAll
    else Unknown
  }

  /** The name of a command, looked up by its length first. */
  function CommandOf(w: seq<byte>): Command {
    match |w|
    case 3 => ThreeBytes(w)
    case 4 => FourBytes(w)
    case 5 => FiveBytes(w)
    case 6 => SixBytes(w)
    case 7 => SevenBytes(w)
    case 9 => NineBytes(w)
    case 10 => TenBytes(w)
    case _ => Unknown
  }

  function Name(c: Command): string {
    match c
    case Unknown => ""
    case Set => "set" case Add => "add" case Replace => "replace" case Append => "append" case Prepend => "prepend"
    case Cas => "cas" case Get => "get" case Gets => "gets" case Delete => "delete" case Incr => "incr"
    case Decr => "decr" case Touch => "touch" case Lock => "lock" case Unlock => "unlock"
    case UnlockAll => "unlock_all" case Slabs => "slabs" case Stats => "stats" case FlushAll => "flush_all"
    case Version => "version" case Verbosity => "verbosity" case Quit => "quit" case Keys => "keys"
  }

  /** The word spells the name. */
  predicate Spells(w: seq<byte>, name: string) {
    |w| == |name| && forall i :: 0 <= i < |w| ==> w[i] == name[i] as int
  }

  function Code(c: Command): seq<byte> {
    match c
    case Unknown => []
    case Set => [115, 101, 116]
    case Add => [97, 100, 100]
    case Replace => [114, 101, 112, 108, 97, 99, 101]
    case Append => [97, 112, 112, 101, 110, 100]
    case Prepend => [112, 114, 101, 112, 101, 110, 100]
    case Cas => [99, 97, 115]
    case Get => [103, 101, 116]
    case Gets => [103, 101, 116, 115]
    case Delete => [100, 101, 108, 101, 116, 101]
    case Incr => [105, 110, 99, 114]
    case Decr => [100, 101, 99, 114]
    case Touch => [116, 111, 117, 99, 104]
    case Lock => [108, 111, 99, 107]
    case Unlock => [117, 110, 108, 111, 99, 107]
    case UnlockAll => [117, 110, 108, 111, 99, 107, 95, 97, 108, 108]
    case Slabs => [115, 108, 97, 98, 115]
    case Stats => [115, 116, 97, 116, 115]
    case FlushAll => [102, 108, 117, 115, 104, 95, 97, 108, 108]
    case Version => [118, 101, 114, 115, 105, 111, 110]
    case Verbosity => [118, 101, 114, 98, 111, 115, 105, 116, 121]
    case Quit => [113, 117, 105, 116]
    case Keys => [107, 101, 121, 115]
  }

  lemma CodeSpells(c: Command)
    ensures Spells(Code(c), Name(c))
  {}

  lemma OfThree(w: seq<byte>, c: Command)
    requires |w| == 3 == |Name(c)|
    ensures ThreeBytes(w) == c <==> w == Code(c)
  {}

  lemma OfFour(w: seq<byte>, c: Command)
    requires |w| == 4 == |Name(c)|
    ensures FourBytes(w) == c <==> w == Code(c)
  {}

  lemma OfFive(w: seq<byte>, c: Command)
    requires |w| == 5 == |Name(c)|
    ensures FiveBytes(w) == c <==> w == Code(c)
  {}

  lemma OfSix(w: seq<byte>, c: Command)
    requires |w| == 6 == |Name(c)|
    ensures SixBytes(w) == c <==> w == Code(c)
  {}

  lemma OfSeven(w: seq<byte>, c: Command)
    requires |w| == 7 == |Name(c)|
    ensures SevenBytes(w) == c <==> w == Code(c)
  {}

  lemma OfNine(w: seq<byte>, c: Command)
    requires |w| == 9 == |Name(c)|
    ensures NineBytes(w) == c <==> w == Code(c)
  {}

  lemma OfTen(w: seq<byte>, c: Command)
    requires |w| == 10 == |Name(c)|
    ensures TenBytes(w) == c <==> w == Code(c)
  {}

  lemma OfCode(w: seq<byte>, c: Command)
    requires c != Unknown
    ensures CommandOf(w) == c <==> w == Code(c)
  {
    hide ThreeBytes, FourBytes, FiveBytes, SixBytes, SevenBytes, NineBytes, TenBytes, Code, Spells;
    CodeSpells(c);
    assert |Code(c)| == |Name(c)| by { SpelledLength(Code(c), Name(c)); }
    if |w| == |Name(c)| {
      match |w| {
        case 3 => OfThree(w, c);
        case 4 => OfFour(w, c);
        case 5 => OfFive(w, c);
        case 6 => OfSix(w, c);
        case 7 => OfSeven(w, c);
        case 9 => OfNine(w, c);
        case 10 => OfTen(w, c);
        case _ =>
      }
    } else {
      ByLength(w, c);
    }
  }

  lemma SpelledLength(w: seq<byte>, name: string)
    requires Spells(w, name)
    ensures |w| == |name|
  {}

  lemma ByLength(w: seq<byte>, c: Command)
    requires c != Unknown && |w| != |Name(c)|
    ensures CommandOf(w) != c
  {}

  lemma SpelledOnce(v: seq<byte>, w: seq<byte>, name: string)
    requires Spells(v, name) && Spells(w, name)
    ensures v == w
  {}

  /** A word is a command exactly if it is spelled like it. */
  lemma NamedExactly(w: seq<byte>, c: Command)
    requires c != Unknown
    ensures CommandOf(w) == c <==> Spells(w, Name(c))
  {
    hide CommandOf, Code, Name, Spells;
    CodeSpells(c);
    OfCode(w, c);
    if Spells(w, Name(c)) { SpelledOnce(w, Code(c), Name(c)); }
  }

  lemma StatsNamed(w: seq<byte>)
    ensures IsStats(w) <==>
            Spells(w, "ops") || Spells(w, "items") || Spells(w, "sizes") || Spells(w, "settings")
  {}

  predicate IsStorage(c: Command) { c in {Set, Add, Replace, Append, Prepend, Cas} }

  predicate IsStats(w: seq<byte>) {
    || w == [111, 112, 115] || w == [105, 116, 101, 109, 115] || w == [115, 105, 122, 101, 115]
    || w == [115, 101, 116, 116, 105, 110, 103, 115]
  }

  /** The words after the command's name are right; for storage commands, as far as the line goes. */
  predicate GoodLine(c: Command, p: seq<byte>, ws: seq<Item>, num: Numbers) {
    match c
    case Set | Add | Replace | Append | Prepend => StorageLine(p, ws, false, num)
    case Cas => StorageLine(p, ws, true, num)
    case Get | Gets => ws != []
    case Delete => |ws| >= 1 && EndsWell(p, ws, 1)
    case Incr | Decr => |ws| >= 2 && EndsWell(p, ws, 2) && num(ws[1].start, 64).Some?
    case Touch => |ws| >= 2 && EndsWell(p, ws, 2) && num(ws[1].start, TIME_BITS).Some?
    case Lock | Unlock => |ws| == 1
    case Stats => ws == [] || (After(ws[0]) <= |p| && IsStats(Word(p, ws[0])))
    case FlushAll => FlushLine(p, ws, num)
    case Verbosity => |ws| >= 1 && EndsWell(p, ws, 1)
    case UnlockAll | Slabs | Version | Quit | Keys => true
    case Unknown => false
  }

  /** The commands whose first word is a key, given that the line is good. */
  predicate HasKey(c: Command, ws: seq<Item>) {
    IsStorage(c) || c in {Get, Gets, Delete, Incr, Decr, Touch, Lock, Unlock} || (c == Keys && ws != [])
  }

  /** The numbers, the times and the "noreply" of the other commands. */
  predicate NumbersRead(c: Command, p: seq<byte>, ws: seq<Item>, num: Numbers, now: int, r: TextRequest)
    requires GoodLine(c, p, ws, num)
  {
    match c
    case Incr | Decr => r.value == num(ws[1].start, 64).value && r.noReply == (|ws| == 3)
    case Touch => r.exptime == Exptime(num(ws[1].start, TIME_BITS).value, now) && r.noReply == (|ws| == 3)
    case FlushAll =>
      r.exptime == FlushWhen(p, ws, num, now) && r.noReply == (|ws| == if Timed(p, ws) then 2 else 1)
    case Delete | Verbosity => r.noReply == (|ws| == 2)
    case _ => !r.noReply
  }

  /** `parse_stats`: nothing, or a known category; what follows it is not looked at. */
  method ParseStats(p: seq<byte>, start: nat, e: nat) returns (valid: bool)
    requires Line(p, start, e)
    ensures var ws := Words(p, start, e);
      valid <==> ws == [] || (After(ws[0]) <= |p| && IsStats(Word(p, ws[0])))
  {
    WordsShape(p, start, e);
    var w, _ := NextWord(p, start, e);
    if w.None? { return true; }
    valid := IsStats(p[w.value.start..After(w.value)]);
  }

  /** The parser of each command, on the rest of the line. */
  method Dispatch(c: Command, p: seq<byte>, start: nat, e: nat, num: Numbers, now: int, r0: TextRequest)
    returns (r: TextRequest)
    requires Line(p, start, e) && r0 == TextRequest(e + 2, false, false, Item(0, 0), 0, 0, 0, Item(0, 0), 0)
    ensures var ws := Words(p, start, e);
      if IsStorage(c) then StorageRead(p, e, ws, c == Cas, num, now, r)
      else
        && r.length == e + 2 && (r.valid <==> GoodLine(c, p, ws, num))
        && (r.valid ==> NumbersRead(c, p, ws, num, now, r) && (HasKey(c, ws) ==> ws != [] && r.key == ws[0]))
    ensures Inside(r) && r.length <= |p| && (r.length > 0 ==> r.length >= e + 2)
  {
    hide Words, EndsWell, FlushLine, Inside;
    NoItems(r0);
    if c == Cas {
      r := ParseStorage(p, start, e, true, num, now, r0);
    } else if IsStorage(c) {
      r := ParseStorage(p, start, e, false, num, now, r0);
    } else {
      r := DispatchOther(c, p, start, e, num, now, r0);
    }
  }

  method DispatchOther(c: Command, p: seq<byte>, start: nat, e: nat, num: Numbers, now: int, r0: TextRequest)
    returns (r: TextRequest)
    requires Line(p, start, e) && !IsStorage(c)
    requires r0 == TextRequest(e + 2, false, false, Item(0, 0), 0, 0, 0, Item(0, 0), 0)
    ensures var ws := Words(p, start, e);
      && r.length == e + 2 && (r.valid <==> GoodLine(c, p, ws, num))
      && (r.valid ==> NumbersRead(c, p, ws, num, now, r) && (HasKey(c, ws) ==> ws != [] && r.key == ws[0]))
    ensures Inside(r)
  {
    hide Words, EndsWell, FlushLine, Inside;
    r := r0;
    NoItems(r);
    match c {
      case Get | Gets => r := ParseGet(p, start, e, r0);
      case Keys =>
        r := ParseGet(p, start, e, r0);
        if !r.valid {
          r := r0.(valid := true);
          NoItems(r);
        }
      case Delete => r := ParseKeyOnly(p, start, e, true, r0);
      case Lock | Unlock => r := ParseKeyOnly(p, start, e, false, r0);
      case Incr | Decr | Touch => r := ParseKeyNumber(p, start, e, c == Touch, num, now, r0);
      case FlushAll => r := ParseFlushAll(p, start, e, num, now, r0);
      case Verbosity =>
        r := ParseKeyOnly(p, start, e, true, r0);
        r := r.(key := Item(0, 0), data := Item(0, 0));
        NoItems(r);
      case Stats =>
        var ok := ParseStats(p, start, e);
        r := r0.(valid := ok);
        NoItems(r);
      case UnlockAll | Slabs | Version | Quit =>
        r := r0.(valid := true);
        NoItems(r);
      case _ =>
    }
  }

  /** What the bytes are read as: the first word is the command, the others are what it asks for. */
  predicate Parsed(p: seq<byte>, num: Numbers, now: int, c: Command, r: TextRequest) {
    var lf := Until(p, 0, |p|, LF);
    if lf == |p| then !r.valid && r.length == 0
    else if lf == 0 || p[lf - 1] != CR then !r.valid && r.length == lf + 1
    else
      var ws := Words(p, 0, lf - 1);
      && c == (if ws == [] || After(ws[0]) > |p| then Unknown else CommandOf(Word(p, ws[0])))
      && if ws == [] then !r.valid && r.length == lf + 1
         else if IsStorage(c) then StorageRead(p, lf - 1, ws[1..], c == Cas, num, now, r)
         else
           && r.length == lf + 1 && (r.valid <==> GoodLine(c, p, ws[1..], num))
           && (r.valid ==> NumbersRead(c, p, ws[1..], num, now, r))
           && (r.valid && HasKey(c, ws[1..]) ==> |ws| >= 2 && r.key == ws[1])
  }

  /**
    `text_request::parse`: nothing is consumed before the line is complete; the request never
    exceeds the buffer, and its items lie inside it.
  */
  method Parse(p: seq<byte>, num: Numbers, now: int) returns (c: Command, r: TextRequest)
    requires p != []
    ensures Parsed(p, num, now, c, r)
    ensures Inside(r) && r.length <= |p|
  {
    hide Words, GoodLine, CommandOf, Inside, StorageRead, NumbersRead;
    c, r := Unknown, TextRequest(0, false, false, Item(0, 0), 0, 0, 0, Item(0, 0), 0);
    NoItems(r);
    var eol := Find(p, 0, |p|, LF);
    if eol.None? { return; }
    r := r.(length := eol.value + 1);
    NoItems(r);
    if r.length == 1 { return; }
    var e := eol.value - 1;
    if p[e] != CR { return; }
    WordsShape(p, 0, e);
    var w, b := NextWord(p, 0, e);
    if w.None? { return; }
    assert w.value == Words(p, 0, e)[0] && Words(p, 0, e)[1..] == Words(p, b, e);
    c := CommandOf(p[w.value.start..After(w.value)]);
    r := Dispatch(c, p, b, e, num, now, r);
  }

  // ---------------------------------------------------------------- keys of GET

  /** `next_key`: it looks for the CR itself. */
  method NextKey(p: seq<byte>, prev: Item, ghost e: nat) returns (k: Option<Item>)
    requires After(prev) <= e < |p| && p[e] == CR
    ensures var c := Until(p, After(prev), |p|, CR);
      c <= e && var ws := Words(p, After(prev), c); k == if ws == [] then None else Some(ws[0])
  {
    ghost var c := Until(p, After(prev), |p|, CR);
    assert c <= e;
    var b := SkipSpaces(p, After(prev), c);
    var cr := Find(p, b, |p|, CR);
    SameCR(p, After(prev), b);
    if b == cr.value { return None; }
    var end := Find(p, b, cr.value, SP);
    var t := if end.Some? then end.value else cr.value;
    return Some(Item(b, t - b));
  }

  lemma SameCR(p: seq<byte>, b: nat, t: nat)
    requires b <= |p| && b <= t <= Until(p, b, |p|, CR)
    ensures Until(p, t, |p|, CR) == Until(p, b, |p|, CR)
  {}

  lemma WordsFrom(p: seq<byte>, b: nat, e: nat)
    requires b <= e <= |p| && Words(p, b, e) != []
    ensures var w := Words(p, b, e)[0];
      b <= w.start && w.len > 0 && After(w) <= e && Words(p, b, e) == [w] + Words(p, After(w), e)
  {}

  /**
    The keys of a GET: the first, then the words up to the next CR; all of the line's words when
    no CR stands inside it.  The iteration ends.
  */
  method AllKeys(p: seq<byte>, start: nat, e: nat) returns (keys: seq<Item>)
    requires Line(p, start, e) && Words(p, start, e) != []
    ensures var first := Words(p, start, e)[0];
      && Until(p, After(first), |p|, CR) <= e
      && keys == [first] + Words(p, After(first), Until(p, After(first), |p|, CR))
      && (Until(p, After(first), |p|, CR) == e ==> keys == Words(p, start, e))
  {
    hide Words;
    var w, b := NextWord(p, start, e);
    ghost var first := w.value;
    WordsFrom(p, start, e);
    ghost var c := Until(p, After(first), |p|, CR);
    keys := [w.value];
    var last := w.value;
    var k := NextKey(p, last, e);
    while k.Some?
      invariant After(last) <= c <= e && Until(p, After(last), |p|, CR) == c
      invariant k == if Words(p, After(last), c) == [] then None else Some(Words(p, After(last), c)[0])
      invariant keys + Words(p, After(last), c) == [first] + Words(p, After(first), c)
      decreases c - After(last)
    {
      WordsFrom(p, After(last), c);
      ghost var rest := Words(p, After(k.value), c);
      assert keys + ([k.value] + rest) == (keys + [k.value]) + rest;
      SameCR(p, After(last), After(k.value));
      last := k.value;
      keys := keys + [last];
      k := NextKey(p, last, e);
    }
    assert keys + [] == keys;
  }
}
