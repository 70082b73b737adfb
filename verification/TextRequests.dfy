/** Text requests as clients write them, and the commands they arrive as. */
module TextRequests {
  import opened Seqs
  import opened Numeric
  import opened Commands
  import T = Text

  // ---------------------------------------------------------------- numbers

  /** What `strtoull` leaves behind the digits. */
  function Rest(s: seq<byte>): seq<byte> {
    var t := Skip(s);
    var u := if t != [] && IsSign(t[0]) then t[1..] else t;
    u[|Digits(u)|..]
  }

  function Limit(bits: nat): nat {
    if bits == 32 then 0x1_0000_0000 else if bits == T.TIME_BITS then 0x8000_0000_0000_0000 else TWO64
  }

  /** `to_uint`; `stale` says that `errno` is still ERANGE from an earlier call, which nothing clears. */
  function ToUint(p: seq<byte>, stale: bool, pos: nat, bits: nat): Option<nat> {
    if pos > |p| then None
    else
      var s := p[pos..];
      match Stoull(s)
      case None => None
      case Some(i) =>
        if i == TWO64 - 1 && stale then None
        else if Rest(s) == [] || Rest(s)[0] !in {T.CR, T.LF, T.SP} then None
        else if i >= Limit(bits) then None
        else Some(i)
  }

  function Reader(p: seq<byte>, stale: bool): T.Numbers { (pos, bits) => ToUint(p, stale, pos, bits) }

  predicate Readable(v: nat, bits: nat, stale: bool) {
    v < Limit(bits) && (v == 0xffff_ffff_ffff_ffff ==> !stale)
  }

  /** A decimal number at the end of a word is read exactly if it fits, all ones only without a stale error. */
  lemma NumberArrivesExactly(p: seq<byte>, pos: nat, v: nat, bits: nat, stale: bool)
    requires pos + |Print(v)| < |p| && p[pos..pos + |Print(v)|] == Print(v)
    requires p[pos + |Print(v)|] in {T.CR, T.LF, T.SP}
    ensures ToUint(p, stale, pos, bits) == if Readable(v, bits, stale) then Some(v) else None
  {
    hide Print, Value;
    var d, s, r := Print(v), p[pos..], p[pos + |Print(v)|..];
    assert s == d + r;
    assert IsDigit(d[0]) && s[0] == d[0];
    assert Skip(s) == s;
    DigitsStop(d, r);
    ValueOfPrint(v);
    assert s[|d|..] == r;
  }

  // ---------------------------------------------------------------- lines

  /** A word can be any bytes but spaces and line feeds. */
  predicate Plain(w: seq<byte>) { w != [] && T.SP !in w && T.LF !in w }

  function Spaces(n: nat): seq<byte> { seq(n, _ => T.SP) }

  /** The words with any number of spaces before, between and behind them. */
  function Spread(ws: seq<seq<byte>>, gaps: seq<nat>): seq<byte>
    requires |gaps| == |ws| + 1
  {
    if ws == [] then Spaces(gaps[0]) else Spaces(gaps[0]) + ws[0] + Spread(ws[1..], gaps[1..])
  }

  predicate Apart(ws: seq<seq<byte>>, gaps: seq<nat>) {
    |gaps| == |ws| + 1 && forall i :: 1 <= i < |ws| ==> gaps[i] >= 1
  }

  predicate AllPlain(ws: seq<seq<byte>>) { forall i :: 0 <= i < |ws| ==> Plain(ws[i]) }

  lemma SpaceFollows(ws: seq<seq<byte>>, gaps: seq<nat>)
    requires |gaps| == |ws| + 1 && (ws != [] ==> gaps[0] >= 1)
    ensures Spread(ws, gaps) == [] || Spread(ws, gaps)[0] == T.SP
  {}

  lemma {:induction false} NoLineFeed(ws: seq<seq<byte>>, gaps: seq<nat>)
    requires |gaps| == |ws| + 1 && AllPlain(ws)
    ensures T.LF !in Spread(ws, gaps)
    decreases |ws|
  {
    if ws != [] { NoLineFeed(ws[1..], gaps[1..]); }
  }

  /** The items stand for the words, and a space or the end of the line follows each. */
  ghost predicate Shows(p: seq<byte>, e: nat, items: seq<T.Item>, ws: seq<seq<byte>>) {
    && |items| == |ws|
    && forall i :: 0 <= i < |ws| ==>
         && T.After(items[i]) <= e <= |p| && T.Word(p, items[i]) == ws[i]
         && (T.After(items[i]) < e ==> p[T.After(items[i])] == T.SP)
  }

  lemma ShowsFirst(p: seq<byte>, e: nat, w: T.Item, items: seq<T.Item>, ws: seq<seq<byte>>)
    requires ws != [] && Shows(p, e, items, ws[1..]) && T.After(w) <= e <= |p| && T.Word(p, w) == ws[0]
    requires T.After(w) < e ==> p[T.After(w)] == T.SP
    ensures Shows(p, e, [w] + items, ws)
  {
    var all := [w] + items;
    assert forall i :: 1 <= i < |all| ==> all[i] == items[i - 1] && ws[i] == ws[1..][i - 1];
  }

  lemma Parts(p: seq<byte>, b: nat, e: nat, x: seq<byte>, y: seq<byte>, z: seq<byte>)
    requires b <= e <= |p| && p[b..e] == x + y + z
    ensures b + |x| + |y| + |z| == e
    ensures p[b..b + |x|] == x && p[b + |x|..b + |x| + |y|] == y && p[b + |x| + |y|..e] == z
  {
    var l := x + y + z;
    assert forall i :: b <= i < e ==> p[i] == p[b..e][i - b] == l[i - b];
    assert p[b..b + |x|] == l[..|x|] == x;
    assert p[b + |x|..b + |x| + |y|] == l[|x|..|x| + |y|] == y;
    assert p[b + |x| + |y|..e] == l[|x| + |y|..] == z;
  }

  lemma SkipsTo(p: seq<byte>, b: nat, s: nat, e: nat)
    requires b <= s < e <= |p| && p[b..s] == Spaces(s - b) && p[s] != T.SP
    ensures T.Skip(p, b, e) == s
  {
    assert forall i :: b <= i < s ==> p[i] == p[b..s][i - b];
  }

  lemma EndsAt(p: seq<byte>, s: nat, t: nat, e: nat)
    requires s <= t <= e <= |p| && T.SP !in p[s..t] && (t < e ==> p[t] == T.SP)
    ensures T.Until(p, s, e, T.SP) == t
  {
    assert forall i :: s <= i < t ==> p[i] == p[s..t][i - s];
  }

  /** The first word of a line: where it starts and where it ends. */
  lemma FirstWord(p: seq<byte>, b: nat, e: nat, n: nat, w: seq<byte>, rest: seq<byte>)
    requires b <= e <= |p| && p[b..e] == Spaces(n) + w + rest && Plain(w) && (rest == [] || rest[0] == T.SP)
    ensures b + n + |w| <= e && T.Words(p, b, e) == [T.Item(b + n, |w|)] + T.Words(p, b + n + |w|, e)
    ensures p[b + n..b + n + |w|] == w && p[b + n + |w|..e] == rest
  {
    hide T.Skip, T.Until;
    Parts(p, b, e, Spaces(n), w, rest);
    assert p[b + n] == w[0];
    SkipsTo(p, b, b + n, e);
    if rest != [] { assert p[b + n + |w|] == rest[0]; }
    EndsAt(p, b + n, b + n + |w|, e);
  }

  lemma OnlySpaces(p: seq<byte>, b: nat, e: nat, n: nat)
    requires b <= e <= |p| && p[b..e] == Spaces(n)
    ensures T.Words(p, b, e) == []
  {
    assert forall i :: b <= i < e ==> p[i] == p[b..e][i - b];
  }

  lemma {:induction false} WordsSpread(p: seq<byte>, b: nat, e: nat, ws: seq<seq<byte>>, gaps: seq<nat>)
    requires b <= e <= |p| && AllPlain(ws) && |gaps| == |ws| + 1 && Apart(ws, gaps)
    requires p[b..e] == Spread(ws, gaps)
    ensures Shows(p, e, T.Words(p, b, e), ws)
    decreases |ws|
  {
    hide T.Words, Shows, Apart, AllPlain, Plain, Spaces;
    if ws == [] {
      OnlySpaces(p, b, e, gaps[0]);
      ShowsNone(p, e);
    } else {
      Shorter(ws, gaps);
      SpaceFollows(ws[1..], gaps[1..]);
      FirstWord(p, b, e, gaps[0], ws[0], Spread(ws[1..], gaps[1..]));
      var s := b + gaps[0];
      var t := s + |ws[0]|;
      WordsSpread(p, t, e, ws[1..], gaps[1..]);
      if t < e { assert p[t] == p[t..e][0]; }
      ShowsFirst(p, e, T.Item(s, t - s), T.Words(p, t, e), ws);
    }
  }

  lemma ShowsNone(p: seq<byte>, e: nat)
    ensures Shows(p, e, [], [])
  {}

  lemma Shorter(ws: seq<seq<byte>>, gaps: seq<nat>)
    requires ws != [] && AllPlain(ws) && Apart(ws, gaps)
    ensures Plain(ws[0]) && Apart(ws[1..], gaps[1..]) && AllPlain(ws[1..])
    ensures |ws| > 1 ==> gaps[1] >= 1
  {}

  /** A line of these words, whatever follows it. */
  lemma LineShows(ws: seq<seq<byte>>, gaps: seq<nat>, tail: seq<byte>)
    requires AllPlain(ws) && Apart(ws, gaps)
    ensures var line := Spread(ws, gaps);
      var p := line + [T.CR, T.LF] + tail;
      && T.Until(p, 0, |p|, T.LF) == |line| + 1 && p[|line|] == T.CR
      && Shows(p, |line|, T.Words(p, 0, |line|), ws)
  {
    hide Shows, T.Words;
    var line := Spread(ws, gaps);
    var p := line + [T.CR, T.LF] + tail;
    NoLineFeed(ws, gaps);
    assert p[0..|line|] == line;
    assert forall i :: 0 <= i < |line| ==> p[i] == line[i] != T.LF;
    assert p[|line| + 1] == T.LF;
    WordsSpread(p, 0, |line|, ws, gaps);
  }

  // ---------------------------------------------------------------- requests

  /** The name of a command in the text protocol. */
  predicate Named(name: string, c: Cmd) {
    match c
    case Get(_, _) => name == "get" || name == "gets"
    case Store(mode, _, _, _, _, _) =>
      name == (match mode case Set => "set" case Add => "add" case Replace => "replace")
    case CompareAndSwap(_, _, _, _) => name == "cas"
    case Append(_, _) => name == "append"
    case Prepend(_, _) => name == "prepend"
    case Delete(_) => name == "delete"
    case Increment(_, _, _) => name == "incr"
    case Decrement(_, _, _) => name == "decr"
    case Touch(_) => name == "touch"
    case Lock => name == "lock"
    case Unlock(_) => name == "unlock"
    case ReplaceAndUnlock(_, _, _, _) => false
  }

  predicate Storage(c: Cmd) { c.Store? || c.CompareAndSwap? || c.Append? || c.Prepend? }

  /** What the text protocol can say: no comparison but by cas, no initial value, no touching or locking read. */
  predicate Sayable(c: Cmd) {
    match c
    case Get(touch, lock) => touch.None? && !lock
    case Store(_, text, _, _, t, cas) => text && t >= 0 && cas == 0
    case CompareAndSwap(_, _, t, _) => t >= 0
    case Append(_, cas) => cas == 0
    case Prepend(_, cas) => cas == 0
    case Delete(cas) => cas == 0
    case Increment(_, cas, i) => cas == 0 && i.None?
    case Decrement(_, cas, i) => cas == 0 && i.None?
    case Touch(t) => t >= 0
    case Lock => true
    case Unlock(text) => text
    case ReplaceAndUnlock(_, _, _, _) => false
  }

  /** The numbers behind the key; append and prepend have flags and a time that mean nothing. */
  function NumbersOf(c: Cmd, flags: nat, time: nat): seq<nat>
    requires Sayable(c)
  {
    match c
    case Store(_, _, data, f, t, _) => [f, t, |data|]
    case CompareAndSwap(data, f, t, cas) => [f, t, |data|, cas]
    case Append(data, _) => [flags, time, |data|]
    case Prepend(data, _) => [flags, time, |data|]
    case Increment(n, _, _) => [n]
    case Decrement(n, _, _) => [n]
    case Touch(t) => [t]
    case _ => []
  }

  function Widths(c: Cmd): seq<nat> {
    if Storage(c) then [32, T.TIME_BITS, 32] + (if c.CompareAndSwap? then [64] else [])
    else if c.Touch? then [T.TIME_BITS]
    else [64]
  }

  predicate AllReadable(ns: seq<nat>, bits: seq<nat>, stale: bool) {
    |ns| <= |bits| && forall i :: 0 <= i < |ns| ==> Readable(ns[i], bits[i], stale)
  }

  function Texts(ns: seq<nat>): (r: seq<seq<byte>>)
    ensures |r| == |ns| && forall i :: 0 <= i < |ns| ==> r[i] == Print(ns[i])
  {
    seq(|ns|, i requires 0 <= i < |ns| => Print(ns[i]))
  }

  function WordsOf(name: seq<byte>, key: Key, ns: seq<nat>, noReply: bool): seq<seq<byte>> {
    [name, key] + Texts(ns) + if noReply then [T.NOREPLY] else []
  }

  /** The line and, for storage commands, the data block. */
  function RequestOf(ws: seq<seq<byte>>, gaps: seq<nat>, c: Cmd): seq<byte>
    requires |gaps| == |ws| + 1
  {
    Spread(ws, gaps) + [T.CR, T.LF] + if Storage(c) then c.data + [T.CR, T.LF] else []
  }

  // ---------------------------------------------------------------- the command that arrives

  /** The command that `cmd_text` runs for a valid request, on its key or, for get, on each of its keys. */
  function CommandFor(c: T.Command, p: seq<byte>, r: T.TextRequest): Option<Cmd>
    requires T.After(r.data) <= |p|
  {
    var data := T.Word(p, r.data);
    match c
    case Set => Some(Store(Mode.Set, true, data, r.flags, r.exptime, 0))
    case Add => Some(Store(Mode.Add, true, data, r.flags, r.exptime, 0))
    case Replace => Some(Store(Mode.Replace, true, data, r.flags, r.exptime, 0))
    case Append => Some(Append(data, 0))
    case Prepend => Some(Prepend(data, 0))
    case Cas => Some(CompareAndSwap(data, r.flags, r.exptime, r.cas))
    case Get | Gets => Some(Get(None, false))
    case Delete => Some(Delete(0))
    case Incr => Some(Increment(r.value, 0, None))
    case Decr => Some(Decrement(r.value, 0, None))
    case Touch => Some(Touch(r.exptime))
    case Lock => Some(Lock)
    case Unlock => Some(Unlock(true))
    case _ => None
  }

  /** 0 is never, up to 30 days is from now, the rest is a date. */
  function Resolved(t: int, now: int): int {
    if t == 0 || t > 2_592_000 then t else now + t
  }

  function Arrives(c: Cmd, now: int): Cmd {
    match c
    case Store(mode, text, data, flags, t, cas) => Store(mode, text, data, flags, Resolved(t, now), cas)
    case CompareAndSwap(data, flags, t, cas) => CompareAndSwap(data, flags, Resolved(t, now), cas)
    case Touch(t) => Touch(Resolved(t, now))
    case _ => c
  }

  lemma PrintIsPlain(v: nat)
    ensures Plain(Print(v))
  {
    hide Print;
    var s := Print(v);
    assert forall i :: 0 <= i < |s| ==> IsDigit(s[i]);
  }

  lemma AllWordsPlain(name: seq<byte>, key: Key, ns: seq<nat>, noReply: bool)
    requires Plain(name) && Plain(key)
    ensures AllPlain(WordsOf(name, key, ns, noReply))
  {
    hide Plain, Print;
    var ws := WordsOf(name, key, ns, noReply);
    assert Plain(T.NOREPLY) by { NoReplyPlain(); }
    forall i | 0 <= i < |ws|
      ensures Plain(ws[i])
    {
      if 2 <= i < 2 + |ns| { PrintIsPlain(ns[i - 2]); }
    }
  }

  lemma NoReplyPlain()
    ensures Plain(T.NOREPLY)
  {}

  /** What the words of the line are read as. */
  ghost predicate Heard(p: seq<byte>, e: nat, items: seq<T.Item>, name: seq<byte>, key: Key, ns: seq<nat>,
                        bits: seq<nat>, noReply: bool, num: T.Numbers)
  {
    && |items| == 2 + |ns| + (if noReply then 1 else 0) && |ns| <= |bits|
    && (forall i :: 0 <= i < |items| ==> T.After(items[i]) <= e <= |p|)
    && T.Word(p, items[0]) == name && T.Word(p, items[1]) == key
    && (forall i :: 0 <= i < |ns| ==> num(items[2 + i].start, bits[i]) == Some(ns[i]))
    && (noReply ==> T.IsNoReply(p, items[2 + |ns|]))
  }

  lemma LineHeard(p: seq<byte>, e: nat, items: seq<T.Item>, name: seq<byte>, key: Key, ns: seq<nat>, bits: seq<nat>,
                  noReply: bool, stale: bool)
    requires Shows(p, e, items, WordsOf(name, key, ns, noReply)) && e < |p| && p[e] == T.CR
    requires AllReadable(ns, bits, stale)
    ensures Heard(p, e, items, name, key, ns, bits, noReply, Reader(p, stale))
  {
    hide Print, ToUint, Readable;
    var ws := WordsOf(name, key, ns, noReply);
    forall i | 0 <= i < |ns|
      ensures Reader(p, stale)(items[2 + i].start, bits[i]) == Some(ns[i])
    {
      assert ws[2 + i] == Print(ns[i]);
      NumberShown(p, e, items[2 + i], ns[i], bits[i], stale);
    }
    if noReply { assert ws[2 + |ns|] == T.NOREPLY; }
    assert ws[0] == name && ws[1] == key;
  }

  lemma NumberShown(p: seq<byte>, e: nat, item: T.Item, v: nat, bits: nat, stale: bool)
    requires T.After(item) <= e < |p| && p[e] == T.CR && (T.After(item) < e ==> p[T.After(item)] == T.SP)
    requires T.Word(p, item) == Print(v) && Readable(v, bits, stale)
    ensures Reader(p, stale)(item.start, bits) == Some(v)
  {
    hide Print, ToUint, Readable;
    NumberArrivesExactly(p, item.start, v, bits, stale);
  }

  /** The parser's name for the command. */
  predicate Matches(k: T.Command, c: Cmd) {
    match c
    case Get(_, _) => k == T.Get || k == T.Gets
    case Store(mode, _, _, _, _, _) => k == (match mode case Set => T.Set case Add => T.Add case Replace => T.Replace)
    case CompareAndSwap(_, _, _, _) => k == T.Cas
    case Append(_, _) => k == T.Append
    case Prepend(_, _) => k == T.Prepend
    case Delete(_) => k == T.Delete
    case Increment(_, _, _) => k == T.Incr
    case Decrement(_, _, _) => k == T.Decr
    case Touch(_) => k == T.Touch
    case Lock => k == T.Lock
    case Unlock(_) => k == T.Unlock
    case ReplaceAndUnlock(_, _, _, _) => false
  }

  lemma NameMatches(name: string, w: seq<byte>, c: Cmd)
    requires Named(name, c) && T.Spells(w, name)
    ensures Matches(T.CommandOf(w), c)
  {
    hide T.CommandOf, T.Spells;
    var k := if name == "gets" then T.Gets else CommandNamed(c);
    T.NamedExactly(w, k);
  }

  function CommandNamed(c: Cmd): (k: T.Command)
    requires !c.ReplaceAndUnlock?
    ensures Matches(k, c)
  {
    match c
    case Get(_, _) => T.Get
    case Store(mode, _, _, _, _, _) => (match mode case Set => T.Set case Add => T.Add case Replace => T.Replace)
    case CompareAndSwap(_, _, _, _) => T.Cas
    case Append(_, _) => T.Append
    case Prepend(_, _) => T.Prepend
    case Delete(_) => T.Delete
    case Increment(_, _, _) => T.Incr
    case Decrement(_, _, _) => T.Decr
    case Touch(_) => T.Touch
    case Lock => T.Lock
    case Unlock(_) => T.Unlock
  }

  lemma StorageArrives(p: seq<byte>, e: nat, items: seq<T.Item>, w: seq<byte>, c: Cmd, key: Key, flags: nat, time: nat,
                       noReply: bool, num: T.Numbers, now: int, k: T.Command, r: T.TextRequest)
    requires Sayable(c) && Storage(c) && Matches(k, c)
    requires Heard(p, e, items, w, key, NumbersOf(c, flags, time), Widths(c), noReply, num)
    requires |p| >= e + |c.data| + 4 && p[e + 2..e + 2 + |c.data|] == c.data
    requires p[e + 2 + |c.data|] == T.CR && p[e + 3 + |c.data|] == T.LF
    requires T.StorageRead(p, e, items[1..], k == T.Cas, num, now, r)
    ensures r.valid && r.length == e + |c.data| + 4 && r.noReply == noReply
    ensures r.key == items[1] && T.After(r.data) <= |p| && CommandFor(k, p, r) == Some(Arrives(c, now))
  {
    var ns, bits := NumbersOf(c, flags, time), Widths(c);
    var n := if c.CompareAndSwap? then 5 else 4;
    var ws := items[1..];
    assert |ns| == n - 1 && |ws| == n + if noReply then 1 else 0;
    assert ws[0] == items[1] && ws[1] == items[2 + 0] && ws[2] == items[2 + 1] && ws[3] == items[2 + 2];
    assert bits[0] == 32 && bits[1] == T.TIME_BITS && bits[2] == 32;
    assert num(ws[1].start, 32) == Some(ns[0]) && num(ws[2].start, T.TIME_BITS) == Some(ns[1]);
    assert num(ws[3].start, 32) == Some(ns[2]);
    if c.CompareAndSwap? {
      assert bits[3] == 64 && ws[4] == items[2 + 3];
      assert num(ws[4].start, 64) == Some(ns[3]);
    }
    if noReply { assert ws[n] == items[2 + |ns|]; }
    assert T.EndsWell(p, ws, n);
  }

  lemma OtherArrives(p: seq<byte>, e: nat, items: seq<T.Item>, w: seq<byte>, c: Cmd, key: Key,
                     noReply: bool, num: T.Numbers, now: int, k: T.Command, r: T.TextRequest)
    requires Sayable(c) && !Storage(c) && Matches(k, c) && (c.Get? || c.Lock? || c.Unlock? ==> !noReply)
    requires Heard(p, e, items, w, key, NumbersOf(c, 0, 0), Widths(c), noReply, num)
    requires r.valid <==> T.GoodLine(k, p, items[1..], num)
    requires r.valid ==> T.NumbersRead(k, p, items[1..], num, now, r)
    ensures r.valid && r.noReply == noReply
    ensures T.After(r.data) <= |p| ==> CommandFor(k, p, r) == Some(Arrives(c, now))
  {
    var ns, bits := NumbersOf(c, 0, 0), Widths(c);
    var ws := items[1..];
    assert |ns| <= 1 && |ws| == |ns| + 1 + if noReply then 1 else 0;
    assert ws[0] == items[1];
    if |ns| == 1 {
      assert ws[1] == items[2 + 0];
      assert num(ws[1].start, bits[0]) == Some(ns[0]);
    }
    if noReply { assert ws[1 + |ns|] == items[2 + |ns|]; }
    assert T.EndsWell(p, ws, 1 + |ns|);
  }

  /**
    Every text request of a single-key command is parsed as that command, however its words are spaced
    and whatever follows it: valid, as long as it is, with its key, data, numbers, time and "noreply".
  */
  lemma TextArrives(name: string, w: seq<byte>, c: Cmd, key: Key, flags: nat, time: nat, noReply: bool,
                    gaps: seq<nat>, suffix: seq<byte>, now: int, stale: bool, k: T.Command, r: T.TextRequest)
    requires Sayable(c) && Named(name, c) && T.Spells(w, name) && Plain(key)
    requires noReply ==> !c.Get? && !c.Lock? && !c.Unlock?
    requires AllReadable(NumbersOf(c, flags, time), Widths(c), stale)
    requires Apart(WordsOf(w, key, NumbersOf(c, flags, time), noReply), gaps)
    requires var q := RequestOf(WordsOf(w, key, NumbersOf(c, flags, time), noReply), gaps, c);
      T.Parsed(q + suffix, Reader(q + suffix, stale), now, k, r) && T.Inside(r) && r.length <= |q + suffix|
    ensures var q := RequestOf(WordsOf(w, key, NumbersOf(c, flags, time), noReply), gaps, c);
      var p := q + suffix;
      && r.valid && r.length == |q| && r.noReply == noReply && T.After(r.key) <= |p| && T.After(r.data) <= |p|
      && T.Word(p, r.key) == key && CommandFor(k, p, r) == Some(Arrives(c, now))
  {
    hide T.Words, T.CommandOf, T.Spells, T.StorageRead, T.GoodLine, T.NumbersRead, Heard, Named, Reader, Sayable,
         NumbersOf, Arrives, CommandFor, Widths, WordsOf, AllReadable, Plain, T.Until, Spread, RequestOf;
    var ns := NumbersOf(c, flags, time);
    var ws := WordsOf(w, key, ns, noReply);
    var q, e := RequestOf(ws, gaps, c), |Spread(ws, gaps)|;
    var p, num := q + suffix, Reader(q + suffix, stale);
    NamePlain(name, w, c);
    RequestHeard(w, c, key, ns, noReply, gaps, suffix, stale);
    var items := T.Words(p, 0, e);
    NameMatches(name, w, c);
    HeardFirst(p, e, items, w, key, ns, Widths(c), noReply, num);
    KindOf(k, c);
    if Storage(c) {
      StorageArrives(p, e, items, w, c, key, flags, time, noReply, num, now, k, r);
    } else {
      SameNumbers(c, flags, time);
      OtherArrives(p, e, items, w, c, key, noReply, num, now, k, r);
    }
  }

  /** The first line of the request, its words, and the data block behind it. */
  lemma RequestHeard(w: seq<byte>, c: Cmd, key: Key, ns: seq<nat>, noReply: bool, gaps: seq<nat>, suffix: seq<byte>,
                     stale: bool)
    requires Plain(w) && Plain(key) && AllReadable(ns, Widths(c), stale) && Apart(WordsOf(w, key, ns, noReply), gaps)
    ensures var ws := WordsOf(w, key, ns, noReply);
      var q, e := RequestOf(ws, gaps, c), |Spread(ws, gaps)|;
      var p := q + suffix;
      && e + 2 <= |q| <= |p| && T.Until(p, 0, |p|, T.LF) == e + 1 && p[e] == T.CR
      && Heard(p, e, T.Words(p, 0, e), w, key, ns, Widths(c), noReply, Reader(p, stale))
      && if !Storage(c) then |q| == e + 2
         else
           && |q| == e + |c.data| + 4 && p[e + 2..e + 2 + |c.data|] == c.data
           && p[e + 2 + |c.data|] == T.CR && p[e + 3 + |c.data|] == T.LF
  {
    hide T.Words, Heard, Shows, Reader, WordsOf, AllReadable, Plain, T.Until, Spread, Widths;
    var ws := WordsOf(w, key, ns, noReply);
    var line, block := Spread(ws, gaps), if Storage(c) then c.data + [T.CR, T.LF] else [];
    var p, e := RequestOf(ws, gaps, c) + suffix, |line|;
    assert p == line + [T.CR, T.LF] + (block + suffix);
    AllWordsPlain(w, key, ns, noReply);
    LineShows(ws, gaps, block + suffix);
    LineHeard(p, e, T.Words(p, 0, e), w, key, ns, Widths(c), noReply, stale);
    if Storage(c) { Block(line, c.data, suffix); }
  }

  lemma SameNumbers(c: Cmd, flags: nat, time: nat)
    requires Sayable(c) && !Storage(c)
    ensures NumbersOf(c, flags, time) == NumbersOf(c, 0, 0)
  {}

  lemma KindOf(k: T.Command, c: Cmd)
    requires Matches(k, c)
    ensures T.IsStorage(k) == Storage(c) && (!Storage(c) ==> forall ws :: T.HasKey(k, ws))
  {}

  lemma HeardFirst(p: seq<byte>, e: nat, items: seq<T.Item>, w: seq<byte>, key: Key, ns: seq<nat>, bits: seq<nat>,
                   noReply: bool, num: T.Numbers)
    requires Heard(p, e, items, w, key, ns, bits, noReply, num)
    ensures |items| >= 2 && T.After(items[0]) <= |p| && T.Word(p, items[0]) == w
    ensures T.After(items[1]) <= |p| && T.Word(p, items[1]) == key
  {}

  lemma NamePlain(name: string, w: seq<byte>, c: Cmd)
    requires Named(name, c) && T.Spells(w, name)
    ensures Plain(w)
  {}

  lemma Block(line: seq<byte>, data: seq<byte>, suffix: seq<byte>)
    ensures var p := line + [T.CR, T.LF] + (data + [T.CR, T.LF]) + suffix;
      var e := |line|;
      && |p| >= e + |data| + 4 && p[e + 2..e + 2 + |data|] == data
      && p[e + 2 + |data|] == T.CR && p[e + 3 + |data|] == T.LF
  {}
}
