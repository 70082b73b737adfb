/** Decimal text of 64-bit numbers, as `incr` and `decr` read and write it. */
module Numeric {
  import opened Seqs

  type byte = b: int | 0 <= b < 256

  const TWO64: nat := 0x1_0000_0000_0000_0000

  predicate IsDigit(c: byte) { 48 <= c <= 57 }

  /** isspace in the C locale. */
  predicate IsSpace(c: byte) { c == 32 || 9 <= c <= 13 }

  function Skip(s: seq<byte>): seq<byte> {
    if s != [] && IsSpace(s[0]) then Skip(s[1..]) else s
  }

  /** The longest prefix of digits. */
  function Digits(s: seq<byte>): (d: seq<byte>)
    ensures d <= s && forall i :: 0 <= i < |d| ==> IsDigit(d[i])
  {
    if s != [] && IsDigit(s[0]) then [s[0]] + Digits(s[1..]) else []
  }

  function Value(d: seq<byte>): nat
    requires forall i :: 0 <= i < |d| ==> IsDigit(d[i])
  {
    if d == [] then 0
    else
      assert IsDigit(d[|d| - 1]);
      10 * Value(d[..|d| - 1]) + (d[|d| - 1] as int - 48)
  }

  /** std::stoull in base 10; None stands for its two exceptions. */
  function Stoull(s: seq<byte>): Option<nat> {
    var t := Skip(s);
    var signed := t != [] && (t[0] == 43 || t[0] == 45);
    var d := Digits(if signed then t[1..] else t);
    if d == [] || Value(d) >= TWO64 then None
    else if signed && t[0] == 45 then Some((TWO64 - Value(d)) % TWO64)
    else Some(Value(d))
  }

  /** snprintf with "%llu". */
  function Print(v: nat): (s: seq<byte>)
    ensures |s| >= 1 && forall i :: 0 <= i < |s| ==> IsDigit(s[i])
  {
    if v < 10 then [48 + v] else Print(v / 10) + [48 + v % 10]
  }

  lemma {:induction false} ValueOfPrint(v: nat)
    ensures Value(Print(v)) == v
  {
    if v >= 10 {
      ValueOfPrint(v / 10);
      assert Print(v)[..|Print(v)| - 1] == Print(v / 10);
    } else {
      assert Print(v)[..0] == [];
    }
  }

  lemma {:induction false} AllDigits(s: seq<byte>)
    requires forall i :: 0 <= i < |s| ==> IsDigit(s[i])
    ensures Digits(s) == s
  {
    if s != [] {
      AllDigits(s[1..]);
      assert s == [s[0]] + s[1..];
    }
  }

  /** Reading back what was printed gives the number, for every 64-bit number. */
  lemma ParseOfPrint(v: nat)
    requires v < TWO64
    ensures Stoull(Print(v)) == Some(v)
  {
    ValueOfPrint(v);
    AllDigits(Print(v));
    assert IsDigit(Print(v)[0]);
    assert Skip(Print(v)) == Print(v);
  }

  function Pow10(k: nat): nat {
    if k == 0 then 1 else 10 * Pow10(k - 1)
  }

  lemma {:induction false} PrintLength(v: nat, k: nat)
    requires k >= 1 && v < Pow10(k)
    ensures |Print(v)| <= k
  {
    if v >= 10 && k > 1 {
      PrintLength(v / 10, k - 1);
    }
  }

  lemma PrintFits(v: nat)
    requires v < TWO64
    ensures 1 <= |Print(v)| <= 20
  {
    assert Pow10(5) == 100_000;
    assert Pow10(10) == 10_000_000_000;
    assert Pow10(15) == 1_000_000_000_000_000;
    assert Pow10(20) == 100_000_000_000_000_000_000;
    PrintLength(v, 20);
  }

  // ---------------------------------------------------------------- what is read of any text

  lemma {:induction false} SkipsSpaces(ws: seq<byte>, t: seq<byte>)
    requires (forall i :: 0 <= i < |ws| ==> IsSpace(ws[i])) && (t == [] || !IsSpace(t[0]))
    ensures Skip(ws + t) == t
    decreases |ws|
  {
    if ws == [] {
      assert ws + t == t;
    } else {
      assert (ws + t)[1..] == ws[1..] + t;
      SkipsSpaces(ws[1..], t);
    }
  }

  lemma {:induction false} DigitsStop(d: seq<byte>, rest: seq<byte>)
    requires (forall i :: 0 <= i < |d| ==> IsDigit(d[i])) && (rest == [] || !IsDigit(rest[0]))
    ensures Digits(d + rest) == d
    decreases |d|
  {
    if d == [] {
      assert d + rest == rest;
    } else {
      assert (d + rest)[1..] == d[1..] + rest;
      DigitsStop(d[1..], rest);
    }
  }

  predicate IsSign(c: byte) { c == 43 || c == 45 }

  /**
    White space, a sign, digits, and whatever follows: the digits count modulo 2^64, negated behind a
    minus, unless there are none or they exceed 64 bits.
  */
  lemma StoullReads(ws: seq<byte>, sign: seq<byte>, d: seq<byte>, rest: seq<byte>)
    requires forall i :: 0 <= i < |ws| ==> IsSpace(ws[i])
    requires sign == [] || (|sign| == 1 && IsSign(sign[0]))
    requires (forall i :: 0 <= i < |d| ==> IsDigit(d[i])) && (rest == [] || !IsDigit(rest[0]))
    requires sign == [] && d == [] && rest != [] ==> !IsSpace(rest[0]) && !IsSign(rest[0])
    ensures Stoull(ws + (sign + (d + rest))) ==
      if d == [] || Value(d) >= TWO64 then None
      else if sign == [45] then Some(if Value(d) == 0 then 0 else TWO64 - Value(d))
      else Some(Value(d))
  {
    hide Skip, Digits, Value, Stoull;
    var t := sign + (d + rest);
    if sign == [] {
      assert t == d + rest;
      if d != [] { assert t[0] == d[0] && IsDigit(d[0]); }
      ReadsUnsigned(ws, d, rest);
    } else {
      ReadsSigned(ws, sign[0], d, rest);
      assert sign == [sign[0]];
    }
  }

  lemma ReadsUnsigned(ws: seq<byte>, d: seq<byte>, rest: seq<byte>)
    requires (forall i :: 0 <= i < |ws| ==> IsSpace(ws[i])) && (forall i :: 0 <= i < |d| ==> IsDigit(d[i]))
    requires rest == [] || (!IsDigit(rest[0]) && (d == [] ==> !IsSpace(rest[0]) && !IsSign(rest[0])))
    ensures Stoull(ws + (d + rest)) == if d == [] || Value(d) >= TWO64 then None else Some(Value(d))
  {
    hide Skip, Digits, Value;
    var t := d + rest;
    if t != [] { assert t[0] == if d != [] then d[0] else rest[0]; }
    SkipsSpaces(ws, t);
    DigitsStop(d, rest);
  }

  lemma ReadsSigned(ws: seq<byte>, sign: byte, d: seq<byte>, rest: seq<byte>)
    requires (forall i :: 0 <= i < |ws| ==> IsSpace(ws[i])) && (forall i :: 0 <= i < |d| ==> IsDigit(d[i]))
    requires IsSign(sign) && (rest == [] || !IsDigit(rest[0]))
    ensures Stoull(ws + ([sign] + (d + rest))) ==
      if d == [] || Value(d) >= TWO64 then None
      else if sign == 45 then Some(if Value(d) == 0 then 0 else TWO64 - Value(d))
      else Some(Value(d))
  {
    hide Skip, Digits, Value;
    var t := [sign] + (d + rest);
    assert t[0] == sign && t[1..] == d + rest;
    SkipsSpaces(ws, t);
    DigitsStop(d, rest);
    if d != [] && Value(d) < TWO64 { Negated(Value(d)); }
  }

  lemma Negated(v: nat)
    requires v < TWO64
    ensures (TWO64 - v) % TWO64 == if v == 0 then 0 else TWO64 - v
  {}

  /** Digits weigh by their position. */
  lemma {:induction false} ValueSplits(a: seq<byte>, b: seq<byte>)
    requires (forall i :: 0 <= i < |a| ==> IsDigit(a[i])) && forall i :: 0 <= i < |b| ==> IsDigit(b[i])
    ensures Value(a + b) == Value(a) * Pow10(|b|) + Value(b)
    decreases |b|
  {
    if b == [] {
      assert a + b == a;
    } else {
      var n := |b| - 1;
      var head := b[..n];
      ValueSplits(a, head);
      ValueLast(a + head, b[n]);
      ValueLast(head, b[n]);
      assert a + b == a + head + [b[n]] && b == head + [b[n]];
      TenTimes(Value(a), Pow10(n));
    }
  }

  lemma ValueLast(d: seq<byte>, c: byte)
    requires (forall i :: 0 <= i < |d| ==> IsDigit(d[i])) && IsDigit(c)
    ensures Value(d + [c]) == 10 * Value(d) + (c as int - 48)
  {
    assert (d + [c])[..|d|] == d;
  }

  lemma TenTimes(x: nat, p: nat)
    ensures x * (10 * p) == 10 * (x * p)
  {}
}
