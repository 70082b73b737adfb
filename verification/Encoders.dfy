/** The replication encoders, which fill byte arrays and hand the pieces to `sendv`. */
module Encoders {
  import opened Seqs
  import opened Numeric
  import opened Objects
  import opened Commands
  import opened Wire

  /** `hton`: the big-endian bytes of `v`, the last one first. */
  method Hton(v: nat, n: nat, buf: array<byte>, at: nat)
    requires at + n <= buf.Length
    modifies buf
    ensures buf[at..at + n] == Be(v, n)
    ensures forall j :: 0 <= j < buf.Length && !(at <= j < at + n) ==> buf[j] == old(buf[j])
  {
    var i := n;
    var w := v;
    assert Be(w, i) + buf[at + i..at + n] == Be(v, n);
    while i > 0
      invariant 0 <= i <= n
      invariant Be(w, i) + buf[at + i..at + n] == Be(v, n)
      invariant forall j :: 0 <= j < buf.Length && !(at <= j < at + n) ==> buf[j] == old(buf[j])
    {
      i := i - 1;
      ghost var tail := buf[at + i + 1..at + n];
      assert Be(w, i + 1) == Be(w / 256, i) + [w % 256];
      buf[at + i] := w % 256;
      assert buf[at + i..at + n] == [w % 256] + tail;
      assert Be(w / 256, i) + ([w % 256] + tail) == (Be(w / 256, i) + [w % 256]) + tail;
      w := w / 256;
    }
  }

  /** `fill_header`; the lengths are 16, 8 and 32 bits wide, and their sum 32. */
  method FillHeader(buf: array<byte>, command: byte, keyLength: nat, extras: byte, dataLength: nat)
    requires buf.Length == HEADER
    modifies buf
    ensures buf[..] == Header(command, keyLength, extras, dataLength)
  {
    hide Be;
    forall i | 0 <= i < HEADER { buf[i] := 0; }
    buf[0], buf[1] := 0x80, command;
    Hton(keyLength % 0x1_0000, 2, buf, 2);
    buf[4] := extras;
    ghost var key := buf[2..4];
    var total := (keyLength % 0x1_0000 + extras + dataLength % TWO32) % TWO32;
    Hton(total, 4, buf, 8);
    assert buf[2..4] == key == Be(keyLength % 0x1_0000, 2);
    Pieces(buf[..], Header(command, keyLength, extras, dataLength));
  }

  lemma Pieces(a: seq<byte>, h: seq<byte>)
    requires |a| == |h| == HEADER
    requires a[..2] == h[..2] && a[2..4] == h[2..4] && a[4..8] == h[4..8] && a[8..12] == h[8..12] && a[12..] == h[12..]
    ensures a == h
  {
    assert a == a[..2] + a[2..4] + a[4..8] + a[8..12] + a[12..];
    assert h == h[..2] + h[2..4] + h[4..8] + h[8..12] + h[12..];
  }

  lemma Concat4(a: seq<byte>, b: seq<byte>, c: seq<byte>, d: seq<byte>)
    ensures Concat([a, b, c, d]) == a + b + c + d
  {
    ConcatLast([a, b, c], d);
    ConcatLast([a, b], c);
    ConcatLast([a], b);
    ConcatLast([], a);
    assert [a, b, c] + [d] == [a, b, c, d] && [a, b] + [c] == [a, b, c] && [a] + [b] == [a, b] && [] + [a] == [a];
  }

  /** `repl_object`: header, extras, key and data. */
  method SetPieces(key: Key, data: seq<byte>, flags: nat, exptime: int) returns (iov: seq<seq<byte>>)
    requires flags < TWO32
    ensures |iov| == 4 && Concat(iov) == Encode(SetMsg(key, data, flags, exptime))
  {
    hide Be, Concat;
    var header := new byte[HEADER];
    FillHeader(header, SETQ, |key|, 8, |data|);
    var extras := new byte[8];
    Hton(flags, 4, extras, 0);
    ghost var first := extras[0..4];
    Hton(Exptime32(exptime), 4, extras, 4);
    assert extras[0..4] == first;
    assert extras[..] == Be(flags, 4) + Be(Exptime32(exptime), 4);
    iov := [header[..], extras[..], key, data];
    Concat4(header[..], extras[..], key, data);
  }

  /** `repl_touch`. */
  method TouchPieces(key: Key, exptime: int) returns (iov: seq<seq<byte>>)
    ensures |iov| == 3 && Concat(iov) == Encode(TouchMsg(key, exptime))
  {
    hide Be, Concat;
    var header := new byte[HEADER];
    FillHeader(header, TOUCH, |key|, 4, 0);
    var extras := new byte[4];
    Hton(Exptime32(exptime), 4, extras, 0);
    assert extras[..] == extras[0..4];
    iov := [header[..], extras[..], key];
    Concat4(header[..], extras[..], key, []);
    assert iov + [[]] == [header[..], extras[..], key, []];
    ConcatLast(iov, []);
    assert Concat(iov) == Concat(iov) + [];
    assert header[..] + extras[..] + key + [] == header[..] + extras[..] + key;
  }

  /** `repl_delete`. */
  method DeletePieces(key: Key) returns (iov: seq<seq<byte>>)
    ensures |iov| == 2 && Concat(iov) == Encode(DeleteMsg(key))
  {
    hide Be;
    var header := new byte[HEADER];
    FillHeader(header, DELETEQ, |key|, 0, 0);
    iov := [header[..], key];
    ConcatLast([header[..]], key);
    ConcatLast([], header[..]);
    assert [header[..]] + [key] == iov && [] + [header[..]] == [header[..]];
  }
}
