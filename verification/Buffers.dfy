/** The growable byte buffer and the temporary file that hold object data. */
module Buffers {
  import opened Numeric

  /** memcpy into a buffer. */
  method Fill(buf: array<byte>, at: nat, src: seq<byte>)
    requires at + |src| <= buf.Length
    modifies buf
    ensures buf[..at] == old(buf[..at]) && buf[at..at + |src|] == src
    ensures buf[at + |src|..] == old(buf[at + |src|..])
  {
    var i := 0;
    while i < |src|
      invariant i <= |src|
      invariant buf[..at] == old(buf[..at]) && buf[at..at + i] == src[..i]
      invariant buf[at + i..] == old(buf[at + i..])
    {
      buf[at + i] := src[i];
      i := i + 1;
    }
  }

  class Dynbuf {
    const defaultCapacity: nat
    var p: array<byte>
    var used: nat

    ghost predicate Valid()
      reads this
    {
      used <= p.Length
    }

    ghost function Contents(): seq<byte>
      requires Valid()
      reads this, p
    {
      p[..used]
    }

    constructor (defaultCapacity: nat)
      ensures Valid() && Contents() == [] && this.defaultCapacity == defaultCapacity
      ensures fresh(p) && p.Length == defaultCapacity
    {
      this.defaultCapacity, p, used := defaultCapacity, new byte[defaultCapacity], 0;
    }

    /** Clear, and shrink to the default capacity. */
    method Reset()
      requires Valid()
      modifies this
      ensures Valid() && Contents() == [] && p.Length == defaultCapacity
      ensures p == old(p) || fresh(p)
    {
      used := 0;
      if p.Length == defaultCapacity { return; }
      p := new byte[defaultCapacity];
    }

    /** More room at the end, the contents kept. */
    method Enlarge(additional: nat)
      requires Valid()
      modifies this
      ensures Valid() && Contents() == old(Contents()) && used == old(used)
      ensures p.Length == old(p.Length) + additional
      ensures if additional == 0 then p == old(p) else fresh(p)
    {
      if additional == 0 { return; }
      var q := new byte[p.Length + additional];
      Fill(q, 0, p[..used]);
      p := q;
    }

    method Append(src: seq<byte>)
      requires Valid()
      modifies this, p
      ensures Valid() && Contents() == old(Contents()) + src
      ensures p == old(p) || fresh(p)
    {
      if p.Length - used < |src| { Enlarge(|src|); }
      Fill(p, used, src);
      used := used + |src|;
    }

    /** memmove of the bytes behind `len` to the head. */
    method MoveDown(len: nat)
      requires Valid() && len <= used
      modifies p
      ensures Valid() && p[..used - len] == old(p[len..used])
    {
      var i := 0;
      while i < used - len
        invariant i <= used - len
        invariant p[..i] == old(p[len..len + i])
        invariant forall j :: i <= j < p.Length ==> p[j] == old(p[j])
      {
        p[i] := p[len + i];
        i := i + 1;
      }
    }

    /** Drop bytes from the head; the buffer shrinks to its default capacity when the rest fits. */
    method Erase(len: nat) returns (ok: bool)
      requires Valid()
      modifies this, p
      ensures Valid() && ok == (len <= old(used))
      ensures Contents() == if ok then old(Contents())[len..] else old(Contents())
      ensures p == old(p) || fresh(p)
    {
      if used < len { return false; }
      if len == 0 { return true; }
      var remain := used - len;
      if remain == 0 {
        Reset();
        return true;
      }
      if remain <= defaultCapacity && p.Length != defaultCapacity {
        var q := new byte[defaultCapacity];
        Fill(q, 0, p[len..used]);
        p, used := q, remain;
        return true;
      }
      MoveDown(len);
      used := remain;
      return true;
    }

    /** Free space for `len` bytes, to be written by a system call. */
    method Prepare(len: nat)
      requires Valid()
      modifies this
      ensures Valid() && Contents() == old(Contents()) && used == old(used) && p.Length - used >= len
      ensures p == old(p) || fresh(p)
    {
      if p.Length - used < len { Enlarge(len); }
    }

    /** Bytes written into the free space become contents. */
    method Consume(n: nat)
      requires Valid() && used + n <= p.Length
      modifies `used
      ensures Valid() && used == old(used) + n && Contents() == old(Contents()) + p[old(used)..used]
    {
      used := used + n;
    }
  }

  /** Exchange the memory of two buffers. */
  method Swap(a: Dynbuf, b: Dynbuf)
    requires a.Valid() && b.Valid()
    modifies a, b
    ensures a.Valid() && b.Valid()
    ensures a.Contents() == old(b.Contents()) && b.Contents() == old(a.Contents())
    ensures a.p == old(b.p) && b.p == old(a.p)
  {
    a.p, b.p := b.p, a.p;
    a.used, b.used := b.used, a.used;
  }

  /** How many bytes the i-th system call moves, of the `len` offered: at least one. */
  function Portion(counts: nat -> nat, i: nat, len: nat): (n: nat)
    requires len > 0
    ensures 1 <= n <= len
  {
    if counts(i) == 0 then 1 else if counts(i) <= len then counts(i) else len
  }

  /** A temporary file, appended to at its end. */
  class Tempfile {
    var contents: seq<byte>
    var length: nat

    ghost predicate Valid()
      reads this
    {
      length == |contents|
    }

    constructor ()
      ensures Valid() && contents == []
    {
      contents, length := [], 0;
    }

    /** Write all bytes, however few each system call takes. */
    method Write(p: seq<byte>, counts: nat -> nat)
      requires Valid()
      modifies this
      ensures Valid() && contents == old(contents) + p
    {
      var at, i := 0, 0;
      while at < |p|
        invariant at <= |p| && Valid() && contents == old(contents) + p[..at]
      {
        var n := Portion(counts, i, |p| - at);
        contents := contents + p[at..at + n];
        assert p[..at + n] == p[..at] + p[at..at + n];
        at, length, i := at + n, length + n, i + 1;
      }
    }

    method Clear()
      modifies this
      ensures Valid() && contents == []
    {
      contents, length := [], 0;
    }

    /** Read the whole file into a buffer; an unexpected end of file cannot happen. */
    method ReadContents(buf: Dynbuf, counts: nat -> nat)
      requires Valid() && buf.Valid()
      modifies buf, buf.p
      ensures buf.Valid() && buf.Contents() == old(buf.Contents()) + contents
      ensures buf.p == old(buf.p) || fresh(buf.p)
    {
      buf.Prepare(length);
      var left, i := length, 0;
      while left > 0
        invariant 0 <= left <= length == |contents| && buf.Valid() && buf.p.Length - buf.used >= left
        invariant buf.Contents() == old(buf.Contents()) + contents[..length - left]
        invariant buf.p == old(buf.p) || fresh(buf.p)
      {
        var at := length - left;
        var n := Portion(counts, i, left);
        Fill(buf.p, buf.used, contents[at..at + n]);
        buf.Consume(n);
        assert contents[..at + n] == contents[..at] + contents[at..at + n];
        left, i := left - n, i + 1;
      }
    }
  }
}
