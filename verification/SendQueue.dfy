/**
  The send side of a TCP socket: fixed 1 MiB buffers, one overflow buffer and partial writes, which
  together carry one FIFO byte stream.  The methods run under the socket's mutex, so any
  interleaving of senders is a sequence of calls.
*/
module SendQueue {
  import opened Seqs
  import opened Numeric
  import Buffers

  const SENDBUF_SIZE: nat := 1024 * 1024

  /** Result of a `send` or `writev`: some bytes taken (at most those offered), or an error. */
  datatype Sys = Wrote(n: nat) | WouldBlock | Interrupted | Broken

  /** A buffer in use: `buf[sent..len]` is still to be sent. */
  datatype Pending = Pending(buf: array<byte>, len: nat, sent: nat)

  /** `Blocked` is a wait for room; `Refused` follows a shutdown; `Failed` is a system error. */
  datatype Sent = Blocked | Refused | Failed | Accepted

  function Min(a: nat, b: nat): nat { if a <= b then a else b }

  /** `Waiting` for the socket to be writable; everything sent, with `close` after a shutdown; or an error. */
  datatype Written = Waiting | Drained(close: bool) | Errored

  ghost function Bufs(ps: seq<Pending>): set<array<byte>> { set p | p in ps :: p.buf }

  ghost function Frees(free: seq<array<byte>>): set<array<byte>> { set b | b in free }

  ghost predicate Sane(p: Pending) {
    p.sent <= p.len <= SENDBUF_SIZE == p.buf.Length
  }

  ghost predicate AllSane(ps: seq<Pending>) {
    forall i :: 0 <= i < |ps| ==> Sane(ps[i])
  }

  /** The unsent bytes of the buffers, in order. */
  ghost function Flat(ps: seq<Pending>): seq<byte>
    requires AllSane(ps)
    reads Bufs(ps)
  {
    if ps == [] then []
    else
      var last := ps[|ps| - 1];
      assert Sane(last) && last.buf in Bufs(ps);
      assert Bufs(ps[..|ps| - 1]) <= Bufs(ps);
      Flat(ps[..|ps| - 1]) + last.buf[last.sent..last.len]
  }

  ghost function FirstUnsent(ps: seq<Pending>): seq<byte>
    requires ps != []
    reads ps[0].buf
  {
    var p := ps[0];
    if p.sent <= p.len <= p.buf.Length then p.buf[p.sent..p.len] else []
  }

  /** Every buffer in use but the last is full. */
  ghost predicate Packed(ps: seq<Pending>) {
    forall i :: 0 <= i < |ps| - 1 ==> ps[i].len == SENDBUF_SIZE
  }

  /** Free buffers and buffers in use are the allocated ones, each once. */
  ghost predicate Allocated(free: seq<array<byte>>, ps: seq<Pending>, buffers: set<array<byte>>) {
    && NoDup(free)
    && (forall i, j :: 0 <= i < j < |ps| ==> ps[i].buf != ps[j].buf)
    && (forall i :: 0 <= i < |free| ==> free[i] !in Bufs(ps) && free[i].Length == SENDBUF_SIZE)
    && buffers == Frees(free) + Bufs(ps)
  }

  // ---------------------------------------------------------------- the queue as a list

  lemma FlatLast(ps: seq<Pending>, p: Pending)
    requires AllSane(ps) && Sane(p)
    ensures AllSane(ps + [p]) && Flat(ps + [p]) == Flat(ps) + p.buf[p.sent..p.len]
  {
    assert (ps + [p])[..|ps|] == ps;
  }

  lemma {:induction false} FlatFirst(ps: seq<Pending>)
    requires AllSane(ps) && ps != []
    ensures AllSane(ps[1..]) && Flat(ps) == ps[0].buf[ps[0].sent..ps[0].len] + Flat(ps[1..])
    decreases |ps|
  {
    if |ps| == 1 {
      assert ps[..0] == [] && ps[1..] == [];
    } else {
      var n := |ps| - 1;
      FlatFirst(ps[..n]);
      assert ps[..n][1..] == ps[1..][..n - 1];
      Assoc(ps[0].buf[ps[0].sent..ps[0].len], Flat(ps[..n][1..]), ps[n].buf[ps[n].sent..ps[n].len]);
    }
  }

  lemma BufsLast(ps: seq<Pending>, p: Pending)
    ensures Bufs(ps + [p]) == Bufs(ps) + {p.buf}
  {
    assert forall q :: q in ps ==> q in ps + [p];
    assert p in ps + [p];
  }

  lemma BufsInit(ps: seq<Pending>)
    requires ps != []
    requires forall i, j :: 0 <= i < j < |ps| ==> ps[i].buf != ps[j].buf
    ensures ps[|ps| - 1].buf !in Bufs(ps[..|ps| - 1])
  {}

  lemma Taken(free: seq<array<byte>>, ps: seq<Pending>, buffers: set<array<byte>>)
    requires Allocated(free, ps, buffers) && free != []
    ensures var n := |free| - 1;
      free[n].Length == SENDBUF_SIZE && Allocated(free[..n], ps + [Pending(free[n], 0, 0)], buffers)
  {
    var n := |free| - 1;
    BufsLast(ps, Pending(free[n], 0, 0));
    assert free == free[..n] + [free[n]];
    assert Frees(free) == Frees(free[..n]) + {free[n]};
    forall i | 0 <= i < |ps|
      ensures ps[i].buf != free[n]
    {
      assert ps[i] in ps && ps[i].buf in Bufs(ps);
    }
  }

  lemma Grown(free: seq<array<byte>>, buffers: set<array<byte>>, b: array<byte>)
    requires Allocated(free, [], buffers) && b !in buffers && b.Length == SENDBUF_SIZE
    ensures Allocated(free + [b], [], buffers + {b})
  {
    assert Frees(free + [b]) == Frees(free) + {b};
    assert forall i :: 0 <= i < |free| ==> free[i] in Frees(free);
  }

  lemma Returned(free: seq<array<byte>>, ps: seq<Pending>, buffers: set<array<byte>>)
    requires Allocated(free, ps, buffers) && ps != [] && ps[0].buf.Length == SENDBUF_SIZE
    ensures Allocated(free + [ps[0].buf], ps[1..], buffers)
  {
    var b := ps[0].buf;
    assert ps[0] in ps;
    assert Bufs(ps) == Bufs(ps[1..]) + {b} by { assert ps == [ps[0]] + ps[1..]; }
    assert Frees(free + [b]) == Frees(free) + {b};
    forall i | 0 <= i < |ps[1..]|
      ensures ps[1..][i].buf != b
    {
      assert ps[1..][i] == ps[i + 1];
    }
    assert b !in Bufs(ps[1..]);
    assert forall i :: 0 <= i < |free| ==> free[i] !in Bufs(ps[1..]);
  }

  lemma Distinct(free: seq<array<byte>>, ps: seq<Pending>, buffers: set<array<byte>>)
    requires Allocated(free, ps, buffers)
    ensures forall i, j :: 0 <= i < j < |ps| ==> ps[i].buf != ps[j].buf
    ensures forall i :: 0 <= i < |ps| ==> ps[i].buf in buffers
  {
    forall i | 0 <= i < |ps|
      ensures ps[i].buf in buffers
    {
      assert ps[i] in ps;
    }
  }

  lemma SameAllocation(free: seq<array<byte>>, ps: seq<Pending>, qs: seq<Pending>, buffers: set<array<byte>>)
    requires Allocated(free, ps, buffers) && |ps| == |qs|
    requires forall i :: 0 <= i < |ps| ==> ps[i].buf == qs[i].buf
    ensures Allocated(free, qs, buffers) && Bufs(ps) == Bufs(qs)
  {
    SameBufs(ps, qs);
  }

  lemma Multiples(n: nat)
    ensures n == 0 ==> n * SENDBUF_SIZE == 0
    ensures n > 0 ==> n * SENDBUF_SIZE == (n - 1) * SENDBUF_SIZE + SENDBUF_SIZE
  {}

  // ---------------------------------------------------------------- pieces of a message

  ghost predicate NoEmpty(v: seq<seq<byte>>, ind: nat) {
    forall j :: ind <= j < |v| ==> v[j] != []
  }

  lemma FirstPiece(v: seq<seq<byte>>, ind: nat)
    requires ind <= |v|
    ensures ind < |v| ==> Concat(v[ind..]) == v[ind] + Concat(v[ind + 1..])
    ensures ind == |v| ==> Concat(v[ind..]) == []
  {
    if ind < |v| {
      ConcatFirst(v[ind], v[ind + 1..]);
      assert v[ind..] == [v[ind]] + v[ind + 1..];
    }
  }

  /** The first piece loses its first `n` bytes. */
  lemma CutPiece(v: seq<seq<byte>>, ind: nat, n: nat)
    requires ind < |v| && n <= |v[ind]|
    ensures v[ind][..n] + Concat(v[ind := v[ind][n..]][ind..]) == Concat(v[ind..])
  {
    var w := v[ind := v[ind][n..]];
    FirstPiece(v, ind);
    FirstPiece(w, ind);
    assert w[ind + 1..] == v[ind + 1..];
    assert v[ind] == v[ind][..n] + v[ind][n..];
    Assoc(v[ind][..n], v[ind][n..], Concat(v[ind + 1..]));
  }

  method TotalLength(v: seq<seq<byte>>, ind: nat) returns (n: nat)
    requires ind <= |v|
    ensures n == |Concat(v[ind..])|
  {
    hide Concat;
    n := 0;
    var i := ind;
    while i < |v|
      invariant ind <= i <= |v| && n + |Concat(v[i..])| == |Concat(v[ind..])|
    {
      FirstPiece(v, i);
      n := n + |v[i]|;
      i := i + 1;
    }
    FirstPiece(v, i);
  }

  /** The pieces that are not empty. */
  method NonEmpty(iov: seq<seq<byte>>) returns (v: seq<seq<byte>>)
    ensures Concat(v) == Concat(iov) && NoEmpty(v, 0)
  {
    hide Concat;
    v := [];
    ConcatNothing<byte>();
    var i := 0;
    while i < |iov|
      invariant i <= |iov| && Concat(v) == Concat(iov[..i]) && NoEmpty(v, 0)
    {
      assert iov[..i + 1] == iov[..i] + [iov[i]];
      ConcatLast(iov[..i], iov[i]);
      if iov[i] != [] {
        ConcatLast(v, iov[i]);
        v := v + [iov[i]];
      }
      i := i + 1;
    }
    assert iov[..i] == iov;
  }

  /** The inner loop after `writev`: drop the pieces that went out, cut the one that went in part. */
  method Advance(pieces: seq<seq<byte>>, start: nat, count: nat) returns (v: seq<seq<byte>>, ind: nat)
    requires start <= |pieces| && count <= |Concat(pieces[start..])| && NoEmpty(pieces, start)
    ensures ind <= |v| && NoEmpty(v, ind)
    ensures Concat(pieces[start..])[..count] + Concat(v[ind..]) == Concat(pieces[start..])
  {
    hide Concat;
    v, ind := pieces, start;
    var n := count;
    ghost var all := Concat(pieces[start..]);
    ghost var done: seq<byte> := [];
    while n > 0
      invariant ind <= |v| && NoEmpty(v, ind)
      invariant 0 <= n && |done| + n == count && done + Concat(v[ind..]) == all
      decreases |v| - ind, n
    {
      FirstPiece(v, ind);
      if n < |v[ind]| {
        CutPiece(v, ind, n);
        Assoc(done, v[ind][..n], Concat(v[ind := v[ind][n..]][ind..]));
        done := done + v[ind][..n];
        v := v[ind := v[ind][n..]];
        n := 0;
      } else {
        Assoc(done, v[ind], Concat(v[ind + 1..]));
        done := done + v[ind];
        n := n - |v[ind]|;
        ind := ind + 1;
      }
    }
    TakeFirst(done, Concat(v[ind..]));
    assert all[..count] == done;
  }

  class SendQueue {
    var free: seq<array<byte>>
    var pending: seq<Pending>
    var tmp: seq<byte>
    var shutdown: bool
    ghost var buffers: set<array<byte>>
    ghost var kernel: seq<byte>
    ghost var accepted: seq<seq<byte>>

    /** `bufcnt` buffers are allocated up front. */
    constructor (bufcnt: nat)
      ensures Valid() && |free| == bufcnt && fresh(buffers) && !shutdown && accepted == []
    {
      free, pending, tmp, shutdown := [], [], [], false;
      buffers, kernel, accepted := {}, [], [];
      new;
      var i := 0;
      while i < bufcnt
        invariant i <= bufcnt && |free| == i && pending == [] && tmp == [] && !shutdown
        invariant Allocated(free, pending, buffers) && fresh(buffers)
        invariant kernel == [] && accepted == []
      {
        var b := new byte[SENDBUF_SIZE];
        Grown(free, buffers, b);
        free, buffers := free + [b], buffers + {b};
        i := i + 1;
      }
    }

    /** The allocation invariant. */
    ghost predicate Shaped()
      reads `free, `pending, `tmp, `buffers
    {
      && Allocated(free, pending, buffers)
      && AllSane(pending) && Packed(pending)
      && (tmp != [] ==> pending == [])
    }

    /** The bytes waiting in buffers. */
    ghost function Queued(): seq<byte>
      requires Shaped()
      reads `free, `pending, `tmp, `buffers, Bufs(pending)
    {
      Flat(pending)
    }

    ghost function Unsent(): seq<byte>
      requires Shaped()
      reads `free, `pending, `tmp, `buffers, Bufs(pending)
    {
      tmp + Queued()
    }

    lemma LastFits()
      requires Shaped() && pending != []
      ensures pending[|pending| - 1].len <= SENDBUF_SIZE
    {
      assert Sane(pending[|pending| - 1]);
    }

    /** The buffers are objects of their own. */
    lemma Apart()
      ensures forall b :: b in Bufs(pending) ==> (b as object) != (this as object)
    {}

    lemma NothingQueued()
      requires Shaped() && pending == []
      ensures Queued() == []
    {}

    /** Bytes given to the kernel, then the unsent ones, are the accepted messages in order. */
    ghost predicate Valid()
      reads this, Bufs(pending)
    {
      Shaped() && kernel + Unsent() == Concat(accepted)
    }

    function Capacity(): nat
      requires pending != [] ==> pending[|pending| - 1].len <= SENDBUF_SIZE
      reads this
    {
      var c := |free| * SENDBUF_SIZE;
      if pending == [] then c else c + SENDBUF_SIZE - pending[|pending| - 1].len
    }

    predicate CanSend(len: nat)
      requires pending != [] ==> pending[|pending| - 1].len <= SENDBUF_SIZE
      reads this
    {
      shutdown || (tmp == [] && (pending == [] || Capacity() >= len))
    }

    /** The sending loop: offer what is left until the kernel takes no more. */
    method Push(p: seq<byte>, results: seq<Sys>, start: nat) returns (n: nat, failed: bool, i: nat)
      requires start <= |results|
      modifies this`kernel
      ensures n <= |p| && i <= |results| && kernel == old(kernel) + p[..n]
    {
      n, failed, i := 0, false, start;
      while n < |p| && i < |results|
        invariant n <= |p| && i <= |results| && kernel == old(kernel) + p[..n]
        decreases |results| - i
      {
        match results[i] {
          case Wrote(k) =>
            var m := Min(k, |p| - n);
            kernel := kernel + p[n..n + m];
            assert p[..n + m] == p[..n] + p[n..n + m];
            n := n + m;
          case Interrupted =>
          case WouldBlock => return n, false, i + 1;
          case Broken => return n, true, i + 1;
        }
        i := i + 1;
      }
    }

    /** Copy into the last buffer in use. */
    method AppendLast(src: seq<byte>)
      requires Shaped() && pending != [] && tmp == []
      requires pending[|pending| - 1].len + |src| <= SENDBUF_SIZE
      modifies this`pending, buffers
      ensures Shaped() && |pending| == |old(pending)| && Bufs(pending) == old(Bufs(pending))
      ensures pending[|pending| - 1].len == old(pending[|pending| - 1].len) + |src|
      ensures Queued() == old(Queued()) + src
    {
      hide Allocated;
      var n := |pending| - 1;
      var last := pending[n];
      Distinct(free, pending, buffers);
      ghost var init := pending[..n];
      BufsInit(pending);
      assert last.buf in Bufs(pending);
      ghost var before := Flat(init);
      ghost var bytes := last.buf[last.sent..last.len];
      Buffers.Fill(last.buf, last.len, src);
      assert last.buf[last.sent..last.len + |src|] == bytes + src;
      pending := pending[n := last.(len := last.len + |src|)];
      assert pending[..n] == init;
      assert Flat(init) == before;
      SameAllocation(free, old(pending), pending, buffers);
    }

    /** Take a buffer from the free list. */
    method TakeBuffer()
      requires Shaped() && free != [] && tmp == []
      requires pending == [] || pending[|pending| - 1].len == SENDBUF_SIZE
      modifies this`free, this`pending
      ensures Shaped() && |free| == |old(free)| - 1 && |pending| == |old(pending)| + 1
      ensures pending[|pending| - 1].len == 0
      ensures Queued() == old(Queued())
    {
      hide Allocated, Flat;
      var n := |free| - 1;
      var p := Pending(free[n], 0, 0);
      Taken(free, pending, buffers);
      FlatLast(pending, p);
      free, pending := free[..n], pending + [p];
    }

    /** Queue the bytes: the last buffer's room first, then free buffers. */
    method Enqueue(p: seq<byte>)
      requires Shaped() && tmp == [] && |p| <= Capacity()
      modifies this`free, this`pending, buffers
      ensures Shaped() && Queued() == old(Queued()) + p
    {
      hide Shaped, Queued;
      if pending != [] { LastFits(); }
      var rest := p;
      if pending != [] {
        var room := SENDBUF_SIZE - pending[|pending| - 1].len;
        if room > 0 {
          var k := Min(room, |rest|);
          AppendLast(rest[..k]);
          rest := rest[k..];
        }
      }
      while rest != []
        invariant Shaped() && buffers == old(buffers)
        invariant rest != [] ==> |rest| <= |free| * SENDBUF_SIZE
        invariant rest != [] ==> pending == [] || pending[|pending| - 1].len == SENDBUF_SIZE
        invariant Queued() + rest == old(Queued()) + p
        invariant tmp == [] && unchanged(`shutdown, `kernel, `accepted)
        decreases |rest|
      {
        Multiples(|free|);
        TakeBuffer();
        var k := Min(|rest|, SENDBUF_SIZE);
        assert rest == rest[..k] + rest[k..];
        AppendLast(rest[..k]);
        rest := rest[k..];
      }
    }

    /** Queue what the kernel did not take; too much for the free buffers goes to the overflow buffer. */
    method Keep(rest: seq<byte>)
      requires Shaped() && tmp == [] && CanSend(|rest|) && !shutdown
      modifies this`tmp, this`free, this`pending, buffers
      ensures Shaped() && Unsent() == old(Queued()) + rest
    {
      hide Allocated, Flat;
      if Capacity() < |rest| {
        NothingQueued();
        tmp := rest;
        NothingQueued();
        return;
      }
      Enqueue(rest);
    }

    /** `send`: one message.  `results` are the kernel's answers, in order. */
    method Send(p: seq<byte>, results: seq<Sys>) returns (r: Sent)
      requires Valid()
      modifies this, buffers
      ensures Shaped() && buffers == old(buffers) && shutdown == old(shutdown)
      ensures r.Blocked? <==> !old(CanSend(|p|))
      ensures r.Refused? <==> old(shutdown)
      ensures r.Blocked? || r.Refused? ==> Valid() && kernel == old(kernel) && accepted == old(accepted)
      ensures r.Accepted? ==> Valid() && accepted == old(accepted) + [p]
      ensures r.Failed? ==>
        accepted == old(accepted) && Unsent() == [] && exists k :: 0 <= k <= |p| && kernel == Concat(accepted) + p[..k]
    {
      hide Allocated, AllSane, Packed, Concat;
      if pending != [] { LastFits(); }
      if !CanSend(|p|) { return Blocked; }
      if shutdown { return Refused; }
      var rest := p;
      ConcatLast(accepted, p);
      assert Unsent() == Queued();
      if pending == [] {
        NothingQueued();
        assert kernel == Concat(accepted);
        var n, failed, _ := Push(p, results, 0);
        NothingQueued();
        if failed { return Failed; }
        rest := p[n..];
        assert kernel + rest == Concat(accepted + [p]);
        if rest == [] {
          accepted := accepted + [p];
          NothingQueued();
          assert kernel + Unsent() == Concat(accepted);
          return Accepted;
        }
      }
      assert kernel + Queued() + rest == Concat(accepted + [p]);
      Assoc(kernel, Queued(), rest);
      Keep(rest);
      assert kernel + Unsent() == Concat(accepted + [p]);
      Apart();
      accepted := accepted + [p];
      return Accepted;
    }

    /** The kernel takes bytes from several pieces; `ind` is the first piece with bytes left. */
    method PushV(pieces: seq<seq<byte>>, results: seq<Sys>) returns (v: seq<seq<byte>>, ind: nat, failed: bool)
      requires NoEmpty(pieces, 0)
      modifies this`kernel
      ensures ind <= |v| && NoEmpty(v, ind)
      ensures exists done :: kernel == old(kernel) + done && done + Concat(v[ind..]) == Concat(pieces)
    {
      hide Concat;
      v, ind, failed := pieces, 0, false;
      ghost var done: seq<byte> := [];
      assert v[0..] == pieces;
      var i := 0;
      while ind < |v| && i < |results|
        invariant ind <= |v| && i <= |results| && NoEmpty(v, ind)
        invariant kernel == old(kernel) + done && done + Concat(v[ind..]) == Concat(pieces)
        decreases |results| - i
      {
        match results[i] {
          case Wrote(k) =>
            var all := Concat(v[ind..]);
            var n := Min(k, |all|);
            kernel := kernel + all[..n];
            v, ind := Advance(v, ind, n);
            Assoc(done, all[..n], Concat(v[ind..]));
            Assoc(old(kernel), done, all[..n]);
            done := done + all[..n];
          case Interrupted =>
          case WouldBlock => return;
          case Broken => failed := true; return;
        }
        i := i + 1;
      }
    }

    /** `sendv`: one message in several pieces. */
    method Sendv(iov: seq<seq<byte>>, results: seq<Sys>) returns (r: Sent)
      requires Valid()
      modifies this, buffers
      ensures Shaped() && buffers == old(buffers) && shutdown == old(shutdown)
      ensures r.Blocked? <==> !old(CanSend(|Concat(iov)|))
      ensures r.Refused? <==> old(shutdown)
      ensures r.Blocked? || r.Refused? ==> Valid() && kernel == old(kernel) && accepted == old(accepted)
      ensures r.Accepted? ==> Valid() && accepted == old(accepted) + [Concat(iov)]
      ensures r.Failed? ==>
        accepted == old(accepted) && Unsent() == []
        && exists part :: part <= Concat(iov) && kernel == Concat(accepted) + part
    {
      hide Allocated, AllSane, Packed, Concat;
      if pending != [] { LastFits(); } else { NothingQueued(); }
      ghost var p := Concat(iov);
      assert forall b :: b in Bufs(pending) ==> allocated(b);
      assert iov[0..] == iov;
      var total := TotalLength(iov, 0);
      if !CanSend(total) { return Blocked; }
      if shutdown { return Refused; }
      ConcatLast(accepted, p);
      assert Unsent() == Queued();
      var v := NonEmpty(iov);
      var ind := 0;
      assert v[0..] == v;
      if pending == [] {
        NothingQueued();
        assert Unsent() == [];
        assert kernel == Concat(accepted);
        var failed;
        v, ind, failed := PushV(v, results);
        NothingQueued();
        ghost var done :| kernel == old(kernel) + done && done + Concat(v[ind..]) == p;
        if failed {
          assert done <= p;
          return Failed;
        }
        Assoc(old(kernel), done, Concat(v[ind..]));
        if ind == |v| {
          accepted := accepted + [p];
          assert v[ind..] == [];
          ConcatNothing<byte>();
          assert kernel + Unsent() == Concat(accepted);
          return Accepted;
        }
      }
      assert kernel + Queued() + Concat(v[ind..]) == Concat(accepted + [p]);
      Assoc(kernel, Queued(), Concat(v[ind..]));
      KeepV(v, ind);
      assert kernel + Unsent() == Concat(accepted + [p]);
      Apart();
      accepted := accepted + [p];
      return Accepted;
    }

    method KeepV(v: seq<seq<byte>>, ind: nat)
      requires ind <= |v| && NoEmpty(v, ind)
      requires Shaped() && tmp == [] && CanSend(|Concat(v[ind..])|) && !shutdown
      modifies this`tmp, this`free, this`pending, buffers
      ensures Shaped() && Unsent() == old(Queued()) + Concat(v[ind..])
    {
      hide Allocated, Flat, Concat;
      if pending == [] { NothingQueued(); }
      assert forall b :: b in Bufs(pending) ==> allocated(b);
      ghost var q := Queued();
      var total := TotalLength(v, ind);
      assert Queued() == q;
      if Capacity() < total {
        tmp := Concat(v[ind..]);
        NothingQueued();
        assert Unsent() == [] + Concat(v[ind..]);
        return;
      }
      EnqueueV(v, ind);
      assert Unsent() == Queued();
    }

    /** The inner loop: fill the last buffer from the pieces. */
    method FillLast(pieces: seq<seq<byte>>, start: nat) returns (v: seq<seq<byte>>, ind: nat)
      requires start < |pieces| && NoEmpty(pieces, start) && Shaped() && tmp == []
      requires pending != [] && pending[|pending| - 1].len < SENDBUF_SIZE
      modifies this`pending, buffers
      ensures Shaped() && pending != [] && ind <= |v| && NoEmpty(v, ind)
      ensures |Concat(v[ind..])| < |Concat(pieces[start..])|
      ensures Queued() + Concat(v[ind..]) == old(Queued()) + Concat(pieces[start..])
      ensures pending[|pending| - 1].len <= SENDBUF_SIZE
      ensures pending[|pending| - 1].len + |Concat(v[ind..])| ==
              old(pending[|pending| - 1].len) + |Concat(pieces[start..])|
    {
      hide Shaped, Queued, Concat;
      v, ind := pieces, start;
      ghost var target := Queued() + Concat(v[ind..]);
      ghost var size := pending[|pending| - 1].len + |Concat(v[ind..])|;
      var room := SENDBUF_SIZE - pending[|pending| - 1].len;
      while room > 0 && ind < |v|
        invariant Shaped() && pending != [] && tmp == [] && buffers == old(buffers)
        invariant ind <= |v| && NoEmpty(v, ind)
        invariant (v == pieces && ind == start) || pending[|pending| - 1].len > old(pending[|pending| - 1].len)
        invariant room >= 0 && room + pending[|pending| - 1].len == SENDBUF_SIZE
        invariant pending[|pending| - 1].len >= old(pending[|pending| - 1].len)
        invariant pending[|pending| - 1].len + |Concat(v[ind..])| == size
        invariant Queued() + Concat(v[ind..]) == target
      {
        var k := Min(room, |v[ind]|);
        assert v[ind] != [] && k > 0;
        CutPiece(v, ind, k);
        FirstPiece(v, ind);
        Assoc(Queued(), v[ind][..k], Concat(v[ind := v[ind][k..]][ind..]));
        AppendLast(v[ind][..k]);
        room := room - k;
        if k == |v[ind]| {
          SkipPiece(v, ind);
          ind := ind + 1;
        } else {
          v := v[ind := v[ind][k..]];
        }
      }
      assert pending[|pending| - 1].len > old(pending[|pending| - 1].len);
    }

    /** Copy the pieces, a buffer at a time. */
    method EnqueueV(pieces: seq<seq<byte>>, start: nat)
      requires start <= |pieces| && NoEmpty(pieces, start)
      requires Shaped() && tmp == [] && |Concat(pieces[start..])| <= Capacity()
      modifies this`free, this`pending, buffers
      ensures Shaped() && Queued() == old(Queued()) + Concat(pieces[start..])
    {
      hide Shaped, Queued, Concat;
      var v, ind: nat := pieces, start;
      ghost var target := Queued() + Concat(v[ind..]);
      if pending != [] { LastFits(); }
      while ind < |v|
        invariant ind <= |v| && NoEmpty(v, ind) && Shaped() && buffers == old(buffers) && tmp == []
        invariant pending != [] ==> pending[|pending| - 1].len <= SENDBUF_SIZE
        invariant |Concat(v[ind..])| <= Capacity()
        invariant Queued() + Concat(v[ind..]) == target
        decreases |Concat(v[ind..])|
      {
        FirstPiece(v, ind);
        if pending == [] || pending[|pending| - 1].len == SENDBUF_SIZE {
          Multiples(|free|);
          TakeBuffer();
        }
        v, ind := FillLast(v, ind);
      }
      FirstPiece(v, ind);
    }

    /** The first buffer in use is empty: back to the free list. */
    method FreeFirst()
      requires Shaped() && pending != []
      modifies this`free, this`pending
      ensures Shaped() && |pending| == |old(pending)| - 1
      ensures var p := old(pending)[0];
        p.sent <= p.len <= p.buf.Length && old(Queued()) == p.buf[p.sent..p.len] + Queued()
    {
      hide Allocated, Flat;
      assert Sane(pending[0]);
      Returned(free, pending, buffers);
      FlatFirst(pending);
      free, pending := free + [pending[0].buf], pending[1..];
    }

    /** Part of the first buffer in use went out. */
    method Note(n: nat)
      requires Shaped() && pending != [] && pending[0].sent + n <= pending[0].len
      modifies this`pending
      ensures Shaped() && pending != []
      ensures Sane(old(pending)[0]) && old(Queued()) == FirstUnsent(old(pending))[..n] + Queued()
    {
      hide Allocated, Flat;
      assert Sane(pending[0]);
      var p := pending[0];
      ghost var before := pending;
      ghost var bytes := FirstUnsent(pending);
      FlatFirst(pending);
      ghost var rest := Flat(before[1..]);
      assert forall b :: b in Bufs(before[1..]) ==> (b as object) != (this as object);
      pending := pending[0 := p.(sent := p.sent + n)];
      assert pending[1..] == before[1..];
      assert Flat(pending[1..]) == rest;
      FlatFirst(pending);
      SameAllocation(free, before, pending, buffers);
      assert bytes[n..] == FirstUnsent(pending);
      assert bytes == bytes[..n] + bytes[n..];
      Assoc(bytes[..n], bytes[n..], Flat(pending[1..]));
    }

    /** First part of `write_pending_data`: the overflow buffer. */
    method WriteOverflow(results: seq<Sys>) returns (failed: bool, i: nat)
      requires Valid()
      modifies this`kernel, this`tmp
      ensures Valid() && i <= |results|
    {
      hide Allocated, AllSane, Packed, Concat, Flat;
      Apart();
      ghost var q, t := Queued(), tmp;
      var n: nat;
      n, failed, i := Push(tmp, results, 0);
      tmp := tmp[n..];
      assert Queued() == q;
      assert t == t[..n] + tmp;
      Assoc(old(kernel), t[..n], tmp + q);
      Assoc(t[..n], tmp, q);
    }

    /**
      `write_pending_data`.  An error leaves the bytes of the buffer at hand unrecorded; the
      socket is invalidated then.
    */
    method WritePending(results: seq<Sys>) returns (r: Written)
      requires Valid()
      modifies this
      ensures Shaped() && buffers == old(buffers) && accepted == old(accepted) && shutdown == old(shutdown)
      ensures !r.Errored? ==> Valid()
      ensures r.Drained? ==> kernel == Concat(accepted) && r.close == shutdown
      ensures r.Errored? ==> kernel <= Concat(accepted)
    {
      hide Allocated, AllSane, Packed, Concat, Flat;
      ghost var all := Concat(accepted);
      var failed: bool, i: nat := WriteOverflow(results);
      TakeFirst(kernel, Unsent());
      if failed { return Errored; }
      if tmp != [] { return Waiting; }
      assert Unsent() == Queued();
      while pending != []
        invariant Shaped() && tmp == [] && i <= |results|
        invariant buffers == old(buffers) && accepted == old(accepted) && shutdown == old(shutdown)
        invariant kernel + Queued() == all
        decreases |pending|
      {
        var done;
        done, failed, i := WriteFirst(results, i);
        if failed { return Errored; }
        if !done {
          assert Unsent() == Queued();
          return Waiting;
        }
      }
      NothingQueued();
      assert Unsent() == Queued() == [];
      return Drained(shutdown);
    }

    /** One turn of its second loop: the first buffer in use. */
    method WriteFirst(results: seq<Sys>, start: nat) returns (done: bool, failed: bool, i: nat)
      requires Shaped() && pending != [] && start <= |results|
      modifies this`kernel, this`free, this`pending
      ensures Shaped() && i <= |results|
      ensures failed ==> kernel <= old(kernel + Queued())
      ensures !failed ==> kernel + Queued() == old(kernel + Queued())
      ensures !failed && done ==> |pending| == |old(pending)| - 1
    {
      hide Allocated, AllSane, Packed, Flat;
      FirstSane();
      FirstQueued();
      var p := pending[0];
      ghost var bytes, rest := FirstUnsent(pending), Flat(pending[1..]);
      ghost var q := Queued();
      var n: nat;
      Apart();
      n, failed, i := Push(p.buf[p.sent..p.len], results, start);
      assert Queued() == q;
      assert bytes == bytes[..n] + bytes[n..];
      Assoc(old(kernel), bytes[..n], bytes[n..] + rest);
      Assoc(bytes[..n], bytes[n..], rest);
      done := n == p.len - p.sent;
      if failed {
        TakeFirst(kernel, bytes[n..] + rest);
        return;
      }
      if done {
        FreeFirst();
        assert bytes[..n] == bytes;
        Assoc(old(kernel), bytes, Queued());
      } else {
        Note(n);
        Assoc(old(kernel), bytes[..n], Queued());
      }
    }

    lemma FirstSane()
      requires Shaped() && pending != []
      ensures Sane(pending[0])
    {}

    lemma FirstQueued()
      requires Shaped() && pending != []
      ensures AllSane(pending[1..]) && Queued() == FirstUnsent(pending) + Flat(pending[1..])
    {
      FlatFirst(pending);
    }

    /** `free_buffers`, when the socket is invalidated: nothing is accepted after it. */
    method FreeBuffers()
      requires Shaped()
      modifies this
      ensures Shaped() && shutdown && Unsent() == [] && buffers == {}
      ensures kernel == old(kernel) && accepted == old(accepted)
    {
      pending, free, tmp, shutdown, buffers := [], [], [], true, {};
    }

    /** `send_close`: false closes the socket at once. */
    method SendClose(p: seq<byte>, results: seq<Sys>) returns (r: Sent, stay: bool)
      requires Valid()
      modifies this, buffers
      ensures Shaped() && buffers == old(buffers)
      ensures !r.Failed? ==> Valid()
      ensures r.Blocked? <==> !old(CanSend(|p|))
      ensures r.Refused? <==> old(shutdown)
      ensures stay ==> r.Blocked? || r.Accepted?
      ensures r.Failed? ==> exists k :: 0 <= k <= |p| && kernel == Concat(accepted) + p[..k]
      ensures r.Accepted? ==> accepted == old(accepted) + [p] && shutdown
      ensures r.Accepted? && !stay ==> kernel == Concat(accepted)
      ensures !r.Accepted? ==> accepted == old(accepted) && shutdown == old(shutdown)
    {
      hide Allocated, AllSane, Packed, Concat;
      r := Send(p, results);
      stay := r.Blocked?;
      if !r.Accepted? { return; }
      Apart();
      shutdown := true;
      stay := pending != [] || tmp != [];
      if !stay { NothingQueued(); }
    }

    /** `sendv_close`, likewise. */
    method SendvClose(iov: seq<seq<byte>>, results: seq<Sys>) returns (r: Sent, stay: bool)
      requires Valid()
      modifies this, buffers
      ensures Shaped() && buffers == old(buffers)
      ensures !r.Failed? ==> Valid()
      ensures r.Blocked? <==> !old(CanSend(|Concat(iov)|))
      ensures r.Refused? <==> old(shutdown)
      ensures stay ==> r.Blocked? || r.Accepted?
      ensures r.Failed? ==> exists part :: part <= Concat(iov) && kernel == Concat(accepted) + part
      ensures r.Accepted? ==> accepted == old(accepted) + [Concat(iov)] && shutdown
      ensures r.Accepted? && !stay ==> kernel == Concat(accepted)
      ensures !r.Accepted? ==> accepted == old(accepted) && shutdown == old(shutdown)
    {
      hide Allocated, AllSane, Packed, Concat;
      r := Sendv(iov, results);
      stay := r.Blocked?;
      if !r.Accepted? { return; }
      Apart();
      shutdown := true;
      stay := pending != [] || tmp != [];
      if !stay { NothingQueued(); }
    }
  }

  // ---------------------------------------------------------------- whole sessions

  /** One critical section of some thread, with the kernel's answers to it. */
  datatype Call =
    | DoSend(p: seq<byte>, results: seq<Sys>)
    | DoSendv(iov: seq<seq<byte>>, results: seq<Sys>)
    | DoSendClose(p: seq<byte>, results: seq<Sys>)
    | DoSendvClose(iov: seq<seq<byte>>, results: seq<Sys>)
    | DoWrite(results: seq<Sys>)

  function MessageOf(c: Call): seq<byte> {
    match c
    case DoSend(p, _) => p
    case DoSendv(iov, _) => Concat(iov)
    case DoSendClose(p, _) => p
    case DoSendvClose(iov, _) => Concat(iov)
    case DoWrite(_) => []
  }

  predicate Closes(c: Call) { c.DoSendClose? || c.DoSendvClose? }

  /** The messages of the calls that were accepted, in order. */
  function Messages(calls: seq<Call>, oks: seq<bool>): seq<seq<byte>>
    requires |oks| <= |calls|
  {
    if oks == [] then []
    else
      var n := |oks| - 1;
      Messages(calls, oks[..n]) + if oks[n] then [MessageOf(calls[n])] else []
  }

  /** `valid` until a call fails or closes; then its thread invalidates the socket. */
  method OneCall(q: SendQueue, c: Call) returns (ok: bool, valid: bool)
    requires q.Valid()
    modifies q, q.buffers
    ensures q.Shaped() && (ok ==> !old(q.shutdown) && !c.DoWrite?)
    ensures valid ==> q.Valid() && q.buffers == old(q.buffers)
    ensures old(q.shutdown) || (ok && Closes(c)) ==> q.shutdown
    ensures q.accepted == old(q.accepted) + if ok then [MessageOf(c)] else []
    ensures q.kernel <= Concat(q.accepted) + MessageOf(c)
  {
    hide SendQueue.Shaped, SendQueue.Queued, Concat;
    ok, valid := false, true;
    match c {
      case DoSend(p, results) =>
        var r := q.Send(p, results);
        ok, valid := r.Accepted?, r.Accepted? || r.Blocked?;
      case DoSendv(iov, results) =>
        var r := q.Sendv(iov, results);
        ok, valid := r.Accepted?, r.Accepted? || r.Blocked?;
      case DoSendClose(p, results) =>
        var r, stay := q.SendClose(p, results);
        ok, valid := r.Accepted?, stay;
      case DoSendvClose(iov, results) =>
        var r, stay := q.SendvClose(iov, results);
        ok, valid := r.Accepted?, stay;
      case DoWrite(results) =>
        var r := q.WritePending(results);
        valid := !r.Errored? && !(r.Drained? && r.close);
    }
    if q.kernel + q.Unsent() == Concat(q.accepted) {
      TakeFirst(q.kernel, q.Unsent());
    }
    if q.kernel <= Concat(q.accepted) {
      PrefixTrans(q.kernel, Concat(q.accepted), MessageOf(c));
    }
  }

  /**
    Stream fidelity over any session up to its first failed call: the accepted messages are those of
    the accepted calls in order, the kernel was given a prefix of them, whole up to the unsent bytes
    while no call failed, and once a call shut the stream down nothing more is accepted.
  */
  method Session(q: SendQueue, calls: seq<Call>) returns (oks: seq<bool>, valid: bool)
    requires q.Valid()
    modifies q, q.buffers
    ensures |oks| <= |calls| && q.accepted == old(q.accepted) + Messages(calls, oks)
    ensures valid ==> |oks| == |calls| && q.Valid() && q.buffers == old(q.buffers)
    ensures !valid ==> oks != [] && q.shutdown && q.kernel <= Concat(q.accepted) + MessageOf(calls[|oks| - 1])
    ensures forall i, j :: 0 <= i < j < |oks| && Closes(calls[i]) && oks[i] ==> !oks[j]
  {
    hide SendQueue.Valid, SendQueue.Shaped, Concat;
    oks, valid := [], true;
    var i := 0;
    assert q.accepted == old(q.accepted) + Messages(calls, oks);
    while i < |calls|
      invariant i == |oks| <= |calls| && q.Valid() && q.buffers == old(q.buffers)
      invariant q.accepted == old(q.accepted) + Messages(calls, oks)
      invariant forall i, j :: 0 <= i < j < |oks| && Closes(calls[i]) && oks[i] ==> !oks[j]
      invariant forall i :: 0 <= i < |oks| && Closes(calls[i]) && oks[i] ==> q.shutdown
    {
      var ok;
      ok, valid := OneCall(q, calls[i]);
      assert (oks + [ok])[..i] == oks;
      oks := oks + [ok];
      if !valid {
        q.FreeBuffers();
        return;
      }
      i := i + 1;
    }
  }

  lemma SkipPiece(v: seq<seq<byte>>, ind: nat)
    requires ind < |v|
    ensures Concat(v[ind := v[ind][|v[ind]|..]][ind..]) == Concat(v[ind + 1..])
  {
    var w := v[ind := v[ind][|v[ind]|..]];
    FirstPiece(w, ind);
    assert w[ind + 1..] == v[ind + 1..];
  }

  lemma SameBufs(ps: seq<Pending>, qs: seq<Pending>)
    requires |ps| == |qs| && forall i :: 0 <= i < |ps| ==> ps[i].buf == qs[i].buf
    ensures Bufs(ps) == Bufs(qs)
  {
    forall i | 0 <= i < |ps|
      ensures ps[i].buf in Bufs(qs) && qs[i].buf in Bufs(ps)
    {
      assert ps[i] in ps && qs[i] in qs;
    }
  }
}
