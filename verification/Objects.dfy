/** Cached objects as plain values: what the commands mean for one object. */
module Objects {
  import opened Seqs
  import opened Numeric

  const TWO32: nat := 0x1_0000_0000
  const UNLOCKED: int := -1

  /** `lock` is the context of the owning connection, `age` the number of GC runs since the last access. */
  datatype Obj = Obj(data: seq<byte>, flags: nat, exptime: int, cas: nat, age: nat, lock: int)

  function NextCas(cas: nat): nat { (cas + 1) % TWO64 }

  function NewObj(data: seq<byte>, flags: nat, exptime: int): Obj {
    Obj(data, flags, exptime, 1, 0, UNLOCKED)
  }

  function NewNumber(initial: nat, exptime: int): Obj {
    NewObj(Print(initial), 0, exptime)
  }

  function SetObj(o: Obj, data: seq<byte>, flags: nat, exptime: int): Obj {
    o.(data := data, flags := flags, exptime := exptime, cas := NextCas(o.cas), age := 0)
  }

  function AppendObj(o: Obj, data: seq<byte>): Obj {
    o.(data := o.data + data, cas := NextCas(o.cas), age := 0)
  }

  function PrependObj(o: Obj, data: seq<byte>): Obj {
    o.(data := data + o.data, cas := NextCas(o.cas), age := 0)
  }

  function TouchObj(o: Obj, exptime: int): Obj {
    o.(exptime := exptime, age := 0)
  }

  function Increased(v: nat, n: nat): nat { (v + n) % TWO64 }

  function Decreased(v: nat, n: nat): nat { if v < n then 0 else v - n }

  /** The number an object holds; data kept in a file is never a number. */
  function NumberOf(o: Obj, heapLimit: nat): Option<nat> {
    if |o.data| > heapLimit then None else Stoull(o.data)
  }

  function WithNumber(o: Obj, v: nat): Obj {
    o.(data := Print(v), cas := NextCas(o.cas), age := 0)
  }

  predicate Locked(o: Obj) { o.lock != UNLOCKED }

  predicate Expired(o: Obj, now: int, flushTime: int) {
    !Locked(o) && ((flushTime != 0 && flushTime <= now) || (o.exptime != 0 && o.exptime <= now))
  }

  // ---------------------------------------------------------------- numeric objects

  datatype Arith = Incr(n: nat) | Decr(n: nat)

  function Folded(v: nat, ops: seq<Arith>): (r: nat)
    requires v < TWO64
    ensures r < TWO64
    decreases |ops|
  {
    if ops == [] then v
    else
      match ops[0]
      case Incr(n) => Folded(Increased(v, n), ops[1..])
      case Decr(n) => Folded(Decreased(v, n), ops[1..])
  }

  /** A run of incr and decr on an object; None once one of them raises not_a_number. */
  function Arithmetic(o: Obj, ops: seq<Arith>, heapLimit: nat): Option<Obj>
    decreases |ops|
  {
    if ops == [] then Some(o)
    else
      match NumberOf(o, heapLimit)
      case None => None
      case Some(v) =>
        match ops[0]
        case Incr(n) => Arithmetic(WithNumber(o, Increased(v, n)), ops[1..], heapLimit)
        case Decr(n) => Arithmetic(WithNumber(o, Decreased(v, n)), ops[1..], heapLimit)
  }

  lemma CasAdds(cas: nat, n: nat)
    ensures (NextCas(cas) + n) % TWO64 == (cas + 1 + n) % TWO64
  {}

  /**
    An object that starts as a number stays one: any run of incr and decr succeeds and leaves
    the decimal text of the folded value, in 20 bytes at most, and counts in `cas`.
  */
  lemma {:induction false} NumbersStayNumbers(o: Obj, v: nat, ops: seq<Arith>, heapLimit: nat)
    requires v < TWO64 && o.data == Print(v) && heapLimit >= 20
    ensures Arithmetic(o, ops, heapLimit).Some?
    ensures var r := Arithmetic(o, ops, heapLimit).value;
      && r.data == Print(Folded(v, ops)) && 1 <= |r.data| <= 20
      && r.flags == o.flags && r.exptime == o.exptime && r.lock == o.lock
      && (o.cas < TWO64 ==> r.cas == (o.cas + |ops|) % TWO64)
    decreases |ops|
  {
    hide Print, Stoull;
    PrintFits(v);
    ParseOfPrint(v);
    if ops != [] {
      var v' := match ops[0] case Incr(n) => Increased(v, n) case Decr(n) => Decreased(v, n);
      NumbersStayNumbers(WithNumber(o, v'), v', ops[1..], heapLimit);
      CasAdds(o.cas, |ops| - 1);
    }
  }

  // ---------------------------------------------------------------- closed forms

  function Sum(ns: seq<nat>): nat {
    if ns == [] then 0 else ns[0] + Sum(ns[1..])
  }

  function Increments(ns: seq<nat>): (ops: seq<Arith>)
    ensures |ops| == |ns| && forall i :: 0 <= i < |ns| ==> ops[i] == Incr(ns[i])
  {
    seq(|ns|, i requires 0 <= i < |ns| => Incr(ns[i]))
  }

  function Decrements(ns: seq<nat>): (ops: seq<Arith>)
    ensures |ops| == |ns| && forall i :: 0 <= i < |ns| ==> ops[i] == Decr(ns[i])
  {
    seq(|ns|, i requires 0 <= i < |ns| => Decr(ns[i]))
  }

  /** Adding keeps the whole sum, but for multiples of 2^64; subtracting keeps it, or stops at 0. */
  lemma OneStep(v: nat, n: nat)
    requires v < TWO64
    ensures var w := Increased(v, n); w < TWO64 && v + n == w + (v + n) / TWO64 * TWO64
    ensures var w := Decreased(v, n); w < TWO64 && (w + n == v || (w == 0 && v < n))
  {}

  lemma {:induction false} FoldedSum(v: nat, ns: seq<nat>)
    requires v < TWO64
    ensures Folded(v, Increments(ns)) == (v + Sum(ns)) % TWO64
    ensures Folded(v, Decrements(ns)) == if Sum(ns) <= v then v - Sum(ns) else 0
    decreases |ns|
  {
    if ns != [] {
      assert Increments(ns)[1..] == Increments(ns[1..]);
      assert Decrements(ns)[1..] == Decrements(ns[1..]);
      OneStep(v, ns[0]);
      FoldedSum(Increased(v, ns[0]), ns[1..]);
      FoldedSum(Decreased(v, ns[0]), ns[1..]);
      ModSum(v + ns[0], Sum(ns[1..]));
    }
  }

  lemma ModSum(a: nat, b: nat)
    ensures (a % TWO64 + b) % TWO64 == (a + b) % TWO64
  {}

  /** A run of increments adds their sum modulo 2^64; a run of decrements subtracts theirs down to 0. */
  lemma RunsAddUp(o: Obj, v: nat, ns: seq<nat>, heapLimit: nat)
    requires v < TWO64 && o.data == Print(v) && heapLimit >= 20
    ensures var up := Arithmetic(o, Increments(ns), heapLimit);
      up.Some? && Stoull(up.value.data) == Some((v + Sum(ns)) % TWO64)
    ensures var down := Arithmetic(o, Decrements(ns), heapLimit);
      down.Some? && Stoull(down.value.data) == Some(if Sum(ns) <= v then v - Sum(ns) else 0)
  {
    hide Print, Stoull;
    NumbersStayNumbers(o, v, Increments(ns), heapLimit);
    NumbersStayNumbers(o, v, Decrements(ns), heapLimit);
    FoldedSum(v, ns);
    ParseOfPrint((v + Sum(ns)) % TWO64);
    ParseOfPrint(if Sum(ns) <= v then v - Sum(ns) else 0);
  }
}
