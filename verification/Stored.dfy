/** The two-tier object: small data on the heap, larger data in a temporary file, one byte string. */
module Stored {
  import opened Seqs
  import opened Numeric
  import opened Objects
  import opened Buffers

  class StoredObject {
    const heapLimit: nat
    var length: nat
    const data: Dynbuf
    var file: Tempfile?
    var flags: nat
    var exptime: int
    var cas: nat
    var age: nat
    var lock: int

    ghost function Repr(): set<object>
      reads this, data
    {
      if file == null then {this, data, data.p} else {this, data, data.p, file as object}
    }

    ghost function Bytes(): seq<byte>
      requires data.Valid()
      reads this, data, Repr()
    {
      if file == null then data.Contents() else file.contents
    }

    /** The file exists exactly when the data exceed the limit, and then the heap buffer is empty. */
    ghost predicate Valid()
      reads this, Repr()
    {
      && heapLimit >= 20 && data.Valid() && (file != null ==> file.Valid() && data.used == 0)
      && (file != null <==> length > heapLimit)
      && length == |Bytes()|
    }

    /** The plain object this one stands for. */
    ghost function Value(): Obj
      requires data.Valid()
      reads this, data, Repr()
    {
      Obj(Bytes(), flags, exptime, cas, age, lock)
    }

    constructor (heapLimit: nat, p: seq<byte>, flags: nat, exptime: int, counts: nat -> nat)
      requires heapLimit >= 20
      ensures Valid() && fresh(Repr()) && this.heapLimit == heapLimit
      ensures Value() == NewObj(p, flags, exptime)
    {
      this.heapLimit, length, file, this.flags, this.exptime := heapLimit, |p|, null, flags, exptime;
      cas, age, lock := 1, 0, UNLOCKED;
      data := new Dynbuf(0);
      new;
      if |p| > heapLimit {
        var f := new Tempfile();
        f.Write(p, counts);
        file := f;
      } else {
        data.Append(p);
      }
    }

    constructor Number(heapLimit: nat, initial: nat, exptime: int)
      requires heapLimit >= 20 && initial < TWO64
      ensures Valid() && fresh(Repr()) && this.heapLimit == heapLimit
      ensures Value() == NewNumber(initial, exptime)
    {
      PrintFits(initial);
      var text := Print(initial);
      this.heapLimit, length, file, flags, this.exptime := heapLimit, |text|, null, 0, exptime;
      cas, age, lock := 1, 0, UNLOCKED;
      data := new Dynbuf(24);
      new;
      data.Append(text);
    }

    method Set(p: seq<byte>, flags: nat, exptime: int, counts: nat -> nat)
      requires Valid()
      modifies Repr()
      ensures Valid() && fresh(Repr() - old(Repr()))
      ensures Value() == SetObj(old(Value()), p, flags, exptime)
    {
      this.flags, this.exptime, cas, age := flags, exptime, (cas + 1) % TWO64, 0;
      data.Reset();
      if |p| > heapLimit {
        if file == null {
          file := new Tempfile();
        } else {
          file.Clear();
        }
        file.Write(p, counts);
        assert file.contents == p;
      } else {
        file := null;
        data.Append(p);
      }
      length := |p|;
    }

    /** The data outgrow the heap: `front` and `back` go to a new file. */
    method Spill(front: seq<byte>, back: seq<byte>, counts: nat -> nat)
      requires Valid() && file == null && |front| + |back| > heapLimit
      modifies Repr()
      ensures Valid() && fresh(Repr() - old(Repr()))
      ensures Value() == old(Value()).(data := front + back)
    {
      var f := new Tempfile();
      f.Write(front, counts);
      f.Write(back, counts);
      data.Reset();
      file, length := f, |front| + |back|;
    }

    method Append(p: seq<byte>, counts: nat -> nat)
      requires Valid()
      modifies Repr()
      ensures Valid() && fresh(Repr() - old(Repr()))
      ensures Value() == AppendObj(old(Value()), p)
    {
      cas, age := (cas + 1) % TWO64, 0;
      if p == [] {
        assert Bytes() == old(Bytes()) + p;
        return;
      }
      var newSize := length + |p|;
      if newSize > heapLimit {
        if file == null {
          Spill(data.p[..length], p, counts);
        } else {
          file.Write(p, counts);
        }
      } else {
        data.Append(p);
      }
      length := newSize;
    }

    method Prepend(p: seq<byte>, counts: nat -> nat)
      requires Valid()
      modifies Repr()
      ensures Valid() && fresh(Repr() - old(Repr()))
      ensures Value() == PrependObj(old(Value()), p)
    {
      cas, age := (cas + 1) % TWO64, 0;
      if p == [] {
        assert Bytes() == p + old(Bytes());
        return;
      }
      if length + |p| > heapLimit {
        if file == null {
          Spill(p, data.p[..length], counts);
        } else {
          RewriteFile(p, counts);
        }
      } else {
        PrependOnHeap(p);
      }
    }

    /** A file is read back, cleared and written again behind the new bytes. */
    method RewriteFile(p: seq<byte>, counts: nat -> nat)
      requires Valid() && file != null
      modifies this, file
      ensures Valid() && Repr() == old(Repr()) && Value() == old(Value()).(data := p + old(Bytes()))
    {
      var newSize := length + |p|;
      var buf := new Dynbuf(newSize);
      buf.Append(p);
      ghost var bytes := p + file.contents;
      file.ReadContents(buf, counts);
      assert buf.Contents() == bytes;
      file.Clear();
      file.Write(buf.p[..newSize], counts);
      length := newSize;
      assert Bytes() == bytes;
    }

    method PrependOnHeap(p: seq<byte>)
      requires Valid() && file == null && length + |p| <= heapLimit
      modifies this, data
      ensures Valid() && fresh(Repr() - old(Repr())) && Value() == old(Value()).(data := p + old(Bytes()))
    {
      var newSize := length + |p|;
      var buf := new Dynbuf(newSize);
      buf.Append(p);
      buf.Append(data.p[..length]);
      ghost var bytes := p + old(Bytes());
      assert buf.Contents() == bytes && buf != data && fresh(buf.p);
      Swap(data, buf);
      length := newSize;
      assert Bytes() == bytes;
    }

    /** The number, or None for `not_a_number`. */
    method ReadNumber() returns (v: Option<nat>)
      requires Valid()
      ensures v == NumberOf(Value(), heapLimit)
    {
      if file != null { return None; }
      return Stoull(data.p[..length]);
    }

    method WriteNumber(v: nat)
      requires Valid() && file == null && v < TWO64
      modifies Repr()
      ensures Valid() && fresh(Repr() - old(Repr()))
      ensures Value() == WithNumber(old(Value()), v) && Stoull(Value().data) == Some(v)
    {
      hide Stoull;
      PrintFits(v);
      ParseOfPrint(v);
      var text := Print(v);
      length := |text|;
      data.Reset();
      data.Append(text);
      cas, age := (cas + 1) % TWO64, 0;
    }

    method Incr(n: nat) returns (r: Option<nat>)
      requires Valid()
      modifies Repr()
      ensures Valid() && fresh(Repr() - old(Repr()))
      ensures match NumberOf(old(Value()), heapLimit)
        case None => r.None? && Value() == old(Value())
        case Some(v) => r == Some((v + n) % TWO64) && Value() == WithNumber(old(Value()), r.value)
      ensures r.Some? ==> Stoull(Value().data) == r
    {
      hide Stoull, Print;
      var v := ReadNumber();
      if v.None? { return None; }
      WriteNumber(Increased(v.value, n));
      return Some(Increased(v.value, n));
    }

    method Decr(n: nat) returns (r: Option<nat>)
      requires Valid()
      modifies Repr()
      ensures Valid() && fresh(Repr() - old(Repr()))
      ensures match NumberOf(old(Value()), heapLimit)
        case None => r.None? && Value() == old(Value())
        case Some(v) =>
          && r.Some? && Value() == WithNumber(old(Value()), r.value)
          && (r.value + n == v || (r.value == 0 && v < n))
      ensures r.Some? ==> Stoull(Value().data) == r
    {
      hide Stoull, Print;
      var v := ReadNumber();
      if v.None? { return None; }
      StoullFits(data.p[..length]);
      WriteNumber(Decreased(v.value, n));
      return Some(Decreased(v.value, n));
    }

    method Touch(exptime: int)
      requires Valid()
      modifies this
      ensures Valid() && Repr() == old(Repr()) && Value() == TouchObj(old(Value()), exptime)
    {
      this.exptime, age := exptime, 0;
    }

    /** `data`: the bytes, from wherever they are; an access for the GC. */
    method Data(counts: nat -> nat) returns (bytes: seq<byte>)
      requires Valid()
      modifies this
      ensures Valid() && Repr() == old(Repr()) && Value() == old(Value()).(age := 0) && bytes == Value().data
    {
      age := 0;
      if file == null { return data.p[..data.used]; }
      var buf := new Dynbuf(0);
      file.ReadContents(buf, counts);
      return buf.p[..buf.used];
    }
  }

  lemma StoullFits(s: seq<byte>)
    ensures Stoull(s).Some? ==> Stoull(s).value < TWO64
  {}

  // ---------------------------------------------------------------- runs

  datatype Change =
    | DoSet(p: seq<byte>, flags: nat, exptime: int)
    | DoAppend(p: seq<byte>)
    | DoPrepend(p: seq<byte>)
    | DoIncr(n: nat)
    | DoDecr(n: nat)
    | DoTouch(exptime: int)

  /** What a change means for the plain object; not_a_number changes nothing. */
  function Changed(o: Obj, c: Change, heapLimit: nat): Obj {
    var v := NumberOf(o, heapLimit);
    match c
    case DoSet(p, flags, exptime) => SetObj(o, p, flags, exptime)
    case DoAppend(p) => AppendObj(o, p)
    case DoPrepend(p) => PrependObj(o, p)
    case DoIncr(n) => if v.Some? then WithNumber(o, Increased(v.value, n)) else o
    case DoDecr(n) => if v.Some? then WithNumber(o, Decreased(v.value, n)) else o
    case DoTouch(exptime) => TouchObj(o, exptime)
  }

  function Plain(o: Obj, cs: seq<Change>, heapLimit: nat): Obj {
    if cs == [] then o else Changed(Plain(o, cs[..|cs| - 1], heapLimit), cs[|cs| - 1], heapLimit)
  }

  /** The changes that count in `cas`: all but touch and the arithmetic on something else than a number. */
  function Counted(o: Obj, cs: seq<Change>, heapLimit: nat): nat {
    if cs == [] then 0
    else
      var n := |cs| - 1;
      var before := Plain(o, cs[..n], heapLimit);
      Counted(o, cs[..n], heapLimit)
      + if Counts(before, cs[n], heapLimit) then 1 else 0
  }

  predicate Counts(o: Obj, c: Change, heapLimit: nat) {
    !c.DoTouch? && (c.DoIncr? || c.DoDecr? ==> NumberOf(o, heapLimit).Some?)
  }

  lemma ChangedCas(o: Obj, c: Change, heapLimit: nat)
    ensures Changed(o, c, heapLimit).cas == if Counts(o, c, heapLimit) then NextCas(o.cas) else o.cas
  {}

  lemma CasNext(x: nat)
    ensures NextCas(x % TWO64) == (x + 1) % TWO64
  {}

  lemma {:induction false} CasCounts(o: Obj, cs: seq<Change>, heapLimit: nat)
    requires o.cas < TWO64
    ensures Plain(o, cs, heapLimit).cas == (o.cas + Counted(o, cs, heapLimit)) % TWO64
    decreases |cs|
  {
    hide Changed, NextCas, Counts;
    if cs != [] {
      var n := |cs| - 1;
      CasCounts(o, cs[..n], heapLimit);
      ChangedCas(Plain(o, cs[..n], heapLimit), cs[n], heapLimit);
      CasNext(o.cas + Counted(o, cs[..n], heapLimit));
    }
  }

  method Play(o: StoredObject, c: Change, counts: nat -> nat)
    requires o.Valid()
    modifies o.Repr()
    ensures o.Valid() && fresh(o.Repr() - old(o.Repr()))
    ensures o.Value() == Changed(old(o.Value()), c, o.heapLimit)
  {
    hide StoredObject.Valid, StoredObject.Bytes, Stoull, Print;
    match c {
      case DoSet(p, flags, exptime) => o.Set(p, flags, exptime, counts);
      case DoAppend(p) => o.Append(p, counts);
      case DoPrepend(p) => o.Prepend(p, counts);
      case DoIncr(n) => var _ := o.Incr(n);
      case DoDecr(n) => var _ := o.Decr(n);
      case DoTouch(exptime) => o.Touch(exptime);
    }
  }

  /**
    Any run of changes leaves the plain object's value, kept in a file exactly when it is longer
    than the limit.
  */
  method PlayAll(o: StoredObject, cs: seq<Change>, counts: nat -> nat)
    requires o.Valid()
    modifies o.Repr()
    ensures o.Valid() && o.Value() == Plain(old(o.Value()), cs, o.heapLimit)
    ensures o.length == |o.Value().data| && (o.file != null <==> o.length > o.heapLimit)
  {
    var i := 0;
    assert cs[..0] == [];
    while i < |cs|
      invariant 0 <= i <= |cs| && o.Valid() && fresh(o.Repr() - old(o.Repr()))
      invariant o.Value() == Plain(old(o.Value()), cs[..i], o.heapLimit)
    {
      hide Changed, StoredObject.Valid, StoredObject.Bytes;
      assert cs[..i + 1][..i] == cs[..i];
      Play(o, cs[i], counts);
      i := i + 1;
    }
    assert cs[..i] == cs;
  }
}
