/**
  The single-key commands of both protocols (`cmd_bin` and `cmd_text`), as what the handler does
  to the hash entry under the bucket lock: new entry, response status, replication message and
  change of the connection's lock list.
*/
module Commands {
  import opened Seqs
  import opened Numeric
  import opened Objects

  const MAX_KEY_LENGTH: nat := 250

  type Key = seq<byte>

  datatype Mode = Set | Add | Replace

  datatype Initial = Initial(value: nat, exptime: int)

  /**
    `touch` is None for the binary EXPTIME_NONE; a zero `cas` asks for no comparison except in
    the text command `cas`.
  */
  datatype Cmd =
    | Get(touch: Option<int>, lock: bool)
    | Store(mode: Mode, text: bool, data: seq<byte>, flags: nat, exptime: int, cas: nat)
    | CompareAndSwap(data: seq<byte>, flags: nat, exptime: int, cas: nat)
    | ReplaceAndUnlock(data: seq<byte>, flags: nat, exptime: int, cas: nat)
    | Append(data: seq<byte>, cas: nat)
    | Prepend(data: seq<byte>, cas: nat)
    | Delete(cas: nat)
    | Increment(amount: nat, cas: nat, initial: Option<Initial>)
    | Decrement(amount: nat, cas: nat, initial: Option<Initial>)
    | Touch(exptime: int)
    | Lock
    | Unlock(text: bool)

  datatype Status = OK | NotFound | Exists | TooLarge | Invalid | NotStored | NonNumeric | IsLocked | NotLocked

  datatype Repl = ReplSet | ReplTouch | ReplDelete

  datatype LockOp = NoChange | AddLock | RemoveLock

  datatype Outcome = Outcome(entry: Option<Obj>, status: Status, repl: Option<Repl>, lockOp: LockOp)

  /** The thread's context, the clock, the pending flush and the configured limits. */
  datatype Env = Env(ctx: int, now: int, flushTime: int, maxData: nat, heapLimit: nat)

  predicate BySelf(o: Obj, env: Env) { o.lock == env.ctx }

  predicate ByOther(o: Obj, env: Env) { Locked(o) && !BySelf(o, env) }

  function Fail(entry: Option<Obj>, status: Status): Outcome {
    Outcome(entry, status, None, NoChange)
  }

  function Stored(o: Obj): Outcome {
    Outcome(Some(o), OK, Some(ReplSet), NoChange)
  }

  function Mismatch(cas: nat, o: Obj): bool {
    cas != 0 && cas != o.cas
  }

  function ExecGet(touch: Option<int>, lock: bool, env: Env, o: Obj): Outcome {
    if lock && Locked(o) then Fail(Some(o), IsLocked)
    else
      var held := if lock then o.(lock := env.ctx) else o;
      var op := if lock then AddLock else NoChange;
      if Expired(held, env.now, env.flushTime) then Outcome(Some(held), NotFound, None, op)
      else if touch.Some? then
        Outcome(Some(TouchObj(held, touch.value).(age := 0)), OK, Some(ReplTouch), op)
      else Outcome(Some(held.(age := 0)), OK, None, op)
  }

  function ExecStore(c: Cmd, env: Env, o: Obj): Outcome
    requires c.Store?
  {
    if ByOther(o, env) then Fail(Some(o), IsLocked)
    else if Expired(o, env.now, env.flushTime) && (c.cas != 0 || c.mode.Replace?) then
      Fail(Some(o), if c.text then NotStored else NotFound)
    else if !Expired(o, env.now, env.flushTime) && c.mode.Add? then
      Fail(Some(o), if c.text then NotStored else Exists)
    else if Mismatch(c.cas, o) then Fail(Some(o), Exists)
    else Stored(SetObj(o, c.data, c.flags, c.exptime))
  }

  function ExecArith(o: Obj, cas: nat, env: Env, f: nat -> nat): Outcome {
    if ByOther(o, env) then Fail(Some(o), IsLocked)
    else if Expired(o, env.now, env.flushTime) then Fail(Some(o), NotFound)
    else if Mismatch(cas, o) then Fail(Some(o), Exists)
    else
      match NumberOf(o, env.heapLimit)
      case None => Fail(Some(o), NonNumeric)
      case Some(v) => Stored(WithNumber(o, f(v)))
  }

  function ExecConcat(o: Obj, cas: nat, env: Env, o': Obj): Outcome {
    if ByOther(o, env) then Fail(Some(o), IsLocked)
    else if Expired(o, env.now, env.flushTime) then Fail(Some(o), NotFound)
    else if Mismatch(cas, o) then Fail(Some(o), Exists)
    else Stored(o')
  }

  /** The handler for an existing object. */
  function OnHit(c: Cmd, env: Env, o: Obj): Outcome {
    match c
    case Get(touch, lock) => ExecGet(touch, lock, env, o)
    case Store(_, _, _, _, _, _) => ExecStore(c, env, o)
    case CompareAndSwap(data, flags, exptime, cas) =>
      if ByOther(o, env) then Fail(Some(o), IsLocked)
      else if Expired(o, env.now, env.flushTime) then Fail(Some(o), NotFound)
      else if o.cas != cas then Fail(Some(o), Exists)
      else Stored(SetObj(o, data, flags, exptime))
    case ReplaceAndUnlock(data, flags, exptime, cas) =>
      if !BySelf(o, env) then Fail(Some(o), NotLocked)
      else if Mismatch(cas, o) then Fail(Some(o), Exists)
      else Stored(SetObj(o, data, flags, exptime).(lock := UNLOCKED)).(lockOp := RemoveLock)
    case Append(data, cas) => ExecConcat(o, cas, env, AppendObj(o, data))
    case Prepend(data, cas) => ExecConcat(o, cas, env, PrependObj(o, data))
    case Delete(cas) =>
      if ByOther(o, env) then Fail(Some(o), IsLocked)
      else if Mismatch(cas, o) then Fail(Some(o), Exists)
      else Outcome(None, OK, Some(ReplDelete), if BySelf(o, env) then RemoveLock else NoChange)
    case Increment(n, cas, _) => ExecArith(o, cas, env, v => Increased(v, n))
    case Decrement(n, cas, _) => ExecArith(o, cas, env, v => Decreased(v, n))
    case Touch(exptime) =>
      if Expired(o, env.now, env.flushTime) then Fail(Some(o), NotFound)
      else Outcome(Some(TouchObj(o, exptime)), OK, Some(ReplTouch), NoChange)
    case Lock =>
      if Expired(o, env.now, env.flushTime) then Fail(Some(o), NotFound)
      else if Locked(o) then Fail(Some(o), IsLocked)
      else Outcome(Some(o.(lock := env.ctx)), OK, None, AddLock)
    case Unlock(text) =>
      if !BySelf(o, env) then Fail(Some(o), if text then NotFound else NotLocked)
      else Outcome(Some(o.(lock := UNLOCKED)), OK, None, RemoveLock)
  }

  /** The creator for a missing key. */
  function OnMiss(c: Cmd): Outcome {
    match c
    case Store(mode, text, data, flags, exptime, cas) =>
      if !mode.Replace? && cas == 0 then Stored(NewObj(data, flags, exptime))
      else Fail(None, if text then NotStored else NotFound)
    case Increment(_, _, Some(i)) => Stored(NewNumber(i.value, i.exptime))
    case Decrement(_, _, Some(i)) => Stored(NewNumber(i.value, i.exptime))
    case _ => Fail(None, NotFound)
  }

  function Exec(c: Cmd, env: Env, keyLength: nat, entry: Option<Obj>): Outcome {
    if (c.Store? || c.ReplaceAndUnlock?) && keyLength > MAX_KEY_LENGTH then Fail(entry, Invalid)
    else if (c.Store? || c.ReplaceAndUnlock?) && |c.data| > env.maxData then Fail(entry, TooLarge)
    else if entry.Some? then OnHit(c, env, entry.value)
    else OnMiss(c)
  }

  // ---------------------------------------------------------------- what every command keeps

  /** The part of an object that slaves hold. */
  predicate SameContent(a: Obj, b: Obj) {
    a.data == b.data && a.flags == b.flags && a.exptime == b.exptime
  }

  /** A command that sends nothing changes nothing a slave holds, and each message names the change. */
  lemma MessageTellsAll(c: Cmd, env: Env, keyLength: nat, entry: Option<Obj>)
    ensures var r := Exec(c, env, keyLength, entry);
      match r.repl
      case None => entry.Some? == r.entry.Some? && (entry.Some? ==> SameContent(entry.value, r.entry.value))
      case Some(ReplSet) => r.entry.Some?
      case Some(ReplTouch) =>
        && entry.Some? && r.entry.Some?
        && SameContent(entry.value.(exptime := r.entry.value.exptime), r.entry.value)
      case Some(ReplDelete) => entry.Some? && r.entry.None?
  {}

  /**
    Locks: only an unlocked object is locked, only the owner unlocks or deletes, and the change
    of the connection's list matches the change of the object, for every command.
  */
  lemma LockDiscipline(c: Cmd, env: Env, keyLength: nat, entry: Option<Obj>)
    requires env.ctx != UNLOCKED
    ensures var r := Exec(c, env, keyLength, entry);
      match r.lockOp
      case NoChange =>
        && (entry.Some? && Locked(entry.value) ==> r.entry.Some? && r.entry.value.lock == entry.value.lock)
        && (r.entry.Some? && Locked(r.entry.value) ==> entry.Some? && Locked(entry.value))
      case AddLock =>
        && entry.Some? && !Locked(entry.value) && r.entry.Some? && r.entry.value.lock == env.ctx
      case RemoveLock =>
        && entry.Some? && entry.value.lock == env.ctx && (r.entry.Some? ==> !Locked(r.entry.value))
  {}

  /** The command gives up its connection's lock: it unlocks, deletes or replaces an object it owns. */
  predicate Releases(c: Cmd, env: Env, keyLength: nat, entry: Option<Obj>) {
    && entry.Some? && entry.value.lock == env.ctx
    && match c
       case Unlock(_) => true
       case Delete(cas) => cas == 0 || cas == entry.value.cas
       case ReplaceAndUnlock(data, _, _, cas) =>
         keyLength <= MAX_KEY_LENGTH && |data| <= env.maxData && (cas == 0 || cas == entry.value.cas)
       case _ => false
  }

  lemma ReleasesExactly(c: Cmd, env: Env, keyLength: nat, entry: Option<Obj>)
    ensures Exec(c, env, keyLength, entry).lockOp.RemoveLock? <==> Releases(c, env, keyLength, entry)
  {}

  /** An object locked by another connection keeps its data and its owner, whatever the command. */
  lemma LockedBySomeoneElse(c: Cmd, env: Env, keyLength: nat, o: Obj)
    requires ByOther(o, env)
    ensures var r := Exec(c, env, keyLength, Some(o));
      && r.entry.Some? && r.lockOp.NoChange?
      && r.entry.value.data == o.data && r.entry.value.flags == o.flags && r.entry.value.cas == o.cas
      && r.entry.value.lock == o.lock
      && (r.entry.value.exptime != o.exptime ==> c.Touch? || (c.Get? && c.touch.Some?))
  {}

  // ---------------------------------------------------------------- what success means

  /** The unique number the request insists on. */
  function Wanted(c: Cmd): Option<nat> {
    match c
    case CompareAndSwap(_, _, _, cas) => Some(cas)
    case Store(_, _, _, _, _, cas) => if cas == 0 then None else Some(cas)
    case ReplaceAndUnlock(_, _, _, cas) => if cas == 0 then None else Some(cas)
    case Append(_, cas) => if cas == 0 then None else Some(cas)
    case Prepend(_, cas) => if cas == 0 then None else Some(cas)
    case Delete(cas) => if cas == 0 then None else Some(cas)
    case Increment(_, cas, _) => if cas == 0 then None else Some(cas)
    case Decrement(_, cas, _) => if cas == 0 then None else Some(cas)
    case _ => None
  }

  predicate Writes(c: Cmd) { !c.Get? && !c.Touch? && !c.Lock? && !c.Unlock? }

  /**
    A request that insists on a unique number changes nothing on another one, and a write always
    moves the number on, so that no two writes can follow the same reading.
  */
  lemma CompareBeforeWrite(c: Cmd, env: Env, keyLength: nat, o: Obj)
    requires o.cas < TWO64
    ensures var r := Exec(c, env, keyLength, Some(o));
      && (Wanted(c).Some? && Wanted(c).value != o.cas ==> r.entry == Some(o) && !r.status.OK?)
      && (r.status.OK? && Writes(c) && r.entry.Some? ==> r.entry.value.cas == (o.cas + 1) % TWO64)
      && (!(r.status.OK? && Writes(c)) && r.entry.Some? ==> r.entry.value.cas == o.cas)
      && (!r.status.OK? && !(c.Get? && c.lock) ==> r.entry == Some(o))
  {}
}
