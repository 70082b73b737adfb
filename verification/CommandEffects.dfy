/**
  What the commands mean to a client: exactly when each of them succeeds, why it fails, and what it
  leaves behind, in terms of the request, the clock, the lock and the object before.
*/
module CommandEffects {
  import opened Seqs
  import opened Numeric
  import opened Objects
  import opened Commands

  // ---------------------------------------------------------------- what decides

  /** Nobody's, or this connection's. */
  predicate Free(o: Obj, env: Env) { o.lock == UNLOCKED || o.lock == env.ctx }

  /** Locked, or neither flushed nor past its expiration time. */
  predicate Visible(o: Obj, env: Env) {
    || o.lock != UNLOCKED
    || ((env.flushTime == 0 || env.now < env.flushTime) && (o.exptime == 0 || env.now < o.exptime))
  }

  predicate Matches(cas: nat, o: Obj) { cas == 0 || cas == o.cas }

  function Number(o: Obj, env: Env): Option<nat> {
    if |o.data| <= env.heapLimit then Stoull(o.data) else None
  }

  /** Within the limits that set, add, replace and replace-and-unlock check first. */
  predicate Sized(c: Cmd, env: Env, keyLength: nat) {
    c.Store? || c.ReplaceAndUnlock? ==> keyLength <= 250 && |c.data| <= env.maxData
  }

  /** The object is there, for commands that look at its expiration. */
  predicate Alive(entry: Option<Obj>, env: Env) { entry.Some? && Visible(entry.value, env) }

  /** An object this connection may change, there and visible, with the wanted unique number. */
  predicate Open(entry: Option<Obj>, env: Env, cas: nat) {
    Alive(entry, env) && Free(entry.value, env) && Matches(cas, entry.value)
  }

  predicate Succeeds(c: Cmd, env: Env, keyLength: nat, entry: Option<Obj>) {
    match c
    case Get(_, lock) => if lock then entry.Some? && entry.value.lock == UNLOCKED else Alive(entry, env)
    case Store(mode, _, _, _, _, cas) =>
      && Sized(c, env, keyLength)
      && (entry.Some? ==> Free(entry.value, env))
      && (mode.Add? ==> !Alive(entry, env))
      && (mode.Replace? ==> Alive(entry, env))
      && (cas != 0 ==> Alive(entry, env) && entry.value.cas == cas)
    case CompareAndSwap(_, _, _, cas) => Alive(entry, env) && Free(entry.value, env) && entry.value.cas == cas
    case ReplaceAndUnlock(_, _, _, cas) =>
      Sized(c, env, keyLength) && entry.Some? && entry.value.lock == env.ctx && Matches(cas, entry.value)
    case Append(_, cas) => Open(entry, env, cas)
    case Prepend(_, cas) => Open(entry, env, cas)
    case Delete(cas) => entry.Some? && Free(entry.value, env) && Matches(cas, entry.value)
    case Increment(_, cas, initial) =>
      if entry.Some? then Open(entry, env, cas) && Number(entry.value, env).Some? else initial.Some?
    case Decrement(_, cas, initial) =>
      if entry.Some? then Open(entry, env, cas) && Number(entry.value, env).Some? else initial.Some?
    case Touch(_) => Alive(entry, env)
    case Lock => Alive(entry, env) && entry.value.lock == UNLOCKED
    case Unlock(_) => entry.Some? && entry.value.lock == env.ctx
  }

  lemma SucceedsExactly(c: Cmd, env: Env, keyLength: nat, entry: Option<Obj>)
    requires env.ctx != UNLOCKED
    ensures Exec(c, env, keyLength, entry).status.OK? <==> Succeeds(c, env, keyLength, entry)
  {}

  // ---------------------------------------------------------------- why a command fails

  predicate Concats(c: Cmd) { c.Append? || c.Prepend? }
  predicate Counting(c: Cmd) { c.Increment? || c.Decrement? }

  /** The lock of another connection, or any lock for the commands that want to take it. */
  predicate Denied(c: Cmd, env: Env, entry: Option<Obj>) {
    && entry.Some?
    && match c
       case Get(_, lock) => lock && entry.value.lock != UNLOCKED
       case Lock => entry.value.lock != UNLOCKED
       case Touch(_) => false
       case Unlock(_) => false
       case ReplaceAndUnlock(_, _, _, _) => false
       case _ => !Free(entry.value, env)
  }

  /** Another unique number than the wanted one, or an object where add wants none. */
  predicate Collides(c: Cmd, env: Env, entry: Option<Obj>) {
    && entry.Some?
    && match c
       case Store(mode, text, _, _, _, cas) =>
         Alive(entry, env) && Free(entry.value, env) && if mode.Add? then !text else !Matches(cas, entry.value)
       case CompareAndSwap(_, _, _, cas) => Alive(entry, env) && Free(entry.value, env) && entry.value.cas != cas
       case ReplaceAndUnlock(_, _, _, cas) => entry.value.lock == env.ctx && !Matches(cas, entry.value)
       case Delete(cas) => Free(entry.value, env) && !Matches(cas, entry.value)
       case _ =>
         (Concats(c) || Counting(c)) && Alive(entry, env) && Free(entry.value, env) && !Matches(c.cas, entry.value)
  }

  lemma FailsExactly(c: Cmd, env: Env, keyLength: nat, entry: Option<Obj>)
    requires env.ctx != UNLOCKED
    ensures var st := Exec(c, env, keyLength, entry).status;
      var sized := Sized(c, env, keyLength);
      && (st.Invalid? <==> (c.Store? || c.ReplaceAndUnlock?) && keyLength > 250)
      && (st.TooLarge? <==> (c.Store? || c.ReplaceAndUnlock?) && keyLength <= 250 && |c.data| > env.maxData)
      && (st.IsLocked? <==> sized && Denied(c, env, entry))
      && (st.Exists? <==> sized && Collides(c, env, entry))
      && (st.NotLocked? <==>
            sized && entry.Some? && entry.value.lock != env.ctx && (c.ReplaceAndUnlock? || c == Unlock(false)))
      && (st.NonNumeric? <==> Counting(c) && Open(entry, env, c.cas) && Number(entry.value, env).None?)
      && (st.NotStored? <==>
            && c.Store? && c.text && sized && !Denied(c, env, entry)
            && if Alive(entry, env) then c.mode.Add? else c.mode.Replace? || c.cas != 0)
  {}

  // ---------------------------------------------------------------- what a command leaves

  /** The data that a successful command leaves. */
  function DataAfter(c: Cmd, env: Env, entry: Option<Obj>): seq<byte> {
    var before := if entry.Some? then entry.value.data else [];
    var v := if entry.Some? && Number(entry.value, env).Some? then Number(entry.value, env).value else 0;
    match c
    case Store(_, _, data, _, _, _) => data
    case CompareAndSwap(data, _, _, _) => data
    case ReplaceAndUnlock(data, _, _, _) => data
    case Append(data, _) => before + data
    case Prepend(data, _) => data + before
    case Increment(n, _, initial) =>
      if entry.Some? then Print((v + n) % 0x1_0000_0000_0000_0000)
      else if initial.Some? then Print(initial.value.value) else []
    case Decrement(n, _, initial) =>
      if entry.Some? then Print(if v >= n then v - n else 0)
      else if initial.Some? then Print(initial.value.value) else []
    case _ => before
  }

  predicate Replaces(c: Cmd) { c.Store? || c.CompareAndSwap? || c.ReplaceAndUnlock? }

  /** A successful delete leaves nothing; every other successful command leaves an object with this data. */
  lemma LeavesData(c: Cmd, env: Env, keyLength: nat, entry: Option<Obj>)
    requires Exec(c, env, keyLength, entry).status.OK?
    ensures var r := Exec(c, env, keyLength, entry).entry;
      (r.None? <==> c.Delete?) && (r.Some? ==> r.value.data == DataAfter(c, env, entry))
  {
    hide Print, Stoull;
  }

  predicate Times(c: Cmd) { Replaces(c) || c.Touch? || (c.Get? && c.touch.Some?) }

  /** Flags and expiration time are those of the request, or stay. */
  lemma LeavesRest(c: Cmd, env: Env, keyLength: nat, entry: Option<Obj>)
    requires Exec(c, env, keyLength, entry).status.OK? && !c.Delete?
    ensures var r := Exec(c, env, keyLength, entry).entry;
      && r.Some?
      && r.value.flags == (if Replaces(c) then c.flags else if entry.Some? then entry.value.flags else 0)
      && (Replaces(c) || c.Touch? ==> r.value.exptime == c.exptime)
      && (c.Get? && c.touch.Some? ==> r.value.exptime == c.touch.value)
      && (!Times(c) && entry.Some? ==> r.value.exptime == entry.value.exptime)
      && (!Times(c) && entry.None? ==>
            Counting(c) && c.initial.Some? && r.value.exptime == c.initial.value.exptime)
  {
    hide Print, Stoull;
  }

  /** Access makes an object young, writes count, and only locking commands change the lock. */
  lemma Bookkeeping(c: Cmd, env: Env, keyLength: nat, entry: Option<Obj>)
    requires Exec(c, env, keyLength, entry).status.OK? && !c.Delete?
    ensures var r := Exec(c, env, keyLength, entry).entry;
      && r.Some?
      && r.value.age == (if (c.Lock? || c.Unlock?) && entry.Some? then entry.value.age else 0)
      && r.value.lock == (if c.Lock? || (c.Get? && c.lock) then env.ctx
                          else if c.Unlock? || c.ReplaceAndUnlock? || entry.None? then UNLOCKED
                          else entry.value.lock)
      && r.value.cas == (if entry.None? then 1
                         else if Writes(c) then (entry.value.cas + 1) % 0x1_0000_0000_0000_0000
                         else entry.value.cas)
  {}

  /** A command that fails changes nothing and tells the slaves nothing. */
  lemma FailureChangesNothing(c: Cmd, env: Env, keyLength: nat, entry: Option<Obj>)
    requires env.ctx != UNLOCKED && !Exec(c, env, keyLength, entry).status.OK?
    ensures Exec(c, env, keyLength, entry) == Outcome(entry, Exec(c, env, keyLength, entry).status, None, NoChange)
  {}
}
