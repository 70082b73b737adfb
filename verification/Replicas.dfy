/** A slave's table as the replay of the messages sent to it. */
module Replicas {
  import opened Seqs
  import opened Objects
  import opened Commands
  import opened Wire

  type Table = map<Key, Replica>

  /** One turn of the loop in `repl_recv`; `now` is the slave's clock. */
  function Apply(t: Table, m: Msg, now: int): Table {
    match m
    case SetMsg(key, _, _, _) => t[key := Received(m, now)]
    case TouchMsg(key, exptime) =>
      if key in t then t[key := t[key].(exptime := BinaryExptime(Exptime32(exptime), now))] else t
    case DeleteMsg(key) => t - {key}
  }

  /** `clock(i)` is the slave's clock when it handles message i. */
  function Replay(ms: seq<Msg>, clock: nat -> int): Table {
    if ms == [] then map[]
    else Apply(Replay(ms[..|ms| - 1], clock), ms[|ms| - 1], clock(|ms| - 1))
  }

  predicate DataSurvives(o: Obj) { 1 <= |o.data| <= MAX_REQUEST_LENGTH }

  /** The slave holds the object as far as the wire can carry it, and nothing of it otherwise. */
  predicate InSync(o: Obj, r: Replica) {
    && (if DataSurvives(o) then r.data == o.data && r.flags == o.flags else r.data == [] && r.flags == 0)
    && (DataSurvives(o) && ExptimeSurvives(o.exptime) ==> r.exptime == o.exptime)
  }

  predicate Follows(entry: Option<Obj>, t: Table, key: Key) {
    entry.Some? ==> key in t && InSync(entry.value, t[key])
  }

  function SetOf(key: Key, o: Obj): Msg { SetMsg(key, o.data, o.flags, o.exptime) }

  /** The message a command's outcome sends to the slaves of the job. */
  function MessageOf(key: Key, r: Outcome): Option<Msg> {
    match r.repl
    case None => None
    case Some(ReplDelete) => Some(DeleteMsg(key))
    case Some(ReplSet) => if r.entry.Some? then Some(SetOf(key, r.entry.value)) else None
    case Some(ReplTouch) => if r.entry.Some? then Some(TouchMsg(key, r.entry.value.exptime)) else None
  }

  function Told(t: Table, m: Option<Msg>, now: int): Table {
    match m
    case None => t
    case Some(m) => Apply(t, m, now)
  }

  lemma SetFollows(o: Obj, t: Table, key: Key, now: int)
    ensures Follows(Some(o), Apply(t, SetOf(key, o), now), key)
  {
    ExptimeTrip(o.exptime, now);
  }

  /** If the slave followed the entry before a command, it follows the entry after it. */
  lemma CommandReplicates(c: Cmd, env: Env, entry: Option<Obj>, key: Key, t: Table, now: int)
    requires Follows(entry, t, key)
    ensures var r := Exec(c, env, |key|, entry);
      Follows(r.entry, Told(t, MessageOf(key, r), now), key)
  {
    hide Exec;
    var r := Exec(c, env, |key|, entry);
    MessageTellsAll(c, env, |key|, entry);
    if r.entry.Some? {
      SetFollows(r.entry.value, t, key, now);
      ExptimeTrip(r.entry.value.exptime, now);
    }
  }

  /** Other keys are untouched, and the key itself is new on the slave only if the master has it. */
  lemma CommandTouchesOneKey(c: Cmd, env: Env, entry: Option<Obj>, key: Key, t: Table, now: int)
    ensures var r := Exec(c, env, |key|, entry);
      var t' := Told(t, MessageOf(key, r), now);
      && (forall k :: k != key ==> (k in t' <==> k in t) && (k in t ==> t'[k] == t[k]))
      && (key in t' ==> key in t || r.entry.Some?)
      && (entry.Some? && r.entry.None? ==> key !in t')
  {
    hide Exec;
    MessageTellsAll(c, env, |key|, entry);
  }
}
