/** The OS timer registry as the scheduler sees it: pending broadcasts keyed by their
    identity (request code and action; extras are not part of the identity), each
    registered at a time. Registering an identity that is already registered replaces
    it, and cancelling removes it. Both the scheduler object and the activity's private
    helpers register through Register; they differ only in the kind of timer. */
module AlarmScheduler {
  import opened Intents
  import Decimal

  /** The identity a pending broadcast is matched by. */
  datatype PendingKey = PendingKey(requestCode: int, action: string)

  /** `setAlarmClock` (the scheduler object) or `setExactAndAllowWhileIdle` (the activity). */
  datatype TimerKind = AlarmClock | ExactAllowWhileIdle

  datatype Timer = Timer(time: int, kind: TimerKind, extras: Extras)

  type Registry = map<PendingKey, Timer>

  datatype Outcome = Outcome(registry: Registry, commands: seq<Command>)

  function TriggerAction(id: int): string {
    TriggerActionPrefix + Decimal.IntToString(id)
  }

  /** The key both scheduling and cancelling derive from the id alone. */
  function KeyFor(id: int): PendingKey {
    PendingKey(id, TriggerAction(id))
  }

  function TriggerExtras(id: int, repeating: bool): Extras {
    map[ExtraAlarmId := IntV(id), ExtraIsRepeating := BoolV(repeating)]
  }

  /** Register a timer for `id`, guarded by the exact-alarm permission. The pending
      broadcast is looked up with FLAG_UPDATE_CURRENT before the permission is checked,
      so a timer already registered under the key takes the new extras even when the
      registration itself is then abandoned. Nothing about id or time is validated. */
  function Register(reg: Registry, canExact: bool, id: int, time: int, repeating: bool, kind: TimerKind): (r: Outcome)
    // with the permission: an upsert under the id's key
    ensures canExact ==> r.commands == []
    ensures canExact ==> KeyFor(id) in r.registry && r.registry[KeyFor(id)] == Timer(time, kind, TriggerExtras(id, repeating))
    ensures canExact ==> r.registry.Keys == reg.Keys + {KeyFor(id)}
    // without it: the user is sent to the consent screen, no key is added and no time moves
    ensures !canExact ==> r.commands == [StartActivity(ExactAlarmSettings)]
    ensures !canExact ==> r.registry.Keys == reg.Keys
    ensures !canExact ==> forall k :: k in reg ==> r.registry[k].time == reg[k].time && r.registry[k].kind == reg[k].kind
    ensures !canExact && KeyFor(id) in reg ==> r.registry[KeyFor(id)].extras == TriggerExtras(id, repeating)
    // no other key is touched
    ensures forall k :: k in reg && k != KeyFor(id) ==> k in r.registry && r.registry[k] == reg[k]
  {
    var key := KeyFor(id);
    var extras := TriggerExtras(id, repeating);
    if !canExact then
      var refreshed := if key in reg then reg[key := reg[key].(extras := extras)] else reg;
      Outcome(refreshed, [StartActivity(ExactAlarmSettings)])
    else
      Outcome(reg[key := Timer(time, kind, extras)], [])
  }

  /** `AlarmScheduler.scheduleAlarm`. */
  function ScheduleAlarm(reg: Registry, canExact: bool, id: int, time: int, repeating: bool): (r: Outcome)
    ensures canExact ==> KeyFor(id) in r.registry && r.registry[KeyFor(id)] == Timer(time, AlarmClock, TriggerExtras(id, repeating))
    ensures !canExact ==> r.registry.Keys == reg.Keys
  {
    Register(reg, canExact, id, time, repeating, AlarmClock)
  }

  /** `cancelAlarm`: remove whatever is registered under the id's key. */
  function Cancel(reg: Registry, id: int): (r: Registry)
    ensures KeyFor(id) !in r
    ensures r.Keys == reg.Keys - {KeyFor(id)}
    ensures forall k :: k in r ==> r[k] == reg[k]
    ensures KeyFor(id) !in reg ==> r == reg
  {
    reg - {KeyFor(id)}
  }

  /** The broadcast the platform delivers when the timer under `key` fires, if any. */
  function Fire(reg: Registry, key: PendingKey): (r: Option<Intent>)
    ensures r.Some? <==> key in reg
    ensures r.Some? ==> r.value == Intent(ToTriggerReceiver, Some(key.action), reg[key].extras)
  {
    if key in reg then Some(Intent(ToTriggerReceiver, Some(key.action), reg[key].extras)) else None
  }

  /** Two ids never share a key, and the action string alone already tells them apart. */
  lemma KeysAreDistinct(a: int, b: int)
    requires a != b
    ensures KeyFor(a) != KeyFor(b)
    ensures TriggerAction(a) != TriggerAction(b)
  {
    if TriggerAction(a) == TriggerAction(b) {
      Decimal.PrefixedInjective(TriggerActionPrefix, a, b);
    }
  }

  /** Scheduling the same id twice leaves one timer, at the later time. */
  lemma LastWriteWins(reg: Registry, id: int, t1: int, r1: bool, t2: int, r2: bool, kind: TimerKind)
    ensures Register(Register(reg, true, id, t1, r1, kind).registry, true, id, t2, r2, kind).registry
         == Register(reg, true, id, t2, r2, kind).registry
    ensures Register(Register(reg, true, id, t1, r1, kind).registry, true, id, t2, r2, kind).registry[KeyFor(id)].time == t2
  {
  }

  /** Cancel removes exactly what schedule added: cancelling after scheduling is the
      same as cancelling alone, and restores a registry that had no timer for the id. */
  lemma CancelUndoesSchedule(reg: Registry, canExact: bool, id: int, time: int, repeating: bool, kind: TimerKind)
    ensures Cancel(Register(reg, canExact, id, time, repeating, kind).registry, id) == Cancel(reg, id)
    ensures KeyFor(id) !in reg ==> Cancel(Register(reg, canExact, id, time, repeating, kind).registry, id) == reg
  {
  }

  /** Cancelling twice is cancelling once. */
  lemma CancelIsIdempotent(reg: Registry, id: int)
    ensures Cancel(Cancel(reg, id), id) == Cancel(reg, id)
  {
  }

  /** Operations on one id commute with operations on another. */
  lemma DistinctIdsCommute(reg: Registry, a: int, b: int, time: int, repeating: bool, kind: TimerKind)
    requires a != b
    ensures Cancel(Register(reg, true, a, time, repeating, kind).registry, b)
         == Register(Cancel(reg, b), true, a, time, repeating, kind).registry
  {
  }

  /** Every registered timer sits under the key of the id its extras carry. */
  predicate WellKeyed(reg: Registry) {
    forall k :: k in reg ==> k == KeyFor(k.requestCode) && GetIntExtra(reg[k].extras, ExtraAlarmId, -1) == k.requestCode
  }

  /** A registry operation: either scheduler's registration, or a cancellation. */
  datatype Op =
    | Schedule(canExact: bool, id: int, time: int, repeating: bool, kind: TimerKind)
    | Unschedule(id: int)

  function Apply(reg: Registry, op: Op): Registry {
    match op
    case Schedule(canExact, id, time, repeating, kind) => Register(reg, canExact, id, time, repeating, kind).registry
    case Unschedule(id) => Cancel(reg, id)
  }

  /** The registry after the operations, in order. */
  function ApplyAll(reg: Registry, ops: seq<Op>): Registry
    decreases |ops|
  {
    if ops == [] then reg else ApplyAll(Apply(reg, ops[0]), ops[1..])
  }

  /** Registration and cancellation keep every timer under its own id's key. */
  lemma ApplyKeepsWellKeyed(reg: Registry, op: Op)
    requires WellKeyed(reg)
    ensures WellKeyed(Apply(reg, op))
  {
  }

  /** Every registry the app can build is well keyed. */
  lemma {:induction false} ApplyAllKeepsWellKeyed(reg: Registry, ops: seq<Op>)
    requires WellKeyed(reg)
    ensures WellKeyed(ApplyAll(reg, ops))
    decreases |ops|
  {
    if ops != [] {
      ApplyKeepsWellKeyed(reg, ops[0]);
      ApplyAllKeepsWellKeyed(Apply(reg, ops[0]), ops[1..]);
    }
  }

  /** In a well-keyed registry, once an id is cancelled no timer left carries that id. */
  lemma CancelRemovesEveryTimerForId(reg: Registry, id: int)
    requires WellKeyed(reg)
    ensures WellKeyed(Cancel(reg, id))
    ensures forall k :: k in Cancel(reg, id) ==> GetIntExtra(Cancel(reg, id)[k].extras, ExtraAlarmId, -1) != id
  {
  }
}
