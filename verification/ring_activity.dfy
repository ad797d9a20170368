/** The full-screen ring activity. It checks the id it was opened with, deactivates the
    alarm's record in the shared store, looks up the label to show, and on dismissal stops
    the ring service and hands the id back to the main activity. The store holds the UI
    framework's alarm records as serialized strings; a string that does not parse is a
    Corrupt record. */
module RingActivity {
  import opened Intents
  import Decimal

  /** A stored alarm: a parsed record (`id` is -1 when the field is missing), or the raw
      text of one that does not parse. */
  datatype AlarmRecord =
    | Parsed(id: int, caption: Option<string>, isActive: bool, repeating: bool)
    | Corrupt(raw: string)

  /** The alarm list in the order the store iterates it; None when the key is absent. */
  type Store = Option<seq<AlarmRecord>>

  const WakeLockTimeoutMs: int := 2 * 60 * 1000
  const TypingRoute: string := "/typing"

  datatype WakeLock = NotHeld | Held(timeoutMs: int)

  /** What the activity shows once it has an id. */
  datatype RingView = RingView(alarmId: int, caption: string)

  datatype Activity = Activity(wakeLock: WakeLock, view: Option<RingView>, finishing: bool)

  datatype CreateOutcome = CreateOutcome(activity: Activity, store: Store, commands: seq<Command>)

  datatype UiEvent = DismissClicked | BackPressed | Destroyed

  datatype UiOutcome = UiOutcome(activity: Activity, commands: seq<Command>)

  predicate Matches(rec: AlarmRecord, id: int) {
    rec.Parsed? && rec.id == id
  }

  /** The mapping step of `deactivateOneShotAlarmInPrefs` over the records. */
  function DeactivateRecords(recs: seq<AlarmRecord>, id: int): (r: seq<AlarmRecord>)
    ensures |r| == |recs|
    // records that do not parse are written back verbatim
    ensures forall i :: 0 <= i < |recs| && recs[i].Corrupt? ==> r[i] == recs[i]
    // every matching record, repeating or not, ends up inactive and is otherwise unchanged
    ensures forall i :: 0 <= i < |recs| && Matches(recs[i], id) ==> r[i] == recs[i].(isActive := false)
    // every other parsed record is unchanged
    ensures forall i :: 0 <= i < |recs| && recs[i].Parsed? && recs[i].id != id ==> r[i] == recs[i]
    decreases |recs|
  {
    if recs == [] then []
    else
      var head := if Matches(recs[0], id) then recs[0].(isActive := false) else recs[0];
      [head] + DeactivateRecords(recs[1..], id)
  }

  /** `deactivateOneShotAlarmInPrefs`: nothing is written when the list is absent. */
  function Deactivate(store: Store, id: int): (r: Store)
    ensures store.None? <==> r.None?
    ensures store.Some? ==> r.value == DeactivateRecords(store.value, id)
  {
    match store
    case None => None
    case Some(recs) => Some(DeactivateRecords(recs, id))
  }

  /** A label counts only when it is present and non-empty. */
  function NonEmpty(caption: Option<string>): Option<string> {
    if caption.Some? && caption.value != "" then caption else None
  }

  /** The loop of `getAlarmLabelFromPrefs`: the first matching record decides; a record
      that does not parse throws out of the loop, and the whole lookup yields null. */
  function LookupLabel(recs: seq<AlarmRecord>, id: int): (r: Option<string>)
    ensures r.Some? ==> r.value != ""
    ensures r.Some? ==> exists k :: 0 <= k < |recs| && Matches(recs[k], id) && recs[k].caption == r
    decreases |recs|
  {
    if recs == [] then None
    else if recs[0].Corrupt? then None
    else if recs[0].id == id then NonEmpty(recs[0].caption)
    else
      var rest := LookupLabel(recs[1..], id);
      assert rest.Some? ==> exists k :: 1 <= k < |recs| && Matches(recs[k], id) && recs[k].caption == rest by {
        if rest.Some? {
          var k :| 0 <= k < |recs[1..]| && Matches(recs[1..][k], id) && recs[1..][k].caption == rest;
          assert recs[k + 1] == recs[1..][k];
        }
      }
      rest
  }

  /** `getAlarmLabelFromPrefs`. */
  function GetAlarmLabel(store: Store, id: int): (r: Option<string>)
    ensures id == -1 || store.None? ==> r.None?
    ensures r.Some? ==> r.value != ""
  {
    if id == -1 then None
    else match store
      case None => None
      case Some(recs) => LookupLabel(recs, id)
  }

  /** Every record before index k parses and belongs to another alarm. */
  predicate ClearBefore(recs: seq<AlarmRecord>, id: int, k: int)
    requires 0 <= k <= |recs|
  {
    forall j :: 0 <= j < k ==> recs[j].Parsed? && recs[j].id != id
  }

  /** The lookup returns the label of the first matching record when nothing before it
      is corrupt, and null when that label is missing or empty. */
  lemma {:induction false} LookupFindsFirstMatch(recs: seq<AlarmRecord>, id: int, k: int)
    requires 0 <= k < |recs|
    requires ClearBefore(recs, id, k)
    requires Matches(recs[k], id)
    ensures LookupLabel(recs, id) == NonEmpty(recs[k].caption)
    decreases k
  {
    if k > 0 {
      assert recs[0].Parsed? && recs[0].id != id;
      LookupFindsFirstMatch(recs[1..], id, k - 1);
    }
  }

  /** A corrupt record reached before any match aborts the whole lookup, even when a
      matching record follows it. */
  lemma {:induction false} LookupAbortsOnCorrupt(recs: seq<AlarmRecord>, id: int, k: int)
    requires 0 <= k < |recs|
    requires ClearBefore(recs, id, k)
    requires recs[k].Corrupt?
    ensures LookupLabel(recs, id) == None
    decreases k
  {
    if k > 0 {
      assert recs[0].Parsed? && recs[0].id != id;
      LookupAbortsOnCorrupt(recs[1..], id, k - 1);
    }
  }

  /** Without a matching record there is no label. */
  lemma LookupWithoutMatch(recs: seq<AlarmRecord>, id: int)
    requires forall j :: 0 <= j < |recs| ==> !Matches(recs[j], id)
    ensures LookupLabel(recs, id) == None
  {
  }

  /** Deactivation skips a corrupt record and goes on; the label lookup gives up on it. */
  lemma CorruptRecordSkippedOnlyByDeactivation()
    ensures var recs := [Corrupt("{"), Parsed(5, Some("Work"), true, false)];
      && Deactivate(Some(recs), 5) == Some([Corrupt("{"), Parsed(5, Some("Work"), false, false)])
      && GetAlarmLabel(Some(recs), 5) == None
  {
    var recs := [Corrupt("{"), Parsed(5, Some("Work"), true, false)];
    var after := DeactivateRecords(recs, 5);
    assert after[0] == Corrupt("{") && after[1] == Parsed(5, Some("Work"), false, false);
    assert after == [Corrupt("{"), Parsed(5, Some("Work"), false, false)];
    LookupAbortsOnCorrupt(recs, 5, 0);
  }

  /** Deactivating twice is deactivating once. */
  lemma DeactivateIsIdempotent(store: Store, id: int)
    ensures Deactivate(Deactivate(store, id), id) == Deactivate(store, id)
  {
    if store.Some? {
      var once := DeactivateRecords(store.value, id);
      var twice := DeactivateRecords(once, id);
      assert |twice| == |once|;
      forall i | 0 <= i < |once|
        ensures twice[i] == once[i]
      {
      }
      assert twice == once;
    }
  }

  /** The label shown: the stored one when it is non-empty, else the id itself. */
  function DisplayLabel(fetched: Option<string>, id: int): (r: string)
    ensures r != ""
    ensures fetched.Some? && fetched.value != "" ==> r == fetched.value
    ensures fetched.None? || fetched.value == "" ==> r == "Alarm (ID: " + Decimal.IntToString(id) + ")"
  {
    if fetched.Some? && fetched.value != "" then fetched.value
    else "Alarm (ID: " + Decimal.IntToString(id) + ")"
  }

  /** `onCreate`. The wake lock is taken before anything can fail and stays held until
      the activity is destroyed or its 2-minute bound runs out; `wakeLockOk` is whether
      acquiring it succeeds and `layoutOk` whether the layout and its views load. */
  function OnCreate(extras: Extras, store: Store, wakeLockOk: bool, layoutOk: bool): (r: CreateOutcome)
    ensures r.activity.wakeLock == (if wakeLockOk then Held(WakeLockTimeoutMs) else NotHeld)
    // without a layout or without an int id the activity just finishes, touching nothing
    ensures !layoutOk || GetIntExtra(extras, "id", -1) == -1 ==>
      && r.commands == [Finish]
      && r.store == store
      && r.activity.view.None?
      && r.activity.finishing
    ensures layoutOk && GetIntExtra(extras, "id", -1) != -1 ==>
      var id := GetIntExtra(extras, "id", -1);
      && r.commands == []
      && !r.activity.finishing
      && r.store == Deactivate(store, id)
      && r.activity.view == Some(RingView(id, DisplayLabel(GetAlarmLabel(store, id), id)))
  {
    var wakeLock := if wakeLockOk then Held(WakeLockTimeoutMs) else NotHeld;
    var alarmId := GetIntExtra(extras, "id", -1);
    if !layoutOk || alarmId == -1 then
      CreateOutcome(Activity(wakeLock, None, true), store, [Finish])
    else
      var updated := Deactivate(store, alarmId);
      LabelUnaffectedByDeactivation(store, alarmId);
      var shown := DisplayLabel(GetAlarmLabel(updated, alarmId), alarmId);
      CreateOutcome(Activity(wakeLock, Some(RingView(alarmId, shown)), false), updated, [])
  }

  /** The label is read after the record was deactivated; deactivation does not change it. */
  lemma LabelUnaffectedByDeactivation(store: Store, id: int)
    ensures GetAlarmLabel(Deactivate(store, id), id) == GetAlarmLabel(store, id)
  {
    if id != -1 && store.Some? {
      LookupIgnoresActiveFlag(store.value, DeactivateRecords(store.value, id), id);
    }
  }

  /** `a` and `b` hold the same records, in any order and with any repetition: what
      re-reading a rewritten string set can yield. */
  predicate SameRecords(a: seq<AlarmRecord>, b: seq<AlarmRecord>) {
    && (forall i :: 0 <= i < |a| ==> a[i] in b)
    && (forall j :: 0 <= j < |b| ==> b[j] in a)
  }

  /** Every record for the id carries the same label. */
  predicate OneCaption(recs: seq<AlarmRecord>, id: int, c: Option<string>) {
    forall i :: 0 <= i < |recs| && Matches(recs[i], id) ==> recs[i].caption == c
  }

  predicate HasMatch(recs: seq<AlarmRecord>, id: int) {
    exists i :: 0 <= i < |recs| && Matches(recs[i], id)
  }

  predicate AllParsed(recs: seq<AlarmRecord>) {
    forall i :: 0 <= i < |recs| ==> recs[i].Parsed?
  }

  /** In a list without corrupt records whose records for the id all carry label c, the
      lookup yields c (when non-empty) if there is such a record, and null otherwise. */
  lemma {:induction false} LookupSharedCaption(recs: seq<AlarmRecord>, id: int, c: Option<string>)
    requires AllParsed(recs)
    requires OneCaption(recs, id, c)
    ensures LookupLabel(recs, id) == (if HasMatch(recs, id) then NonEmpty(c) else None)
    decreases |recs|
  {
    if recs != [] && !Matches(recs[0], id) {
      var rest := recs[1..];
      assert AllParsed(rest) && OneCaption(rest, id, c) by {
        forall i | 0 <= i < |rest| ensures rest[i] == recs[i + 1] { }
      }
      LookupSharedCaption(rest, id, c);
      assert HasMatch(rest, id) <==> HasMatch(recs, id) by {
        if HasMatch(recs, id) {
          var i :| 0 <= i < |recs| && Matches(recs[i], id);
          assert rest[i - 1] == recs[i];
        }
        if HasMatch(rest, id) {
          var i :| 0 <= i < |rest| && Matches(rest[i], id);
          assert recs[i + 1] == rest[i];
        }
      }
    } else if recs != [] {
      assert HasMatch(recs, id) by { assert Matches(recs[0], id); }
    }
  }

  /** The label read back after the write does not depend on the order or repetition in
      which the rewritten set is iterated, provided no record is corrupt and every record
      for the id carries the same label. */
  lemma LabelUnaffectedByReorder(recs: seq<AlarmRecord>, reread: seq<AlarmRecord>, id: int, c: Option<string>)
    requires AllParsed(recs)
    requires OneCaption(recs, id, c)
    requires SameRecords(reread, DeactivateRecords(recs, id))
    ensures LookupLabel(reread, id) == LookupLabel(recs, id)
  {
    var written := DeactivateRecords(recs, id);
    forall j | 0 <= j < |reread|
      ensures reread[j].Parsed?
      ensures Matches(reread[j], id) ==> reread[j].caption == c
    {
      var i :| 0 <= i < |written| && written[i] == reread[j];
    }
    LookupSharedCaption(recs, id, c);
    LookupSharedCaption(reread, id, c);
    if HasMatch(recs, id) {
      var i :| 0 <= i < |recs| && Matches(recs[i], id);
      assert written[i] in reread;
    }
    if HasMatch(reread, id) {
      var j :| 0 <= j < |reread| && Matches(reread[j], id);
      var i :| 0 <= i < |written| && written[i] == reread[j];
      assert Matches(recs[i], id);
    }
  }

  /** Two lists that agree on everything but the active flags give the same label. */
  lemma {:induction false} LookupIgnoresActiveFlag(a: seq<AlarmRecord>, b: seq<AlarmRecord>, id: int)
    requires |a| == |b|
    requires forall i :: 0 <= i < |a| ==> b[i] == a[i] || (a[i].Parsed? && b[i] == a[i].(isActive := false))
    ensures LookupLabel(a, id) == LookupLabel(b, id)
    decreases |a|
  {
    if a != [] {
      LookupIgnoresActiveFlag(a[1..], b[1..], id);
    }
  }

  /** The stop command the dismiss button sends to the ring service. */
  function StopIntent(alarmId: int): Intent {
    Intent(ToRingService, Some(ActionStopRing), map[ExtraAlarmId := IntV(alarmId)])
  }

  /** The intent that hands the id to the main activity's typing route. */
  function TypingIntent(alarmId: int): Intent {
    Intent(ToMainActivity, None, map["route" := StrV(TypingRoute), "alarmId" := IntV(alarmId)])
  }

  /** The dismiss handler, back handler and `onDestroy`. Dismiss only exists once a view
      is shown; back is swallowed; destroying releases a held wake lock. */
  function OnUiEvent(a: Activity, e: UiEvent): (r: UiOutcome)
    ensures e.DismissClicked? && a.view.Some? ==>
      && r.commands == [StartService(StopIntent(a.view.value.alarmId)), StartActivity(TypingIntent(a.view.value.alarmId)), Finish]
      && r.activity.finishing
    ensures e.BackPressed? ==> r.activity == a && r.commands == []
    ensures e.Destroyed? ==> r.activity.wakeLock == NotHeld && r.commands == []
    ensures !e.Destroyed? ==> r.activity.wakeLock == a.wakeLock
  {
    match e
    case DismissClicked =>
      if a.view.Some? then
        var id := a.view.value.alarmId;
        UiOutcome(a.(finishing := true), [StartService(StopIntent(id)), StartActivity(TypingIntent(id)), Finish])
      else UiOutcome(a, [])
    case BackPressed => UiOutcome(a, [])
    case Destroyed => UiOutcome(a.(wakeLock := NotHeld), [])
  }

  function RunUi(a: Activity, events: seq<UiEvent>): (r: Activity)
    decreases |events|
  {
    if events == [] then a else RunUi(OnUiEvent(a, events[0]).activity, events[1..])
  }

  /** However the activity was created and whatever happened on screen, once it is
      destroyed the wake lock is no longer held. */
  lemma {:induction false} WakeLockReleasedOnDestroy(a: Activity, events: seq<UiEvent>)
    requires |events| >= 1 && events[|events| - 1] == Destroyed
    ensures RunUi(a, events).wakeLock == NotHeld
    decreases |events|
  {
    if |events| > 1 {
      WakeLockReleasedOnDestroy(OnUiEvent(a, events[0]).activity, events[1..]);
    }
  }
}
