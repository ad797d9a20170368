/** Intents as the alarm subsystem's components exchange them: a target component, an
    optional action string and a bag of typed extras. Every outbound platform call the
    core makes (starting a service or an activity, calling into the UI framework,
    finishing an activity) is a Command value, so each entry point is a pure function
    from its inputs to the commands it issues. */
module Intents {

  datatype Option<T> = None | Some(value: T)

  /** A value stored under an extra or method-channel argument key; the tag is the
      Java type it was written with. */
  datatype Value = IntV(i: int) | StrV(s: string) | BoolV(b: bool)

  type Extras = map<string, Value>

  datatype Target =
    | ToRingService
    | ToRingActivity
    | ToMainActivity
    | ToTriggerReceiver
    | ToExactAlarmSettings

  datatype Intent = Intent(target: Target, action: Option<string>, extras: Extras)

  datatype Command =
    | StartService(intent: Intent)
    | StartActivity(intent: Intent)
    | InvokeFlutter(name: string, alarmId: int)
    | Finish

  // Action and extra names shared across the Kotlin files.
  const ActionStartRing: string := "com.example.alarm.ACTION_START_RING"
  const ActionStopRing: string := "com.example.alarm.ACTION_STOP_RING"
  const TriggerActionPrefix: string := "com.example.alarm.ALARM_TRIGGER_"
  const ActionRequestExactAlarm: string := "android.settings.REQUEST_SCHEDULE_EXACT_ALARM"
  const ExtraAlarmId: string := "ALARM_ID"
  const ExtraIsRepeating: string := "IS_REPEATING"

  /** The intent that opens the platform's exact-alarm consent screen. */
  const ExactAlarmSettings: Intent := Intent(ToExactAlarmSettings, Some(ActionRequestExactAlarm), map[])

  /** `Intent.getIntExtra(key, fallback)`: the stored integer, or the fallback when the
      key is missing or holds a value of another type. */
  function GetIntExtra(e: Extras, key: string, fallback: int): (r: int)
    ensures key in e && e[key].IntV? ==> r == e[key].i
    ensures key !in e || !e[key].IntV? ==> r == fallback
  {
    if key in e && e[key].IntV? then e[key].i else fallback
  }

  /** `Intent.getStringExtra(key)`: null unless a string is stored under the key. */
  function GetStringExtra(e: Extras, key: string): (r: Option<string>)
    ensures r.Some? <==> key in e && e[key].StrV?
    ensures r.Some? ==> r.value == e[key].s
  {
    if key in e && e[key].StrV? then Some(e[key].s) else None
  }

  /** `Intent.getBooleanExtra(key, fallback)`. */
  function GetBooleanExtra(e: Extras, key: string, fallback: bool): (r: bool)
    ensures key in e && e[key].BoolV? ==> r == e[key].b
    ensures key !in e || !e[key].BoolV? ==> r == fallback
  {
    if key in e && e[key].BoolV? then e[key].b else fallback
  }

  /** The `ACTION_START_RING` intent every start path sends to the ring service. */
  function RingStartIntent(extras: Extras): Intent {
    Intent(ToRingService, Some(ActionStartRing), extras)
  }
}
