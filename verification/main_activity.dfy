/** The main activity: the method-channel handler the UI framework calls into, and the
    forwarding of a "/typing" route it was opened with. Its private schedule and cancel
    helpers are the scheduler's registry operations with the exact-while-idle timer kind. */
module MainActivity {
  import opened Intents
  import AlarmScheduler

  datatype Reply =
    | Success(value: Option<Value>)
    | Error(code: string, message: string)
    | NotImplemented

  datatype CallOutcome = CallOutcome(reply: Reply, commands: seq<Command>, registry: AlarmScheduler.Registry)

  /** `call.argument<Int>(key) ?: -1` and the like: a missing argument reads as the fallback. */
  function IntArg(args: Extras, key: string): int {
    GetIntExtra(args, key, -1)
  }

  /** The two calls of a valid restart: the service start (whose id extra is spelled
      "alarm_id") and the ring activity opened with an int id. */
  function RestartCommands(id: int): seq<Command> {
    [ StartService(RingStartIntent(map["alarm_id" := IntV(id)])),
      StartActivity(Intent(ToRingActivity, None, map["id" := IntV(id)])) ]
  }

  /** The private `scheduleAlarm`. */
  function ScheduleAlarm(reg: AlarmScheduler.Registry, canExact: bool, id: int, time: int, repeating: bool): (r: AlarmScheduler.Outcome)
    ensures canExact ==>
      && AlarmScheduler.KeyFor(id) in r.registry
      && r.registry[AlarmScheduler.KeyFor(id)] == AlarmScheduler.Timer(time, AlarmScheduler.ExactAllowWhileIdle, AlarmScheduler.TriggerExtras(id, repeating))
    ensures !canExact ==> r.registry.Keys == reg.Keys
  {
    AlarmScheduler.Register(reg, canExact, id, time, repeating, AlarmScheduler.ExactAllowWhileIdle)
  }

  /** The method-channel handler. `canExact` is whether exact alarms are permitted. */
  function OnMethodCall(name: string, args: Extras, reg: AlarmScheduler.Registry, canExact: bool): (r: CallOutcome)
    // restart: refused without an id, otherwise the two restart calls and a null success
    ensures name == "restartAlarmFromFlutter" && IntArg(args, "alarmId") == -1 ==>
      r.reply.Error? && r.reply.code == "INVALID_ID" && r.commands == [] && r.registry == reg
    ensures name == "restartAlarmFromFlutter" && IntArg(args, "alarmId") != -1 ==>
      && r.reply == Success(None)
      && r.commands == RestartCommands(IntArg(args, "alarmId"))
      && r.registry == reg
    // schedule: both id and time are required; the repeating flag defaults to false
    ensures name == "scheduleNativeAlarm" && (IntArg(args, "id") == -1 || IntArg(args, "timeInMillis") == -1) ==>
      r.reply.Error? && r.reply.code == "INVALID_ARGS" && r.commands == [] && r.registry == reg
    ensures name == "scheduleNativeAlarm" && IntArg(args, "id") != -1 && IntArg(args, "timeInMillis") != -1 ==>
      var o := ScheduleAlarm(reg, canExact, IntArg(args, "id"), IntArg(args, "timeInMillis"),
                             GetBooleanExtra(args, "isRepeating", false));
      // true is answered even when the permission guard abandoned the registration
      && r.reply == Success(Some(BoolV(true)))
      && r.registry == o.registry
      && r.commands == o.commands
    // cancel: an id is required; the key is removed and true answered
    ensures name == "cancelNativeAlarm" && IntArg(args, "id") == -1 ==>
      r.reply.Error? && r.reply.code == "INVALID_ARGS" && r.commands == [] && r.registry == reg
    ensures name == "cancelNativeAlarm" && IntArg(args, "id") != -1 ==>
      && r.reply == Success(Some(BoolV(true)))
      && r.registry == AlarmScheduler.Cancel(reg, IntArg(args, "id"))
      && r.commands == []
    // anything else is not implemented and changes nothing
    ensures name !in {"restartAlarmFromFlutter", "scheduleNativeAlarm", "cancelNativeAlarm"} ==>
      r.reply == NotImplemented && r.commands == [] && r.registry == reg
  {
    if name == "restartAlarmFromFlutter" then
      var id := IntArg(args, "alarmId");
      if id == -1 then CallOutcome(Error("INVALID_ID", "Alarm ID is missing or invalid."), [], reg)
      else CallOutcome(Success(None), RestartCommands(id), reg)
    else if name == "scheduleNativeAlarm" then
      var id := IntArg(args, "id");
      var time := IntArg(args, "timeInMillis");
      var repeating := GetBooleanExtra(args, "isRepeating", false);
      if id == -1 || time == -1 then
        CallOutcome(Error("INVALID_ARGS", "Invalid ID or timeInMillis for scheduling."), [], reg)
      else
        var o := ScheduleAlarm(reg, canExact, id, time, repeating);
        CallOutcome(Success(Some(BoolV(true))), o.commands, o.registry)
    else if name == "cancelNativeAlarm" then
      var id := IntArg(args, "id");
      if id == -1 then CallOutcome(Error("INVALID_ARGS", "Invalid ID for cancelling."), [], reg)
      else CallOutcome(Success(Some(BoolV(true))), [], AlarmScheduler.Cancel(reg, id))
    else
      CallOutcome(NotImplemented, [], reg)
  }

  /** `onCreate`: forward `openTypingPage` to the UI framework when opened on the typing
      route with an id; `engineAttached` is whether a Flutter engine is there to call. */
  function OnCreate(extras: Extras, engineAttached: bool): (r: seq<Command>)
    ensures r != [] <==>
      engineAttached && GetStringExtra(extras, "route") == Some("/typing") && GetIntExtra(extras, "alarmId", -1) != -1
    ensures r != [] ==> r == [InvokeFlutter("openTypingPage", GetIntExtra(extras, "alarmId", -1))]
  {
    var route := GetStringExtra(extras, "route");
    var alarmId := GetIntExtra(extras, "alarmId", -1);
    if route == Some("/typing") && alarmId != -1 && engineAttached then
      [InvokeFlutter("openTypingPage", alarmId)]
    else []
  }

  /** Without the permission a valid schedule call still answers true, yet registers nothing new. */
  lemma ScheduleReportsSuccessWithoutPermission(reg: AlarmScheduler.Registry, id: int, time: int)
    requires id != -1 && time != -1
    ensures var r := OnMethodCall("scheduleNativeAlarm", map["id" := IntV(id), "timeInMillis" := IntV(time)], reg, false);
      && r.reply == Success(Some(BoolV(true)))
      && r.registry.Keys == reg.Keys
      && r.commands == [StartActivity(ExactAlarmSettings)]
  {
  }
}
