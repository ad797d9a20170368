/** The broadcast receiver the scheduled timers fire into. It validates the id and
    forwards a single start command to the ring service; the repeating flag is read but
    changes nothing, and the ring activity is left for the service's notification to open. */
module TriggerReceiver {
  import opened Intents

  /** `commands` are the calls the receiver makes; `serviceStarted` says whether the
      platform accepted the service start. */
  datatype ReceiveOutcome = ReceiveOutcome(commands: seq<Command>, serviceStarted: bool)

  /** The start command forwarded for a valid id. */
  function StartFor(alarmId: int): Command {
    StartService(RingStartIntent(map[ExtraAlarmId := IntV(alarmId)]))
  }

  /** `onReceive`. `startThrows` is whether the platform refuses the service start; the
      receiver catches that and finishes normally. */
  function OnReceive(extras: Extras, startThrows: bool): (r: ReceiveOutcome)
    // a missing or non-int id stops the receiver before it issues anything
    ensures GetIntExtra(extras, ExtraAlarmId, -1) == -1 ==> r.commands == [] && !r.serviceStarted
    // a valid id is forwarded unchanged in exactly one start to the ring service
    ensures GetIntExtra(extras, ExtraAlarmId, -1) != -1 ==>
      && |r.commands| == 1
      && r.commands[0].StartService?
      && r.commands[0].intent.target == ToRingService
      && r.commands[0].intent.action == Some(ActionStartRing)
      && r.commands[0].intent.extras == map[ExtraAlarmId := IntV(GetIntExtra(extras, ExtraAlarmId, -1))]
      && (r.serviceStarted <==> !startThrows)
    // the ring activity is never launched from here
    ensures forall i :: 0 <= i < |r.commands| ==> !r.commands[i].StartActivity?
  {
    var alarmId := GetIntExtra(extras, ExtraAlarmId, -1);
    if alarmId == -1 then
      ReceiveOutcome([], false)
    else
      // IS_REPEATING is read afterwards only to log that a repeating alarm would need
      // re-arming; nothing is rescheduled
      ReceiveOutcome([StartFor(alarmId)], !startThrows)
  }

  /** The repeating flag has no influence on what the receiver does. */
  lemma RepeatingFlagIsIgnored(extras: Extras, repeating: bool, startThrows: bool)
    ensures OnReceive(extras[ExtraIsRepeating := BoolV(repeating)], startThrows) == OnReceive(extras, startThrows)
  {
  }

  /** A refused service start does not change what the receiver issued. */
  lemma FailedStartIsSwallowed(extras: Extras)
    ensures OnReceive(extras, true).commands == OnReceive(extras, false).commands
  {
  }
}
