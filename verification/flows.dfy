/** End-to-end paths across the components: what arrives at the ring service and the
    ring activity when an intent written by one file is read by another. Two of these
    paths lose the id on the way, because the writer and the reader disagree on an extra's
    name or type. */
module Flows {
  import opened Intents
  import AlarmScheduler
  import TriggerReceiver
  import FireReceiver
  import RingService
  import RingActivity
  import MainActivity

  /** Schedule with permission, let the timer fire, and the receiver forwards exactly the
      scheduled id, on which the ring service starts playing for that id. */
  lemma ScheduledAlarmRingsForItsId(reg: AlarmScheduler.Registry, id: int, time: int, repeating: bool, s: RingService.ServiceState)
    requires id != -1
    requires RingService.Valid(s)
    ensures var registered := AlarmScheduler.ScheduleAlarm(reg, true, id, time, repeating).registry;
      var fired := AlarmScheduler.Fire(registered, AlarmScheduler.KeyFor(id));
      && fired.Some?
      && GetIntExtra(fired.value.extras, ExtraAlarmId, -1) == id
      && TriggerReceiver.OnReceive(fired.value.extras, false).commands == [TriggerReceiver.StartFor(id)]
      && RingService.OnStartCommand(s, Some(TriggerReceiver.StartFor(id).intent), RingService.SetupOk).state.player
         == Some(RingService.Player(s.nextHandle, id, true))
  {
  }

  /** Once cancelled, a timer can no longer fire, so nothing reaches the receiver for it,
      whatever was scheduled before. */
  lemma CancelledAlarmNeverFires(reg: AlarmScheduler.Registry, canExact: bool, id: int, time: int, repeating: bool)
    ensures AlarmScheduler.Fire(AlarmScheduler.Cancel(AlarmScheduler.ScheduleAlarm(reg, canExact, id, time, repeating).registry, id),
                                AlarmScheduler.KeyFor(id)) == None
    ensures AlarmScheduler.Fire(AlarmScheduler.Cancel(MainActivity.ScheduleAlarm(reg, canExact, id, time, repeating).registry, id),
                                AlarmScheduler.KeyFor(id)) == None
  {
  }

  /** Whatever the app scheduled and cancelled before, once an id is cancelled no timer
      that fires carries that id, so the receiver never starts the ring service for it. */
  lemma CancelledIdNeverReachesReceiver(ops: seq<AlarmScheduler.Op>, id: int, key: AlarmScheduler.PendingKey, startThrows: bool)
    ensures var fired := AlarmScheduler.Fire(AlarmScheduler.Cancel(AlarmScheduler.ApplyAll(map[], ops), id), key);
      fired.Some? ==>
        && GetIntExtra(fired.value.extras, ExtraAlarmId, -1) != id
        && TriggerReceiver.StartFor(id) !in TriggerReceiver.OnReceive(fired.value.extras, startThrows).commands
  {
    var reg := AlarmScheduler.ApplyAll(map[], ops);
    AlarmScheduler.ApplyAllKeepsWellKeyed(map[], ops);
    AlarmScheduler.CancelRemovesEveryTimerForId(reg, id);
    var left := AlarmScheduler.Cancel(reg, id);
    if key in left {
      var extras := left[key].extras;
      assert GetIntExtra(extras, ExtraAlarmId, -1) != id;
      var cmds := TriggerReceiver.OnReceive(extras, startThrows).commands;
      var sent := GetIntExtra(extras, ExtraAlarmId, -1);
      assert cmds == [] || cmds == [TriggerReceiver.StartFor(sent)];
      assert TriggerReceiver.StartFor(sent).intent.extras[ExtraAlarmId] == IntV(sent);
      assert TriggerReceiver.StartFor(id).intent.extras[ExtraAlarmId] == IntV(id);
    }
  }

  /** The scheduler accepts id -1; when that timer fires the receiver drops it. */
  lemma MinusOneIsScheduledButDropped(reg: AlarmScheduler.Registry, time: int, repeating: bool)
    ensures var registered := AlarmScheduler.ScheduleAlarm(reg, true, -1, time, repeating).registry;
      var fired := AlarmScheduler.Fire(registered, AlarmScheduler.KeyFor(-1));
      && fired.Some?
      && TriggerReceiver.OnReceive(fired.value.extras, false).commands == []
  {
  }

  /** The notification passes the id as a string, but the activity reads an int: opened
      from the notification, the activity always finishes at once, deactivates nothing
      and shows no label. */
  lemma NotificationOpensActivityThatFinishes(id: int, store: RingActivity.Store, wakeLockOk: bool, layoutOk: bool)
    ensures var extras := RingService.NotificationFor(id).fullScreen.extras;
      var r := RingActivity.OnCreate(extras, store, wakeLockOk, layoutOk);
      && r.commands == [Finish]
      && r.store == store
      && r.activity.view.None?
  {
  }

  /** A restart from the UI framework writes the id as "alarm_id", but the service reads
      "ALARM_ID": the start is refused, and a service that was ringing stops itself and,
      once torn down, releases its player. The activity it opens does get the int id. */
  lemma RestartStartIsRefused(args: Extras, reg: AlarmScheduler.Registry, canExact: bool, s: RingService.ServiceState,
                              setup: RingService.PlayerSetup, store: RingActivity.Store)
    requires MainActivity.IntArg(args, "alarmId") != -1
    ensures var id := MainActivity.IntArg(args, "alarmId");
      var cmds := MainActivity.OnMethodCall("restartAlarmFromFlutter", args, reg, canExact).commands;
      && |cmds| == 2
      && RingService.Rejected(Some(cmds[0].intent))
      && RingService.OnStartCommand(s, Some(cmds[0].intent), setup).mode == RingService.StartNotSticky
      && RingService.OnStartCommand(s, Some(cmds[0].intent), setup).state.player == s.player
      && RingService.OnStartCommand(s, Some(cmds[0].intent), setup).effects == [RingService.StopSelf]
      && !RingService.OnStartCommand(s, Some(cmds[0].intent), setup).state.running
      // the refused start stops a ringing service; its teardown releases the player
      && RingService.OnDestroy(RingService.OnStartCommand(s, Some(cmds[0].intent), setup).state).effects
         == RingService.ReleaseEffects(s.player)
      && RingService.OnDestroy(RingService.OnStartCommand(s, Some(cmds[0].intent), setup).state).state.player.None?
      && RingActivity.OnCreate(cmds[1].intent.extras, store, true, true).store == RingActivity.Deactivate(store, id)
      && RingActivity.OnCreate(cmds[1].intent.extras, store, true, true).activity.view.Some?
  {
  }

  /** The fire receiver's start carries no id, so the service refuses it; the activity it
      opens gets the id as a string, so it finishes at once as well. */
  lemma FireReceiverPathIsRefused(extras: Extras, s: RingService.ServiceState, setup: RingService.PlayerSetup,
                                  store: RingActivity.Store, wakeLockOk: bool, layoutOk: bool)
    ensures var cmds := FireReceiver.OnReceive(extras, false);
      && RingService.Rejected(Some(cmds[0].intent))
      && RingService.OnStartCommand(s, Some(cmds[0].intent), setup).effects == [RingService.StopSelf]
      && RingActivity.OnCreate(cmds[1].intent.extras, store, wakeLockOk, layoutOk).commands == [Finish]
  {
  }

  /** Dismissing the alarm stops the service with nothing left playing, and the main
      activity forwards the id to the typing page. */
  lemma DismissStopsRingingAndOpensTyping(a: RingActivity.Activity, s: RingService.ServiceState, setup: RingService.PlayerSetup)
    requires a.view.Some? && a.view.value.alarmId != -1  // as in every view OnCreate shows
    requires RingService.Valid(s)
    ensures var cmds := RingActivity.OnUiEvent(a, RingActivity.DismissClicked).commands;
      var after := RingService.OnStartCommand(s, Some(cmds[0].intent), setup).state;
      && after.player.None?
      && after.live == {}
      && after.foreground.None?
      && !after.running
      && MainActivity.OnCreate(cmds[1].intent.extras, true) == [InvokeFlutter("openTypingPage", a.view.value.alarmId)]
  {
  }
}
