# Alarm firing subsystem: a Dafny model

This project models the decision logic of the native Android alarm-firing code of an
alarm-clock app. That code schedules exact OS timers, reacts when a timer fires, runs a
foreground ring service that owns the alarm sound, shows a full-screen ring activity,
and answers the UI framework over a method channel.

Every entry point is a pure function over abstract platform state:

- **Intents** (`intents.dfy`): an intent is a target component, an optional action and a
  map of typed extras (`IntV | StrV | BoolV`). `GetIntExtra`, `GetStringExtra` and
  `GetBooleanExtra` return the fallback when the key is missing or holds another type,
  as the platform's getters do. Every outbound call (starting a service or activity,
  invoking the UI framework, finishing) is a `Command`.
- **Ring service** (`ring_service.dfy`): a state machine over
  `ServiceState(running, foreground, player, live, nextHandle)`. Each command returns the
  new state and the ordered list of platform effects. `live` holds every media player that
  was created and not released. The invariant `Valid` says the only live player is the one
  the service holds.
- **Timer registry** (`alarm_scheduler.dfy`): a map from the pending-broadcast identity
  `(requestCode = id, action = "com.example.alarm.ALARM_TRIGGER_" + id)` to a timer
  `(time, kind, extras)`. Scheduling is an upsert guarded by the exact-alarm permission.
  Cancelling removes the same key. The scheduler object and the main activity's private
  helpers share this code and differ only in the timer kind.
- **Receivers** (`trigger_receiver.dfy`, `fire_receiver.dfy`): functions from the fired
  broadcast's extras to the commands the receiver issues.
- **Ring activity** (`ring_activity.dfy`): stored alarm records are
  `Parsed(id, caption, isActive, repeating) | Corrupt(raw)`. The module models
  deactivation, label lookup, the display-label fallback, `onCreate`, and the dismiss, back
  and destroy handlers, including the wake lock.
- **Main activity** (`main_activity.dfy`): the method-channel handler and the forwarding
  of the `/typing` route.
- **Flows** (`flows.dfy`): end-to-end lemmas. An intent written by one file is fed to the
  component that reads it.

`decimal.dfy` renders integers as Kotlin's string templates do. The id goes into the
trigger action, the notification extra and the fallback label this way. Its parse
round-trip makes the rendering injective, so two ids never share an action string.

Two cross-file mismatches are proved, not hidden:

- The notification's full-screen intent carries the id as a string. The ring activity reads
  an int, so an activity opened from the notification always finishes at once
  (`Flows.NotificationOpensActivityThatFinishes`).
- The restart path writes the id under `"alarm_id"`. The service reads `"ALARM_ID"`, so
  that start is refused (`Flows.RestartStartIsRefused`).

In these respects the code does less than an alarm app usually does, and the model follows the code:

- The service uses one fixed notification id (123), not one per alarm.
- A failed player setup makes the service stop itself; it does not stay in the foreground
  without sound.
- Only the bundled tone is used; no per-alarm sound path is looked up.
- A repeating alarm is never re-armed.
- There is no pending-navigation query.

## Model

| member | source | states |
|---|---|---|
| RingService.OnStartCommand | android/app/src/main/kotlin/com/example/alarm/RingService.kt:31-56 | A start without an int `ALARM_ID` returns NOT_STICKY, and its only effect is stopSelf: no foreground, no player change. Every other command enters the foreground with the notification first, exactly once, and returns START_STICKY. A start releases the old player before creating one; on success it holds a playing player for the id, and on failure it holds none and stops. A stop leaves no player and no foreground, and stops the service. Any other action, including a null intent, keeps the player and stops the service exactly when nothing is playing. With the corrected `StartSound` (see Findings), Valid is preserved. |
| RingService.Dispatch | android/app/src/main/kotlin/com/example/alarm/RingService.kt:46-53 | The `when (action)` branch runs start, stop, or the "stop only if silent" fallback. It never re-enters the foreground. A start releases the old player first; it ends with a playing player for the id, or with none and the service stopping. A stop leaves neither player nor foreground. Any other action keeps player and foreground, and the service keeps running only while something plays. With the corrected `StartSound`, Valid is preserved. |
| RingService.StartSound | android/app/src/main/kotlin/com/example/alarm/RingService.kt:58-82 | The effects begin with stopping and releasing the previous player. Then either a new playing player for the id is created and held, or setup fails: no player is held, no player stays live, and the service stops itself. Valid is preserved. |
| RingService.StopSoundOnly | android/app/src/main/kotlin/com/example/alarm/RingService.kt:84-90 | Afterwards no player is held and none is live. A playing player is stopped before it is released. With no player this is a no-op. |
| RingService.StopSoundAndService | android/app/src/main/kotlin/com/example/alarm/RingService.kt:92-97 | No player, no foreground, service stopping. The effects are the release, then leaving the foreground, then stopSelf. |
| RingService.NotificationFor | android/app/src/main/kotlin/com/example/alarm/RingService.kt:99-123 | The notification is ongoing, not auto-cancelled, and on the alarm channel. Its full-screen intent targets the ring activity with request code id and carries the id as the string extra `"id"`. |
| RingService.OnDestroy | android/app/src/main/kotlin/com/example/alarm/RingService.kt:140-143 | Teardown always releases the player: none is held or live afterwards. |
| RingService.Run | android/app/src/main/kotlin/com/example/alarm/RingService.kt:16-143 | With the corrected `StartSound`, any sequence of deliveries and teardowns keeps the resource invariant Valid. |
| RingService.RunHoldsAtMostOnePlayer | android/app/src/main/kotlin/com/example/alarm/RingService.kt:58-90 | With the corrected `StartSound`, from the initial state at most one player is ever alive, and it is the one the service holds. |
| RingService.StopIsIdempotent | android/app/src/main/kotlin/com/example/alarm/RingService.kt:84-97 | A second stop releases nothing and ends in the same state as the first. |
| RingService.StartSoundAsWritten | android/app/src/main/kotlin/com/example/alarm/RingService.kt:58-82 | As written: when a call on the freshly built player throws, the player is left live, never released, and not held. |
| RingService.AsWrittenSetupFailureLeaksPlayer | android/app/src/main/kotlin/com/example/alarm/RingService.kt:61-81 | A concrete run of the code as written that breaks the resource invariant. |
| RingService.AsWrittenLeakSurvivesRestart | android/app/src/main/kotlin/com/example/alarm/RingService.kt:58-90 | As written, a failed setup, the teardown, then a successful start leave two player instances alive while the service holds one: the at-most-one-player property fails for the code as it stands. |
| AlarmScheduler.Register | android/app/src/main/kotlin/com/example/alarm/AlarmScheduler.kt:22-55 | With permission: an upsert of `Timer(time, kind, {ALARM_ID: id, IS_REPEATING: repeating})` under `KeyFor(id)`, with no command. Without permission: only the consent-screen launch; no key is added and no time or kind changes, but an existing entry takes the new extras. No other key is ever touched. |
| AlarmScheduler.ScheduleAlarm | android/app/src/main/kotlin/com/example/alarm/AlarmScheduler.kt:22-55 | The scheduler object registers an alarm-clock timer. Without permission, the key set is unchanged. |
| AlarmScheduler.Cancel | android/app/src/main/kotlin/com/example/alarm/AlarmScheduler.kt:60-75 | Removes exactly the id's key and leaves every other entry as it was. Cancelling an id with no timer changes nothing. |
| AlarmScheduler.Fire | android/app/src/main/kotlin/com/example/alarm/AlarmScheduler.kt:26-37 | A timer fires only if registered, delivering its action and stored extras to the trigger receiver. |
| AlarmScheduler.KeysAreDistinct | android/app/src/main/kotlin/com/example/alarm/AlarmScheduler.kt:29-37 | Different ids get different keys, and even different action strings. |
| AlarmScheduler.LastWriteWins | android/app/src/main/kotlin/com/example/alarm/AlarmScheduler.kt:33-52 | Scheduling an id twice equals scheduling it once with the later arguments: one entry, at the later time. |
| AlarmScheduler.CancelUndoesSchedule | android/app/src/main/kotlin/com/example/alarm/AlarmScheduler.kt:63-73 | Cancel after schedule equals cancel alone. It restores the registry when the id had no timer before. |
| AlarmScheduler.CancelIsIdempotent | android/app/src/main/kotlin/com/example/alarm/AlarmScheduler.kt:60-75 | Cancelling twice is cancelling once. |
| AlarmScheduler.DistinctIdsCommute | android/app/src/main/kotlin/com/example/alarm/AlarmScheduler.kt:29-71 | Scheduling one id and cancelling another commute. |
| AlarmScheduler.ApplyKeepsWellKeyed | android/app/src/main/kotlin/com/example/alarm/AlarmScheduler.kt:26-37 | Either registration and cancel keep every timer under the key of the id in its extras. |
| AlarmScheduler.ApplyAllKeepsWellKeyed | android/app/src/main/kotlin/com/example/alarm/AlarmScheduler.kt:22-75 | Every sequence of schedule and cancel calls keeps the registry well keyed. |
| AlarmScheduler.CancelRemovesEveryTimerForId | android/app/src/main/kotlin/com/example/alarm/AlarmScheduler.kt:60-75 | In a well-keyed registry, after cancel no remaining timer carries the id. |
| TriggerReceiver.OnReceive | android/app/src/main/kotlin/com/example/alarm/AlarmTriggerReceiver.kt:13-59 | A missing or non-int `ALARM_ID` yields no commands. A valid id yields exactly one start to the ring service, carrying `ALARM_ID=id`. The ring activity is never launched. A refused start only clears `serviceStarted`. |
| TriggerReceiver.RepeatingFlagIsIgnored | android/app/src/main/kotlin/com/example/alarm/AlarmTriggerReceiver.kt:50-56 | The outcome does not depend on `IS_REPEATING`: nothing is rescheduled. |
| TriggerReceiver.FailedStartIsSwallowed | android/app/src/main/kotlin/com/example/alarm/AlarmTriggerReceiver.kt:29-38 | A throwing service start does not change the commands issued. |
| FireReceiver.IdString | android/app/src/main/kotlin/com/example/alarm/AlarmFireReceiver.kt:17 | The id is the string extra `"id"`, or `"-1"` when it is absent or not a string. |
| FireReceiver.OnReceive | android/app/src/main/kotlin/com/example/alarm/AlarmFireReceiver.kt:15-37 | First a ring-service start with no extras. If the platform accepts it, then a ring-activity launch carrying the id string unchanged. The start is not guarded, so when it throws, the launch never happens. |
| RingActivity.DeactivateRecords | android/app/src/main/kotlin/com/example/alarm/AlarmRingActivity.kt:182-194 | Corrupt records are kept verbatim. Every record with the id, repeating or not, becomes inactive and is otherwise unchanged. Every other parsed record is unchanged. |
| RingActivity.Deactivate | android/app/src/main/kotlin/com/example/alarm/AlarmRingActivity.kt:178-199 | An absent list stays absent (nothing is written); a present one is mapped record by record. |
| RingActivity.DeactivateIsIdempotent | android/app/src/main/kotlin/com/example/alarm/AlarmRingActivity.kt:178-195 | Deactivating twice equals deactivating once. |
| RingActivity.LookupLabel | android/app/src/main/kotlin/com/example/alarm/AlarmRingActivity.kt:132-140 | A returned label is non-empty and is the label of some record with the id. |
| RingActivity.GetAlarmLabel | android/app/src/main/kotlin/com/example/alarm/AlarmRingActivity.kt:126-145 | Id -1 or an absent list gives null. Any label returned is non-empty. |
| RingActivity.LookupFindsFirstMatch | android/app/src/main/kotlin/com/example/alarm/AlarmRingActivity.kt:132-138 | If every earlier record parses and belongs to another id, the result is the first match's label, or null when that label is missing or empty. |
| RingActivity.LookupAbortsOnCorrupt | android/app/src/main/kotlin/com/example/alarm/AlarmRingActivity.kt:132-144 | A corrupt record reached before any match makes the whole lookup null, even if a match follows. |
| RingActivity.LookupWithoutMatch | android/app/src/main/kotlin/com/example/alarm/AlarmRingActivity.kt:132-140 | With no matching record the lookup is null. |
| RingActivity.CorruptRecordSkippedOnlyByDeactivation | android/app/src/main/kotlin/com/example/alarm/AlarmRingActivity.kt:132-193 | On `[Corrupt, Parsed(5, "Work")]`, deactivation still deactivates record 5, while the label lookup for 5 gives null. |
| RingActivity.LookupIgnoresActiveFlag | android/app/src/main/kotlin/com/example/alarm/AlarmRingActivity.kt:132-140 | The lookup does not depend on the active flags. |
| RingActivity.LabelUnaffectedByDeactivation | android/app/src/main/kotlin/com/example/alarm/AlarmRingActivity.kt:93-102 | Reading the label after deactivating gives the same result as reading it before, when the rewritten records are read back in their old order. |
| RingActivity.LookupSharedCaption | android/app/src/main/kotlin/com/example/alarm/AlarmRingActivity.kt:132-140 | With no corrupt record, and all records for the id carrying label c, the lookup gives c (null if c is empty) when such a record exists, and null otherwise. |
| RingActivity.LabelUnaffectedByReorder | android/app/src/main/kotlin/com/example/alarm/AlarmRingActivity.kt:182-195 | The rewritten string set may come back in any order and with duplicates merged. The label read back is still the one read before, provided no record is corrupt and all records for the id carry the same label. |
| RingActivity.DisplayLabel | android/app/src/main/kotlin/com/example/alarm/AlarmRingActivity.kt:102-109 | The shown label is never empty. It is the fetched label when that is non-empty, otherwise `"Alarm (ID: " + id + ")"`. |
| RingActivity.OnCreate | android/app/src/main/kotlin/com/example/alarm/AlarmRingActivity.kt:30-124 | The 2-minute wake lock is held whenever acquiring it works, on every path. With no layout or no int id: finish only, store untouched, nothing shown. Otherwise: the store's records for the id are deactivated, and the view shows the id with its display label. |
| RingActivity.OnUiEvent | android/app/src/main/kotlin/com/example/alarm/AlarmRingActivity.kt:111-175 | Dismiss issues, in order: a stop to the service with `ALARM_ID=id`, the main activity with route `/typing` and `alarmId=id`, then finish. Back changes nothing. Destroy leaves no wake lock held. |
| RingActivity.WakeLockReleasedOnDestroy | android/app/src/main/kotlin/com/example/alarm/AlarmRingActivity.kt:160-171 | Whatever events came before, a final destroy leaves the wake lock released. |
| MainActivity.OnMethodCall | android/app/src/main/kotlin/com/example/alarm/MainActivity.kt:29-88 | Restart without `alarmId`: INVALID_ID and no commands. Restart with it: a service start, then the activity with the int id, then success(null). Schedule without id or time: INVALID_ARGS and registry unchanged; otherwise the registry operation, with `isRepeating` defaulting to false, and a `true` reply even when the permission guard aborted. Cancel without id: INVALID_ARGS; otherwise the key is removed and `true` is replied. Other methods: notImplemented, with nothing changed. |
| MainActivity.ScheduleAlarm | android/app/src/main/kotlin/com/example/alarm/MainActivity.kt:112-144 | With permission, an exact-while-idle timer under the same key the scheduler object uses. Without permission, the key set is unchanged. |
| MainActivity.OnCreate | android/app/src/main/kotlin/com/example/alarm/MainActivity.kt:94-107 | `openTypingPage(alarmId)` is forwarded exactly when the route is `/typing`, the id is not -1, and an engine is attached. |
| MainActivity.ScheduleReportsSuccessWithoutPermission | android/app/src/main/kotlin/com/example/alarm/MainActivity.kt:71-72 | Without permission, a valid schedule call still replies `true`, adds no key and only opens the consent screen. |
| Decimal.IntToString | android/app/src/main/kotlin/com/example/alarm/AlarmScheduler.kt:29 | The rendering is non-empty and starts with `-` exactly for negative ids; the rest is digits. |
| Decimal.ParseNatToString | android/app/src/main/kotlin/com/example/alarm/AlarmScheduler.kt:29 | Parsing the digits of n gives n back. |
| Decimal.IntToStringInjective | android/app/src/main/kotlin/com/example/alarm/AlarmScheduler.kt:29 | Two ids never render to the same text. |
| Flows.ScheduledAlarmRingsForItsId | android/app/src/main/kotlin/com/example/alarm/AlarmTriggerReceiver.kt:14-28 | Round trip: schedule with permission, fire, and the receiver forwards exactly the scheduled id. The service then plays for that id. |
| Flows.CancelledAlarmNeverFires | android/app/src/main/kotlin/com/example/alarm/AlarmScheduler.kt:60-75 | After cancel, the id's own timer cannot fire, whichever scheduler registered it. |
| Flows.CancelledIdNeverReachesReceiver | android/app/src/main/kotlin/com/example/alarm/AlarmScheduler.kt:60-75 | Take any registry built by schedule and cancel calls. After cancelling an id, no timer that fires carries that id. So the trigger receiver never starts the ring service for it. |
| Flows.MinusOneIsScheduledButDropped | android/app/src/main/kotlin/com/example/alarm/AlarmTriggerReceiver.kt:14-20 | Id -1 is registered without complaint, and when it fires the receiver issues nothing. |
| Flows.NotificationOpensActivityThatFinishes | android/app/src/main/kotlin/com/example/alarm/AlarmRingActivity.kt:83-90 | Opened from the notification (id as a string), the activity finishes at once, deactivates nothing and shows nothing. |
| Flows.RestartStartIsRefused | android/app/src/main/kotlin/com/example/alarm/MainActivity.kt:43-56 | The restart's service start (`"alarm_id"`) is refused: NOT_STICKY and stopSelf only. A ringing service thus stops itself, and its teardown releases the player. The activity it opens receives the int id and deactivates the record. |
| Flows.FireReceiverPathIsRefused | android/app/src/main/kotlin/com/example/alarm/AlarmFireReceiver.kt:20-36 | The fire receiver's start is refused by the service, and the activity it opens finishes at once. |
| Flows.DismissStopsRingingAndOpensTyping | android/app/src/main/kotlin/com/example/alarm/AlarmRingActivity.kt:111-121 | After dismiss, the service holds and keeps alive no player, has no foreground and is stopping. The main activity forwards the id to the typing page. |

## Left out

- Platform version branching (`startForegroundService` vs `startService`, window flags vs `setShowWhenLocked`, PendingIntent flag variants) is left out; every service start is one `StartService` command.
- The notification channel setup and the notification's icon are platform plumbing and are left out. So are the notification's tap priority and category.
- Media player internals (audio attributes, looping, data source, prepare) are reduced to a handle and a `PlayerSetup` outcome.
- JSON parsing and the shared-preferences I/O are replaced by the `AlarmRecord` datatype; re-serialisation is not modelled. The stored string set is modelled as a sequence in iteration order, so set de-duplication after deactivation is not modelled.
- The current time and date display depends on the locale and the clock, so it is left out.
- Logging, the Flutter engine and the method-channel transport are left out.
- Wake-lock hardware behaviour is left out; the lock is `Held(120000)` or `NotHeld`, and its expiry by timeout is not modelled.
- Exceptions that are caught and only logged are left out: window flags, the dismiss handler's `startService`, and the preferences write. Their commands are still issued.
- Kotlin's 32-bit `Int` and 64-bit `Long` are modelled as unbounded integers. The core does no arithmetic on ids or times; it only compares them with -1.
- Constants.kt is not part of this model beyond the string values it shares with the other files.
- MainActivity.OnMethodCall: an argument of the wrong type reads as missing (-1 or false); the Kotlin code would throw a ClassCastException instead.
- RingService.OnStartCommand: `stopSelf` is modelled as `running := false`. The later platform call to `onDestroy` is the separate `OnDestroy` transition.
- RingService.OnStartCommand: runs the corrected `StartSound`. For the code as written, Valid is not preserved after a setup failure (see Findings).
- RingService.Dispatch: runs the corrected `StartSound`, so its Valid clause does not hold for the code as written.
- RingService.Run: runs the corrected `StartSound`, so Valid is kept only for the corrected code. `AsWrittenLeakSurvivesRestart` shows two live players for the code as written.
- RingService.RunHoldsAtMostOnePlayer: holds for the corrected `StartSound` only, not for the code as written.
- RingActivity.LabelUnaffectedByDeactivation: assumes the rewritten records are read back in their old order. The source re-reads a new string set with no order promise. `LabelUnaffectedByReorder` removes that assumption when no record is corrupt and all records for the id share one label. Otherwise the order decides, because a corrupt record reached first aborts the lookup.
- Flows.CancelledAlarmNeverFires: covers the id's own key over any registry. That no other key carries the id holds only for registries built by the app's own calls: `Flows.CancelledIdNeverReachesReceiver`.
- MainActivity.OnMethodCall: the restart's `startService` is not guarded. If it throws, the exception leaves the handler before the activity launch and the reply, and what the UI framework then answers is not modelled.

## Findings

| source | as written | input that shows it | evidently intended | confidence | as-written member | corrected member |
|---|---|---|---|---|---|---|
| android/app/src/main/kotlin/com/example/alarm/RingService.kt:61-81 | `mediaPlayer = MediaPlayer().apply { ... prepare(); start() }` assigns the player only after the block completes. If `setDataSource`, `prepare` or `start` throws, the constructed player is never stored and never released. | A start for id 7 from a stopped service whose bundled tone fails to prepare: player instance 0 is created, the field stays null, and nothing releases instance 0. | The half-built player is released in the failure path, so that no player outlives the service's reference to it. | medium: only the platform finalizer would reclaim it (not executed) | RingService.StartSoundAsWritten, RingService.AsWrittenSetupFailureLeaksPlayer, RingService.AsWrittenLeakSurvivesRestart | RingService.StartSound |
