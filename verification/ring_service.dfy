/** The ring service: a foreground service that owns the alarm's media player.
    Each delivered command is a pure transition on ServiceState that also returns the
    ordered platform effects it performs, so "foreground first" and "release before
    create" are statements about positions in that sequence. */
module RingService {
  import opened Intents
  import Decimal

  const NotificationId: int := 123
  const ChannelId: string := "alarm_ring_channel"

  datatype StartMode = StartSticky | StartNotSticky

  /** A native media player instance; `handle` tells instances apart. */
  datatype Player = Player(handle: nat, alarmId: int, playing: bool)

  datatype Notification = Notification(
    channel: string,
    title: string,
    text: string,
    ongoing: bool,
    autoCancel: bool,
    fullScreenRequestCode: int,
    fullScreen: Intent)

  /** `running` is false once the service has asked to be stopped; `live` holds every
      player instance that has been created and not yet released, whether or not the
      `player` field still refers to it. */
  datatype ServiceState = ServiceState(
    running: bool,
    foreground: Option<Notification>,
    player: Option<Player>,
    live: set<nat>,
    nextHandle: nat)

  datatype Effect =
    | EnterForeground(notificationId: int, notification: Notification)
    | StopPlayback(handle: nat)
    | ReleasePlayer(handle: nat)
    | CreatePlayer(handle: nat, alarmId: int)
    | StartPlayback(handle: nat)
    | LeaveForeground
    | StopSelf

  /** How building the player goes: it works, the constructor itself throws, or one of
      the calls on the constructed player (data source, prepare, start) throws. */
  datatype PlayerSetup = SetupOk | FailsBeforeCreate | FailsAfterCreate

  datatype Step = Step(state: ServiceState, effects: seq<Effect>)

  datatype CommandOutcome = CommandOutcome(state: ServiceState, effects: seq<Effect>, mode: StartMode)

  const Stopped: ServiceState := ServiceState(false, None, None, {}, 0)

  /** The resource invariant: the only live player is the one the field refers to. */
  predicate Valid(s: ServiceState) {
    && (s.player.None? ==> s.live == {})
    && (s.player.Some? ==> s.live == {s.player.value.handle})
    && (forall h :: h in s.live ==> h < s.nextHandle)
  }

  predicate IsPlaying(s: ServiceState) {
    s.player.Some? && s.player.value.playing
  }

  /** The ongoing alarm notification; its full-screen intent opens the ring activity and
      carries the id as a STRING extra named "id". */
  function NotificationFor(alarmId: int): (n: Notification)
    ensures n.fullScreen.target == ToRingActivity
    ensures n.fullScreen.extras == map["id" := StrV(Decimal.IntToString(alarmId))]
    ensures n.fullScreenRequestCode == alarmId
    ensures n.ongoing && !n.autoCancel && n.channel == ChannelId
  {
    Notification(
      ChannelId,
      "Alarm is ringing!",
      "Alarm ID: " + Decimal.IntToString(alarmId),
      true,
      false,
      alarmId,
      Intent(ToRingActivity, None, map["id" := StrV(Decimal.IntToString(alarmId))]))
  }

  /** What stopping and releasing the held player does, in order. */
  function ReleaseEffects(p: Option<Player>): seq<Effect> {
    match p
    case None => []
    case Some(q) => (if q.playing then [StopPlayback(q.handle)] else []) + [ReleasePlayer(q.handle)]
  }

  /** `stopSoundOnly`: stop the held player if it is playing, release it, clear the field. */
  function StopSoundOnly(s: ServiceState): (r: Step)
    ensures r.state.player.None?
    ensures Valid(s) ==> Valid(r.state) && r.state.live == {}
    ensures r.effects == ReleaseEffects(s.player)
    ensures s.player.None? ==> r.state == s
    ensures r.state.running == s.running && r.state.foreground == s.foreground
    ensures r.state.nextHandle == s.nextHandle
  {
    match s.player
    case None => Step(s, [])
    case Some(p) => Step(s.(player := None, live := s.live - {p.handle}), ReleaseEffects(s.player))
  }

  /** `startSound` with the half-built player released when its setup throws (see
      StartSoundAsWritten for the code as it stands). The previous player is stopped
      and released before the new one is created. */
  function StartSound(s: ServiceState, alarmId: int, setup: PlayerSetup): (r: Step)
    ensures Valid(s) ==> Valid(r.state)
    ensures |ReleaseEffects(s.player)| <= |r.effects|
    ensures r.effects[..|ReleaseEffects(s.player)|] == ReleaseEffects(s.player)
    ensures setup.SetupOk? ==>
      && r.state.player == Some(Player(s.nextHandle, alarmId, true))
      && r.state.running == s.running
      && r.effects[|ReleaseEffects(s.player)|..] == [CreatePlayer(s.nextHandle, alarmId), StartPlayback(s.nextHandle)]
    ensures !setup.SetupOk? ==>
      && r.state.player.None?
      && !r.state.running
      && |r.effects| >= 1
      && r.effects[|r.effects| - 1] == StopSelf
      && (Valid(s) ==> r.state.live == {})
    ensures r.state.foreground == s.foreground
  {
    var st := StopSoundOnly(s);
    var h := st.state.nextHandle;
    var bumped := st.state.(nextHandle := h + 1);
    match setup
    case SetupOk =>
      Step(bumped.(player := Some(Player(h, alarmId, true)), live := bumped.live + {h}),
           st.effects + [CreatePlayer(h, alarmId), StartPlayback(h)])
    case FailsBeforeCreate =>
      Step(st.state.(running := false), st.effects + [StopSelf])
    case FailsAfterCreate =>
      Step(bumped.(running := false), st.effects + [CreatePlayer(h, alarmId), ReleasePlayer(h), StopSelf])
  }

  /** `startSound` exactly as written: when a call on the freshly built player throws,
      the player is never assigned to the field and never released. */
  function StartSoundAsWritten(s: ServiceState, alarmId: int, setup: PlayerSetup): (r: Step)
    ensures setup.FailsAfterCreate? ==>
      && r.state.player.None?
      && s.nextHandle in r.state.live
      && (Valid(s) ==> ReleasePlayer(s.nextHandle) !in r.effects)
  {
    var st := StopSoundOnly(s);
    var h := st.state.nextHandle;
    var bumped := st.state.(nextHandle := h + 1);
    match setup
    case FailsAfterCreate =>
      Step(bumped.(running := false, live := bumped.live + {h}), st.effects + [CreatePlayer(h, alarmId), StopSelf])
    case _ => StartSound(s, alarmId, setup)
  }

  /** `stopSoundAndService`. */
  function StopSoundAndService(s: ServiceState): (r: Step)
    ensures r.state.player.None? && r.state.foreground.None? && !r.state.running
    ensures Valid(s) ==> Valid(r.state) && r.state.live == {}
    ensures r.effects == ReleaseEffects(s.player) + [LeaveForeground, StopSelf]
  {
    var st := StopSoundOnly(s);
    Step(st.state.(foreground := None, running := false), st.effects + [LeaveForeground, StopSelf])
  }

  function ActionOf(intent: Option<Intent>): Option<string> {
    if intent.Some? then intent.value.action else None
  }

  /** The id the service reads: the `ALARM_ID` int extra, -1 when absent or for a null intent. */
  function IdOf(intent: Option<Intent>): int {
    if intent.Some? then GetIntExtra(intent.value.extras, ExtraAlarmId, -1) else -1
  }

  /** A start command without a usable id, which the service refuses up front. */
  predicate Rejected(intent: Option<Intent>) {
    IdOf(intent) == -1 && ActionOf(intent) == Some(ActionStartRing)
  }

  predicate NoForeground(effects: seq<Effect>) {
    forall i :: 0 <= i < |effects| ==> !effects[i].EnterForeground?
  }

  lemma ReleaseNeverEntersForeground(p: Option<Player>)
    ensures NoForeground(ReleaseEffects(p))
    ensures NoForeground(ReleaseEffects(p) + [LeaveForeground, StopSelf])
  {
  }

  lemma StartSoundNeverEntersForeground(s: ServiceState, alarmId: int, setup: PlayerSetup)
    ensures NoForeground(StartSound(s, alarmId, setup).effects)
  {
  }

  /** The `when (action)` dispatch, run once the service is in the foreground. */
  function Dispatch(s: ServiceState, action: Option<string>, alarmId: int, setup: PlayerSetup): (r: Step)
    ensures Valid(s) ==> Valid(r.state)
    ensures NoForeground(r.effects)
    ensures action == Some(ActionStartRing) ==>
      && |ReleaseEffects(s.player)| <= |r.effects|
      && r.effects[..|ReleaseEffects(s.player)|] == ReleaseEffects(s.player)
      && (setup.SetupOk? ==> r.state.player == Some(Player(s.nextHandle, alarmId, true)) && r.state.running == s.running)
      && (!setup.SetupOk? ==> r.state.player.None? && !r.state.running)
    ensures action == Some(ActionStopRing) ==>
      r.state.player.None? && r.state.foreground.None? && !r.state.running
    ensures action != Some(ActionStartRing) && action != Some(ActionStopRing) ==>
      && r.state.player == s.player
      && r.state.live == s.live
      && r.state.foreground == s.foreground
      && (r.state.running <==> s.running && IsPlaying(s))
  {
    if action == Some(ActionStartRing) then
      var st := StartSound(s, alarmId, setup);
      assert NoForeground(st.effects) by { StartSoundNeverEntersForeground(s, alarmId, setup); }
      st
    else if action == Some(ActionStopRing) then
      var st := StopSoundAndService(s);
      assert NoForeground(st.effects) by { ReleaseNeverEntersForeground(s.player); }
      st
    else if IsPlaying(s) then
      Step(s, [])
    else
      Step(s.(running := false), [StopSelf])
  }

  /** `onStartCommand`. The platform creates the service if needed and marks it started
      before delivering the intent; a null intent is the platform restarting a sticky
      service. */
  function OnStartCommand(s: ServiceState, intent: Option<Intent>, setup: PlayerSetup): (r: CommandOutcome)
    ensures Valid(s) ==> Valid(r.state)
    // a start without an id is refused before anything else happens
    ensures Rejected(intent) ==>
      && r.mode == StartNotSticky
      && r.effects == [StopSelf]
      && !r.state.running
      && r.state.player == s.player
      && r.state.foreground == s.foreground
    // every other command promotes the service to the foreground first, and only then
    ensures !Rejected(intent) ==>
      && r.mode == StartSticky
      && |r.effects| >= 1
      && r.effects[0] == EnterForeground(NotificationId, NotificationFor(IdOf(intent)))
      && NoForeground(r.effects[1..])
    // start: the old player goes before the new one, which plays for the requested id
    ensures ActionOf(intent) == Some(ActionStartRing) && !Rejected(intent) ==>
      && 1 + |ReleaseEffects(s.player)| <= |r.effects|
      && r.effects[1..1 + |ReleaseEffects(s.player)|] == ReleaseEffects(s.player)
      && (setup.SetupOk? ==> r.state.player == Some(Player(s.nextHandle, IdOf(intent), true)) && r.state.running)
      && (!setup.SetupOk? ==> r.state.player.None? && !r.state.running)
    // stop: no player, no foreground, service stopping
    ensures ActionOf(intent) == Some(ActionStopRing) ==>
      r.state.player.None? && r.state.foreground.None? && !r.state.running
    // anything else stops the service only when nothing is playing
    ensures ActionOf(intent) != Some(ActionStartRing) && ActionOf(intent) != Some(ActionStopRing) ==>
      && r.state.player == s.player
      && r.state.live == s.live
      && (r.state.running <==> IsPlaying(s))
  {
    var started := s.(running := true);
    var action := ActionOf(intent);
    var alarmId := IdOf(intent);
    if alarmId == -1 && action == Some(ActionStartRing) then
      CommandOutcome(started.(running := false), [StopSelf], StartNotSticky)
    else
      var n := NotificationFor(alarmId);
      var st := Dispatch(started.(foreground := Some(n)), action, alarmId, setup);
      assert ([EnterForeground(NotificationId, n)] + st.effects)[1..] == st.effects;
      CommandOutcome(st.state, [EnterForeground(NotificationId, n)] + st.effects, StartSticky)
  }

  /** `onDestroy`: the player is released; the platform takes the foreground
      notification down with the service. */
  function OnDestroy(s: ServiceState): (r: Step)
    ensures r.state.player.None? && r.state.foreground.None? && !r.state.running
    ensures Valid(s) ==> Valid(r.state) && r.state.live == {}
    ensures r.effects == ReleaseEffects(s.player)
  {
    var st := StopSoundOnly(s);
    Step(st.state.(running := false, foreground := None), st.effects)
  }

  datatype Event = Deliver(intent: Option<Intent>, setup: PlayerSetup) | Destroy

  /** The state after a sequence of deliveries and teardowns. */
  function Run(s: ServiceState, events: seq<Event>): (r: ServiceState)
    ensures Valid(s) ==> Valid(r)
    decreases |events|
  {
    if events == [] then s
    else
      var next := match events[0]
        case Deliver(i, setup) => OnStartCommand(s, i, setup).state
        case Destroy => OnDestroy(s).state;
      Run(next, events[1..])
  }

  /** From the initial state, whatever the platform delivers, at most one player
      instance is ever alive, and it is the one the service holds. */
  lemma RunHoldsAtMostOnePlayer(events: seq<Event>)
    ensures Valid(Run(Stopped, events))
    ensures |Run(Stopped, events).live| <= 1
  {
  }

  /** Stop after stop: the second one finds nothing to release and ends in the same state. */
  lemma StopIsIdempotent(s: ServiceState, stop: Option<Intent>, setup: PlayerSetup)
    requires ActionOf(stop) == Some(ActionStopRing)
    requires Valid(s)
    ensures OnStartCommand(OnStartCommand(s, stop, setup).state, stop, setup).state
         == OnStartCommand(s, stop, setup).state
    ensures ReleaseEffects(OnStartCommand(s, stop, setup).state.player) == []
  {
  }

  /** The code as written can leave a player instance alive that the service no longer
      refers to: the resource invariant fails after a setup failure. */
  lemma AsWrittenSetupFailureLeaksPlayer()
    ensures Valid(Stopped)
    ensures !Valid(StartSoundAsWritten(Stopped, 7, FailsAfterCreate).state)
  {
  }

  /** As written, the leaked instance outlives the service: after a failed setup, the
      teardown that follows and a successful start, two player instances are alive while
      the service holds only one of them. */
  lemma AsWrittenLeakSurvivesRestart()
    ensures var failed := StartSoundAsWritten(Stopped, 7, FailsAfterCreate).state;
      var restarted := StartSoundAsWritten(OnDestroy(failed).state, 8, SetupOk).state;
      && restarted.player == Some(Player(1, 8, true))
      && restarted.live == {0, 1}
      && |restarted.live| == 2
  {
  }
}
