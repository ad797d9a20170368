/** The older broadcast receiver of the fire path. It reads the id as a string, starts
    the ring service without passing the id on, and then opens the ring activity itself
    with the id string unchanged. */
module FireReceiver {
  import opened Intents

  /** `getStringExtra("id") ?: "-1"`. */
  function IdString(extras: Extras): (s: string)
    ensures "id" in extras && extras["id"].StrV? ==> s == extras["id"].s
    ensures "id" !in extras || !extras["id"].StrV? ==> s == "-1"
  {
    match GetStringExtra(extras, "id")
    case Some(v) => v
    case None => "-1"
  }

  /** `onReceive`: a service start first, then the activity launch. The start is not
      guarded; `startThrows` is whether the platform refuses it, in which case the
      exception leaves the receiver and the activity is never launched. */
  function OnReceive(extras: Extras, startThrows: bool): (r: seq<Command>)
    ensures |r| == if startThrows then 1 else 2
    ensures r[0] == StartService(RingStartIntent(map[]))
    ensures !startThrows ==>
      && r[1].StartActivity? && r[1].intent.target == ToRingActivity
      && r[1].intent.extras == map["id" := StrV(IdString(extras))]
  {
    var start := StartService(RingStartIntent(map[]));
    if startThrows then [start]
    else [start, StartActivity(Intent(ToRingActivity, None, map["id" := StrV(IdString(extras))]))]
  }
}
