/**
 The Cloud FSM: the handshake with the broker, from reconnecting to steady state.

 Every broker call, timer and inbound message is one event with its outcome, so a list of
 events is one life of the FSM.
 */
module CloudFsm {
  import opened Common
  import opened Inbound
  import opened RegistrySpec
  import Senml

  // Published states; the stages below are the points inside them where the code can wait.
  datatype Public = Disconnected | Reconnecting | Connecting | AnnouncingDevice
                  | AwaitingThingID | SyncingLastValues | Steady

  datatype Stage =
    | Idle
    | ReconnectEntry | ReconnectWait
    | Connect
    | AnnounceSubscribe | AnnounceBegin | AnnounceNet
    | AwaitBegin | AwaitLoop
    | SyncSubscribe | SyncBegin | SyncLoop
    | SteadyLoop | ReattachSubscribe | ReattachBegin
    | Stopped

  // Uplink commands; LastValues.begin is recorded with the thing it was sent for.
  datatype Cmd = DeviceBegin | NetConfig | ThingBegin | LastValuesBegin(thing: string)

  datatype Message =
    | ConnectionLost
    | ThingUpdate(id: string)
    | ThingDetach
    | LastValuesUpdate(last: Senml.Payload)
    | OtherCommand
    | Property(live: Senml.Payload)

  datatype Event =
    | Start
    | Draw(seed: nat)
    | Elapsed
    | Ok
    | Fail
    | NetUnknown
    | Timer
    | Arrive(msg: Message)
    | Take
    | Cancel

  datatype Snapshot = Snapshot(state: Public, thing: string)

  // `failures` counts the connects failed in a row.
  datatype Conn = Conn(backoff: real, failures: nat)

  // The Thing.begin retry timer; `retries` counts its firings in the current phase.
  datatype Wait = Wait(delay: int, maxDelay: int, registered: bool, retries: nat)

  // Beside the loop's own counter: LastValues.begin requests and registry operations since the
  // current thing's sync began.
  datatype Sync = Sync(attempts: nat, begins: nat, ops: seq<Op>)

  // `sent` lists the commands attempted on the current connection; `read` is the payload reader.
  datatype State = State(
    stage: Stage,
    thingID: string,
    snapshot: Snapshot,
    conn: Conn,
    wait: Wait,
    sync: Sync,
    queue: seq<Message>,
    sent: seq<Cmd>,
    read: Senml.Payload -> Properties)

  const CONN_BASE: real := 1.0
  const CONN_MAX: real := 300.0
  const PHASE1_BASE := 2
  const PHASE1_MAX := 32
  const PHASE2_BASE := 20
  const PHASE2_MAX := 1280
  const MAX_SYNC_ATTEMPTS: nat := 10
  const EVENT_CAPACITY: nat := 64

  function Init(read: Senml.Payload -> Properties): State {
    State(Idle, "", Snapshot(Disconnected, ""), Conn(0.0, 0), Wait(0, 0, false, 0), Sync(0, 0, []), [], [], read)
  }

  // Doubling, capped, then jitter of -10% to +170% as the code draws it.
  function NextConnBackoff(current: real, seed: nat): real {
    var next := if current * 2.0 > CONN_MAX then CONN_MAX else current * 2.0;
    next + next * 0.1 * (seed as real * 2.0 - 1.0)
  }

  function NextThingBackoff(current: int, maxDelay: int): int {
    if current * 2 > maxDelay then maxDelay else current * 2
  }

  function To(s: State, stage: Stage, p: Public, thing: string): State {
    s.(stage := stage, snapshot := Snapshot(p, thing))
  }

  function ToAwaiting(s: State): State {
    To(s.(thingID := ""), AwaitBegin, AwaitingThingID, "")
  }

  function ToSteady(s: State): State {
    To(s, SteadyLoop, Steady, s.thingID)
  }

  function Lost(s: State): State {
    s.(stage := ReconnectEntry)
  }

  function Attempt(s: State, c: Cmd): State {
    s.(sent := s.sent + [c])
  }

  function AskLastValues(s: State): State {
    Attempt(s, LastValuesBegin(s.thingID)).(sync := s.sync.(begins := s.sync.begins + 1))
  }

  function Counted(s: State, attempts: nat): State {
    s.(sync := s.sync.(attempts := attempts))
  }

  function Perform(s: State, ops: seq<Op>): State {
    s.(sync := s.sync.(ops := s.sync.ops + ops))
  }

  function Step(s: State, e: Event): Option<State> {
    match e
    case Start => if s.stage.Idle? then Some(Lost(s)) else None
    case Arrive(m) => Some(if |s.queue| < EVENT_CAPACITY then s.(queue := s.queue + [m]) else s)
    case Draw(seed) =>
      if s.stage.ReconnectEntry? && seed < 10 then
        var delay := if s.conn.backoff == 0.0 then CONN_BASE else NextConnBackoff(s.conn.backoff, seed);
        Some(To(s.(queue := [], conn := s.conn.(backoff := delay)), ReconnectWait, Reconnecting, ""))
      else None
    case Elapsed => if s.stage.ReconnectWait? then Some(To(s, Connect, Connecting, "")) else None
    case Ok => StepOk(s)
    case Fail => StepFail(s)
    case NetUnknown => if s.stage.AnnounceNet? then Some(ToAwaiting(s)) else None
    case Timer => StepTimer(s)
    case Take => if s.queue == [] then None else StepTake(s.(queue := s.queue[1..]), s.queue[0])
    case Cancel =>
      if s.stage in {ReconnectWait, Connect, AwaitLoop, SyncLoop, SteadyLoop}
      then Some(To(s, Stopped, Disconnected, "")) else None
  }

  // The broker call the FSM is at succeeded.
  function StepOk(s: State): Option<State> {
    match s.stage
    case Connect =>
      Some(To(s.(conn := Conn(0.0, 0), sent := []), AnnounceSubscribe, AnnouncingDevice, ""))
    case AnnounceSubscribe => Some(s.(stage := AnnounceBegin))
    case AnnounceBegin => Some(Attempt(s, DeviceBegin).(stage := AnnounceNet))
    case AnnounceNet => Some(ToAwaiting(Attempt(s, NetConfig)))
    case AwaitBegin =>
      Some(Attempt(s, ThingBegin).(stage := AwaitLoop, wait := Wait(PHASE1_BASE, PHASE1_MAX, false, 0)))
    case SyncSubscribe => Some(s.(stage := SyncBegin))
    case SyncBegin => Some(Counted(AskLastValues(s), 1).(stage := SyncLoop))
    case ReattachSubscribe => Some(s.(stage := ReattachBegin))
    case ReattachBegin => Some(AskLastValues(s).(stage := SteadyLoop))
    case _ => None
  }

  // It failed; a failed DeviceNetConfig or re-attach LastValues.begin is only logged.
  function StepFail(s: State): Option<State> {
    match s.stage
    case Connect => Some(Lost(s.(conn := s.conn.(failures := s.conn.failures + 1))))
    case AnnounceSubscribe => Some(Lost(s))
    case AnnounceBegin => Some(Lost(Attempt(s, DeviceBegin)))
    case AnnounceNet => Some(ToAwaiting(Attempt(s, NetConfig)))
    case AwaitBegin => Some(Lost(Attempt(s, ThingBegin)))
    case SyncSubscribe => Some(Lost(s))
    case SyncBegin => Some(Lost(AskLastValues(s)))
    case ReattachSubscribe => Some(Lost(s))
    case ReattachBegin => Some(AskLastValues(s).(stage := SteadyLoop))
    case AwaitLoop => Some(Lost(Attempt(s, ThingBegin)))                // the retry's publish
    case SyncLoop =>
      if s.sync.attempts < MAX_SYNC_ATTEMPTS then
        Some(Lost(Counted(AskLastValues(s), s.sync.attempts + 1)))
      else None
    case _ => None
  }

  // A retry timer fired and the publish it caused, if any, succeeded.
  function StepTimer(s: State): Option<State> {
    match s.stage
    case AwaitLoop =>
      Some(Attempt(s, ThingBegin).(wait := s.wait.(delay := NextThingBackoff(s.wait.delay, s.wait.maxDelay),
           retries := s.wait.retries + 1)))
    case SyncLoop =>
      if s.sync.attempts >= MAX_SYNC_ATTEMPTS then Some(ToSteady(Perform(s, [Announce([])])))
      else Some(Counted(AskLastValues(s), s.sync.attempts + 1))
    case _ => None
  }

  function StepTake(s: State, m: Message): Option<State> {
    match s.stage
    case AwaitLoop =>
      (match m
       case ConnectionLost => Some(Lost(s))
       case ThingUpdate(id) =>
         if id == "" then
           Some(if s.wait.registered then s else s.(wait := Wait(PHASE2_BASE, PHASE2_MAX, true, 0)))
         else Some(To(s.(thingID := id, sync := Sync(0, 0, [])), SyncSubscribe, SyncingLastValues, id))
       case _ => Some(s))
    case SyncLoop =>
      (match m
       case ConnectionLost => Some(Lost(s))
       case LastValuesUpdate(p) => Some(ToSteady(Perform(s, OpsOf(s.read(p), true))))
       case ThingDetach => Some(ToAwaiting(s))
       case _ => Some(s))
    case SteadyLoop =>
      (match m
       case ConnectionLost => Some(Lost(s))
       case ThingDetach => Some(ToAwaiting(s))
       case ThingUpdate(id) =>
         if id == s.thingID then Some(s)
         else if id == "" then Some(ToAwaiting(s))
         else Some(To(s.(thingID := id), ReattachSubscribe, Steady, id))
       case LastValuesUpdate(p) => Some(Perform(s, OpsOf(s.read(p), true)))
       case Property(p) => Some(Perform(s, OpsOf(s.read(p), false)))
       case _ => Some(s))
    case _ => None
  }

  ghost function Exec(read: Senml.Payload -> Properties, events: seq<Event>): Option<State> {
    if events == [] then Some(Init(read))
    else
      match Exec(read, events[..|events| - 1])
      case None => None
      case Some(s) => Step(s, events[|events| - 1])
  }

  ghost predicate Reachable(s: State) {
    exists read, events :: Exec(read, events) == Some(s)
  }

  lemma InitReachable(read: Senml.Payload -> Properties)
    ensures Reachable(Init(read))
  {
    assert Exec(read, []) == Some(Init(read));
  }

  lemma ReachableStep(s: State, e: Event)
    requires Reachable(s) && Step(s, e).Some?
    ensures Reachable(Step(s, e).value)
  {
    var read, events :| Exec(read, events) == Some(s);
    assert (events + [e])[..|events|] == events;
    assert Exec(read, events + [e]) == Step(s, e);
  }
}
