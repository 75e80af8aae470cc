/**
 The Cloud FSM's state functions as code. Broker calls, timers and arrivals are chosen by the
 environment; `Valid` says the object is in a reachable state of the machine, so every
 guarantee proved there holds between any two statements here.
 */
module CloudFsmCode {
  import opened Common
  import opened CloudFsm
  import opened CloudFsmSafety
  import opened Inbound
  import opened RegistrySpec
  import opened RegistryCode
  import ApplyProperties
  import Senml

  datatype StateFn = ToReconnecting | ToConnecting | ToAnnouncing | ToAwaitingThing | ToSyncing | ToSteadyState | Nil

  // The payload reader the machine is told about.
  ghost function Reader(fl: real -> real): Senml.Payload -> Properties {
    p => PropertiesIn(fl, p)
  }

  class Fsm {
    const reg: Registry
    const fl: real -> real
    var thingID: string
    var snapshot: Snapshot
    var connBackoff: real
    var queue: seq<Message>
    ghost var stage: Stage
    ghost var failures: nat
    ghost var wait: Wait
    ghost var sync: Sync
    ghost var sent: seq<Cmd>

    ghost function Abs(): State reads this {
      State(stage, thingID, snapshot, Conn(connBackoff, failures), wait, sync, queue, sent, Reader(fl))
    }

    ghost predicate Valid() reads this {
      Reachable(Abs())
    }

    constructor (reg: Registry, fl: real -> real)
      ensures Valid() && Abs() == Init(Reader(fl)) && this.reg == reg && this.fl == fl
    {
      this.reg, this.fl := reg, fl;
      thingID, snapshot, connBackoff, queue := "", Snapshot(Disconnected, ""), 0.0, [];
      stage, failures, wait, sync, sent := Idle, 0, Wait(0, 0, false, 0), Sync(0, 0, []), [];
      new;
      InitReachable(Reader(fl));
    }

    // The step just taken from s; the real fields must already agree with the machine.
    ghost method Note(s: State, e: Event)
      requires Reachable(s) && Step(s, e).Some?
      requires var t := Step(s, e).value;
               && t.thingID == thingID && t.snapshot == snapshot && t.conn.backoff == connBackoff
               && t.queue == queue && t.read == Reader(fl)
      modifies this`stage, this`failures, this`wait, this`sync, this`sent
      ensures Valid() && Abs() == Step(s, e).value
    {
      var t := Step(s, e).value;
      stage, failures, wait, sync, sent := t.stage, t.conn.failures, t.wait, t.sync, t.sent;
      ReachableStep(s, e);
    }

    method Transition(p: Public, thing: string)
      modifies this`snapshot
      ensures snapshot == Snapshot(p, thing)
    {
      snapshot := Snapshot(p, thing);
    }

    // Something may arrive; a channel with 64 events drops it.
    method Arrivals() returns (ghost arrived: Option<Message>)
      requires Valid()
      modifies this
      ensures Valid() && Abs() == old(Abs()).(queue := queue)
      ensures queue == old(queue) + if arrived.Some? && |old(queue)| < 64 then [arrived.value] else []
    {
      arrived := None;
      var arrives: bool := *;
      if arrives {
        ghost var s := Abs();
        var m: Message :| true;
        arrived := Some(m);
        if |queue| < EVENT_CAPACITY {
          queue := queue + [m];
        }
        Note(s, Arrive(m));
      }
    }

    // Where the FSM stands when the given state function is entered.
    ghost predicate Fits(next: StateFn) reads this {
      match next
      case ToReconnecting => stage.ReconnectEntry?
      case ToConnecting => stage.ReconnectWait?
      case ToAnnouncing => stage.AnnounceSubscribe?
      case ToAwaitingThing => stage.AwaitBegin?
      case ToSyncing => stage.SyncSubscribe?
      case ToSteadyState => stage.SteadyLoop?
      case Nil => stage.Stopped?
    }

    // A publish or subscribe the code is at, which may fail.
    method Call() returns (failed: bool)
      requires Valid() && stage in {AnnounceSubscribe, AnnounceBegin, AwaitBegin, SyncSubscribe, SyncBegin,
                                    ReattachSubscribe, ReattachBegin}
      modifies this
      ensures Valid() && Some(Abs()) == if failed then StepFail(old(Abs())) else StepOk(old(Abs()))
    {
      ghost var before := Abs();
      failed := *;
      Note(before, if failed then Fail else Event.Ok);
    }

    method Stop()
      requires Valid() && stage in {ReconnectWait, Connect, AwaitLoop, SyncLoop, SteadyLoop}
      modifies this
      ensures Valid() && stage.Stopped? && queue == old(queue)
    {
      ghost var s := Abs();
      Transition(Disconnected, "");
      Note(s, Cancel);
    }

    // Drop stale events and wait: one second after a success, else doubled with jitter.
    method RunReconnecting() returns (next: StateFn)
      requires Valid() && stage.ReconnectEntry?
      modifies this
      ensures Valid() && Fits(next)
      ensures next.ToConnecting? ==> (old(failures) == 0 ==> connBackoff == CONN_BASE) && connBackoff <= 810.0
      ensures next.ToConnecting? ==> Pow(1.8, failures) <= connBackoff || 270.0 <= connBackoff
      ensures queue == []
    {
      ghost var s := Abs();
      Transition(Reconnecting, "");
      queue := [];
      var seed: nat :| seed < 10;
      connBackoff := if connBackoff == 0.0 then CONN_BASE else NextConnBackoff(connBackoff, seed);
      ReachableFits(s);
      Note(s, Draw(seed));
      ReconnectDelay(Abs());
      var cancelled: bool := *;
      if cancelled {
        Stop();
        next := Nil;
      } else {
        next := ToConnecting;
      }
    }

    method RunConnecting() returns (next: StateFn, ghost failed: bool, ghost cancelled: bool)
      requires Valid() && stage.ReconnectWait?
      modifies this
      ensures next == if !failed then ToAnnouncing else if cancelled then Nil else ToReconnecting
      ensures Valid() && Fits(next) && (next.Nil? || next.ToReconnecting? || next.ToAnnouncing?)
      ensures next.ToAnnouncing? ==> connBackoff == 0.0 && sent == []
      ensures next.ToReconnecting? ==> failures == old(failures) + 1
    {
      ghost var s := Abs();
      Transition(Connecting, "");
      Note(s, Elapsed);
      var refused: bool, stopping: bool := *, *;
      failed, cancelled := refused, stopping;
      if refused && stopping {
        Stop();
        return Nil, failed, cancelled;
      }
      s := Abs();
      if refused {
        Note(s, Fail);
        return ToReconnecting, failed, cancelled;
      }
      connBackoff := 0.0;
      Transition(AnnouncingDevice, "");
      Note(s, Event.Ok);
      next := ToAnnouncing;
    }

    method RunAnnouncingDevice() returns (next: StateFn, ghost subscribed: bool, ghost begun: bool)
      requires Valid() && stage.AnnounceSubscribe?
      modifies this
      ensures Valid() && Fits(next) && next == if subscribed && begun then ToAwaitingThing else ToReconnecting
      ensures if !subscribed then sent == old(sent)
              else if !begun then sent == old(sent) + [DeviceBegin]
              else sent in {old(sent) + [DeviceBegin], old(sent) + [DeviceBegin, NetConfig]}
    {
      subscribed, begun := false, false;
      var failed := Call();
      if failed {
        return ToReconnecting, subscribed, begun;
      }
      subscribed := true;
      failed := Call();
      if failed {
        return ToReconnecting, subscribed, begun;
      }
      begun := true;
      PublishNetConfig();
      assert old(sent) + [DeviceBegin] + [NetConfig] == old(sent) + [DeviceBegin, NetConfig];
      next := ToAwaitingThing;
    }

    // Best effort: neither an unknown network nor a failed publish stops the handshake.
    method PublishNetConfig()
      requires Valid() && stage.AnnounceNet?
      modifies this
      ensures Valid() && stage.AwaitBegin? && (sent == old(sent) || sent == old(sent) + [NetConfig])
    {
      ghost var s := Abs();
      var known: bool, failed: bool := *, *;
      thingID := "";
      Transition(AwaitingThingID, "");
      Note(s, if !known then NetUnknown else if failed then Fail else Event.Ok);
    }

    // Ask for a thing until one is assigned, slowly once the cloud has answered without one.
    method RunAwaitingThingID(rounds: nat) returns (next: StateFn)
      requires Valid() && stage.AwaitBegin?
      modifies this
      ensures Valid() && Fits(next) && (next.Nil? || next.ToReconnecting? || next.ToSyncing?)
      ensures next.ToSyncing? ==> thingID != "" && sync == Sync(0, 0, [])
    {
      var failed := Call();
      if failed {
        return ToReconnecting;
      }
      var delay, maxDelay, registered := PHASE1_BASE, PHASE1_MAX, false;
      for i := 0 to rounds
        invariant Valid() && stage.AwaitLoop?
        invariant wait.delay == delay && wait.maxDelay == maxDelay && wait.registered == registered
      {
        ghost var arrived := Arrivals();
        var fired: bool := *;
        if fired {
          failed := RetryThingBegin(delay, maxDelay);
          if failed {
            return ToReconnecting;
          }
          delay := NextThingBackoff(delay, maxDelay);
        } else if queue != [] {
          next, delay, maxDelay, registered := TakeWhileAwaiting(delay, maxDelay, registered);
          if !next.ToAwaitingThing? {
            return;
          }
        }
      }
      Stop();
      next := Nil;
    }

    // The retry timer fired: ask again.
    method RetryThingBegin(delay: int, maxDelay: int) returns (failed: bool)
      requires Valid() && stage.AwaitLoop? && wait.delay == delay && wait.maxDelay == maxDelay
      modifies this
      ensures Valid() && sent == old(sent) + [ThingBegin] && thingID == old(thingID)
      ensures if failed then stage.ReconnectEntry?
              else stage.AwaitLoop? && wait == old(wait).(delay := NextThingBackoff(delay, maxDelay),
                                                          retries := old(wait.retries) + 1)
    {
      ghost var s := Abs();
      failed := *;
      Note(s, if failed then Fail else Timer);
    }

    // What an event does while no thing is assigned: a lost connection is given up, a thing is
    // taken, the first answer without one slows the retries down, all else is ignored.
    twostate predicate AnsweredWhileAwaiting(m: Message, next: StateFn) reads this {
      && sent == old(sent)
      && match m
         case ConnectionLost => next.ToReconnecting? && thingID == old(thingID)
         case ThingUpdate(id) =>
           if id != "" then
             next.ToSyncing? && thingID == id && snapshot == Snapshot(SyncingLastValues, id) && sync == Sync(0, 0, [])
           else
             next.ToAwaitingThing? && thingID == old(thingID) && snapshot == old(snapshot)
             && wait == if old(wait.registered) then old(wait) else Wait(20, 1280, true, 0)
         case _ =>
           next.ToAwaitingThing? && thingID == old(thingID) && snapshot == old(snapshot) && wait == old(wait)
    }

    // One inbound event; ToAwaitingThing means stay in the loop.
    method TakeWhileAwaiting(delay: int, maxDelay: int, registered: bool)
      returns (next: StateFn, delay': int, maxDelay': int, registered': bool)
      requires Valid() && stage.AwaitLoop? && queue != []
      requires wait.delay == delay && wait.maxDelay == maxDelay && wait.registered == registered
      modifies this
      ensures Valid() && queue == old(queue)[1..] && AnsweredWhileAwaiting(old(queue[0]), next)
      ensures if next.ToAwaitingThing?
              then stage.AwaitLoop? && (wait.delay, wait.maxDelay, wait.registered) == (delay', maxDelay', registered')
              else Fits(next)
    {
      ghost var s := Abs();
      var m := queue[0];
      queue := queue[1..];
      next, delay', maxDelay', registered' := ToAwaitingThing, delay, maxDelay, registered;
      if m.ThingUpdate? && m.id != "" {
        thingID := m.id;
        Transition(SyncingLastValues, thingID);
        next := ToSyncing;
      } else if m.ThingUpdate? && !registered {
        delay', maxDelay', registered' := PHASE2_BASE, PHASE2_MAX, true;
      } else if m.ConnectionLost? {
        next := ToReconnecting;
      }
      Note(s, Take);
    }

    ghost predicate NobodyWaits() reads reg, reg.subs {
      forall s <- reg.subs :: !s.pending
    }

    // The clock is read for values that carry no time.
    method Clock() returns (t: int)
      ensures t != 0
    {
      t := *;
      if t == 0 {
        t := 1;
      }
    }

    // The values are in the registry: on to Steady.
    method EnterSteady(ghost values: seq<Announcement>, ghost s: State, ghost e: Event)
      requires Reachable(s) && s.stage.SyncLoop? && s.thingID == thingID && s.sync.ops == []
      requires Step(s, e) == Some(ToSteady(Perform(s.(queue := queue), [Announce(values)])))
      requires s.conn.backoff == connBackoff && s.read == Reader(fl)
      modifies this
      ensures Valid() && stage.SteadyLoop? && sync == s.sync.(ops := [Announce(values)])
      ensures queue == old(queue) && sent == s.sent && thingID == old(thingID) && snapshot == Snapshot(Steady, thingID)
    {
      Transition(Steady, thingID);
      Note(s, e);
      assert s.sync.ops + [Announce(values)] == [Announce(values)];
    }

    // No answer came: nothing is announced.
    method AnnounceNothing() returns (ghost t: int)
      requires reg.Valid()
      modifies reg`vars, reg`history, reg.subs
      ensures reg.Valid() && NobodyWaits()
      ensures t != 0 && reg.history == old(reg.history) + [Announce(StampAll([], t))]
    {
      var now := Clock();
      reg.ApplyLastValues([], now);
      t := now;
    }

    // The answer is applied, whatever it holds.
    method ApplyAnswer(payload: Senml.Payload) returns (ghost t: int)
      requires reg.Valid()
      modifies reg`vars, reg`history, reg.subs
      ensures reg.Valid() && NobodyWaits()
      ensures t != 0 && reg.history == old(reg.history) + [Announce(StampAll(ValuesIn(PropertiesIn(fl, payload)), t))]
    {
      var now := Clock();
      var failed := ApplyProperties.ApplyPayload(fl, reg, payload, true, now);
      t := now;
      OneOp(PropertiesIn(fl, payload), t);
    }

    lemma OneOp(p: Properties, t: int)
      ensures ApplyProperties.StampOps(OpsOf(p, true), t) == [Announce(StampAll(ValuesIn(p), t))]
    {
    }

    // How a sync can end: in Steady after one announcement of these values, with nobody left
    // waiting; otherwise without touching the registry.
    twostate predicate Ended(next: StateFn, values: seq<Announcement>, t: int) reads this, reg, reg.subs {
      if next.ToSteadyState? then
        && sync.ops == [Announce(values)] && 1 <= sync.begins <= 10
        && reg.history == old(reg.history) + [Announce(StampAll(values, t))] && NobodyWaits()
      else reg.history == old(reg.history) && reg.vars == old(reg.vars)
    }

    // Ask for the thing's last values; every way on to Steady applies them exactly once and
    // leaves no subscriber waiting, every other way touches nothing.
    method RunSyncingLastValues(rounds: nat) returns (next: StateFn, ghost values: seq<Announcement>, ghost t: int)
      requires Valid() && stage.SyncSubscribe? && reg.Valid()
      modifies this, reg`vars, reg`history, reg.subs
      ensures Valid() && Fits(next) && reg.Valid() && Ended(next, values, t)
    {
      values, t := [], 0;
      var failed := BeginSync();
      if failed {
        return ToReconnecting, values, t;
      }
      var attempts := 1;
      for i := 0 to rounds
        invariant Valid() && stage.SyncLoop? && sync.attempts == attempts
        invariant reg.Valid() && reg.history == old(reg.history) && reg.vars == old(reg.vars)
      {
        next, attempts, values, t := SyncOnce(attempts);
        if !next.ToSyncing? {
          return;
        }
      }
      Stop();
      next := Nil;
    }

    // Subscribe to the thing's properties and ask for the first time.
    method BeginSync() returns (failed: bool)
      requires Valid() && stage.SyncSubscribe?
      modifies this
      ensures Valid() && if failed then stage.ReconnectEntry? else stage.SyncLoop? && sync.attempts == 1
    {
      failed := Call();
      if !failed {
        failed := Call();
      }
    }

    // One round of the select: the timer, an event, or neither.
    method SyncOnce(attempts: nat)
      returns (next: StateFn, asked: nat, ghost values: seq<Announcement>, ghost t: int)
      requires Valid() && stage.SyncLoop? && sync.attempts == attempts && reg.Valid()
      modifies this, reg`vars, reg`history, reg.subs
      ensures Valid() && reg.Valid() && Ended(next, values, t)
      ensures if next.ToSyncing? then stage.SyncLoop? && sync.attempts == asked else Fits(next)
    {
      asked, values, t := attempts, [], 0;
      ghost var arrived := Arrivals();
      var fired: bool := *;
      if fired {
        next, t := RetrySync(attempts);
        asked := attempts + 1;
      } else if queue != [] {
        next, values, t := TakeWhileSyncing();
      } else {
        next := ToSyncing;
      }
    }

    // The retry timer fired: ask again, or after the tenth time go on without an answer.
    method RetrySync(attempts: nat) returns (next: StateFn, ghost t: int)
      requires Valid() && stage.SyncLoop? && sync.attempts == attempts && reg.Valid()
      modifies this, reg`vars, reg`history, reg.subs
      ensures Valid() && reg.Valid() && next in {ToReconnecting, ToSteadyState, ToSyncing}
      ensures if next.ToSyncing? then stage.SyncLoop? && sync.attempts == attempts + 1 else Fits(next)
      ensures Ended(next, [], t) && thingID == old(thingID)
      ensures attempts >= 10 <==> next.ToSteadyState?
      ensures attempts < 10 ==> sent == old(sent) + [LastValuesBegin(thingID)]
    {
      t := 0;
      ghost var s := Abs();
      SyncCounts();
      if attempts >= MAX_SYNC_ATTEMPTS {
        t := AnnounceNothing();
        EnterSteady([], s, Timer);
        return ToSteadyState, t;
      }
      var failed: bool := *;
      Note(s, if failed then Fail else Timer);
      next := if failed then ToReconnecting else ToSyncing;
    }

    lemma SyncCounts()
      requires Valid() && stage.SyncLoop?
      ensures sync.ops == [] && sync.begins == sync.attempts && 1 <= sync.attempts <= MAX_SYNC_ATTEMPTS
    {
      ReachableFits(Abs());
    }

    lemma AnswerStep(s: State)
      requires s.stage.SyncLoop? && s.queue != [] && s.queue[0].LastValuesUpdate?
      ensures Step(s, Take)
              == Some(ToSteady(Perform(s.(queue := s.queue[1..]), [Announce(ValuesIn(s.read(s.queue[0].last)))])))
    {
    }

    // What an event does while last values are asked for: a lost connection is given up, the
    // answer leads to Steady, a detach drops the thing, all else is ignored.
    twostate predicate AnsweredWhileSyncing(m: Message, next: StateFn) reads this {
      && sent == old(sent)
      && match m
         case ConnectionLost => next.ToReconnecting? && thingID == old(thingID)
         case LastValuesUpdate(_) =>
           next.ToSteadyState? && thingID == old(thingID) && snapshot == Snapshot(Steady, thingID)
         case ThingDetach => next.ToAwaitingThing? && thingID == "" && snapshot == Snapshot(AwaitingThingID, "")
         case _ => next.ToSyncing? && thingID == old(thingID) && snapshot == old(snapshot)
    }

    // One inbound event while syncing; ToSyncing means stay in the loop.
    method TakeWhileSyncing() returns (next: StateFn, ghost values: seq<Announcement>, ghost t: int)
      requires Valid() && stage.SyncLoop? && queue != [] && reg.Valid()
      modifies this, reg`vars, reg`history, reg.subs
      ensures Valid() && reg.Valid() && Ended(next, values, t)
      ensures if next.ToSyncing? then stage.SyncLoop? && sync == old(sync) else Fits(next)
      ensures next.ToSteadyState? ==>
                old(queue[0]).LastValuesUpdate? && values == ValuesIn(PropertiesIn(fl, old(queue[0]).last))
      ensures queue == old(queue)[1..] && AnsweredWhileSyncing(old(queue[0]), next)
    {
      values, t := [], 0;
      var m := queue[0];
      if !m.LastValuesUpdate? {
        next := SkipWhileSyncing();
        return;
      }
      values := ValuesIn(PropertiesIn(fl, m.last));
      t := TakeAnswer(m.last);
      next := ToSteadyState;
    }

    method TakeAnswer(payload: Senml.Payload) returns (ghost t: int)
      requires Valid() && stage.SyncLoop? && queue != [] && queue[0] == LastValuesUpdate(payload) && reg.Valid()
      modifies this, reg`vars, reg`history, reg.subs
      ensures Valid() && reg.Valid() && stage.SteadyLoop?
      ensures Ended(ToSteadyState, ValuesIn(PropertiesIn(fl, payload)), t)
      ensures queue == old(queue)[1..] && sent == old(sent)
      ensures thingID == old(thingID) && snapshot == Snapshot(Steady, thingID)
    {
      ghost var s := Abs();
      SyncCounts();
      AnswerStep(s);
      queue := queue[1..];
      t := ApplyAnswer(payload);
      EnterSteady(ValuesIn(PropertiesIn(fl, payload)), s, Take);
    }

    // Everything but the answer.
    method SkipWhileSyncing() returns (next: StateFn)
      requires Valid() && stage.SyncLoop? && queue != [] && !queue[0].LastValuesUpdate?
      modifies this
      ensures Valid() && next in {ToReconnecting, ToAwaitingThing, ToSyncing}
      ensures if next.ToSyncing? then stage.SyncLoop? && sync == old(sync) else Fits(next)
      ensures queue == old(queue)[1..] && AnsweredWhileSyncing(old(queue[0]), next)
    {
      ghost var s := Abs();
      var m := queue[0];
      queue := queue[1..];
      match m {
        case ConnectionLost => next := ToReconnecting;
        case ThingDetach => thingID := ""; Transition(AwaitingThingID, ""); next := ToAwaitingThing;
        case _ => next := ToSyncing;
      }
      Note(s, Take);
    }

    method RunSteady(rounds: nat) returns (next: StateFn)
      requires Valid() && stage.SteadyLoop? && reg.Valid()
      modifies this, reg`vars, reg`history, reg.subs
      ensures Valid() && reg.Valid() && Fits(next) && (next.Nil? || next.ToReconnecting? || next.ToAwaitingThing?)
    {
      for i := 0 to rounds
        invariant Valid() && stage.SteadyLoop? && reg.Valid()
      {
        next := SteadyOnce();
        if !next.ToSteadyState? {
          return;
        }
      }
      Stop();
      next := Nil;
    }

    method SteadyOnce() returns (next: StateFn)
      requires Valid() && stage.SteadyLoop? && reg.Valid()
      modifies this, reg`vars, reg`history, reg.subs
      ensures Valid() && reg.Valid() && Fits(next) && next in {ToReconnecting, ToAwaitingThing, ToSteadyState}
    {
      ghost var arrived := Arrivals();
      next := ToSteadyState;
      if queue != [] {
        ghost var t;
        next, t := TakeWhileSteady();
      }
    }

    // What an event does in Steady: a lost connection is given up; a detach, or an update
    // without an id, drops the thing; a new thing is taken over in place, or the connection is
    // given up if it cannot be subscribed to; all else changes neither state nor thing.
    twostate predicate AnsweredInSteady(m: Message, next: StateFn) reads this {
      match m
      case ConnectionLost => next.ToReconnecting? && thingID == old(thingID) && sent == old(sent)
      case ThingDetach => Dropped(next)
      case ThingUpdate(id) =>
        if id == old(thingID) then Unmoved(next)
        else if id == "" then Dropped(next)
        else
          && thingID == id && snapshot == Snapshot(Steady, id)
          && if next.ToSteadyState? then sent == old(sent) + [LastValuesBegin(id)]
             else next.ToReconnecting? && sent == old(sent)
      case _ => Unmoved(next)
    }

    twostate predicate Dropped(next: StateFn) reads this {
      next.ToAwaitingThing? && thingID == "" && snapshot == Snapshot(AwaitingThingID, "") && sent == old(sent)
    }

    twostate predicate Unmoved(next: StateFn) reads this {
      next.ToSteadyState? && thingID == old(thingID) && snapshot == old(snapshot) && sent == old(sent)
    }

    // What it does to the registry.
    twostate predicate StoredInSteady(m: Message, t: int) reads reg {
      && old(reg.history) <= reg.history
      && var ops := reg.history[|old(reg.history)|..];
         match m
         case LastValuesUpdate(p) => ApplyProperties.StoredAsDecoded(ApplyProperties.VariablesIn(fl, p), ops, true, t)
         case Property(p) => ApplyProperties.StoredAsDecoded(ApplyProperties.VariablesIn(fl, p), ops, false, t)
         case _ => ops == [] && reg.vars == old(reg.vars)
    }

    // One inbound event in Steady; a different thing is attached in place, a payload goes into
    // the registry.
    method TakeWhileSteady() returns (next: StateFn, ghost t: int)
      requires Valid() && stage.SteadyLoop? && queue != [] && reg.Valid()
      modifies this, reg`vars, reg`history, reg.subs
      ensures Valid() && reg.Valid() && Fits(next) && next in {ToReconnecting, ToAwaitingThing, ToSteadyState}
      ensures next.ToSteadyState? ==>
                thingID == if old(queue[0]).ThingUpdate? then old(queue[0].id) else old(thingID)
      ensures reg.history == old(reg.history) + ApplyProperties.StampOps(PayloadOps(old(queue[0])), t)
      ensures queue == old(queue)[1..] && AnsweredInSteady(old(queue[0]), next) && StoredInSteady(old(queue[0]), t)
    {
      var m := queue[0];
      t := 0;
      if m.LastValuesUpdate? || m.Property? {
        t := StorePayload(m);
        return ToSteadyState, t;
      }
      assert ApplyProperties.StampOps([], t) == [] && reg.history + [] == reg.history;
      next := TakeCommand();
    }

    function PayloadOps(m: Message): seq<Op> {
      match m
      case LastValuesUpdate(p) => OpsOf(PropertiesIn(fl, p), true)
      case Property(p) => OpsOf(PropertiesIn(fl, p), false)
      case _ => []
    }

    method StorePayload(m: Message) returns (ghost t: int)
      requires Valid() && stage.SteadyLoop? && queue != [] && queue[0] == m && reg.Valid()
      requires m.LastValuesUpdate? || m.Property?
      modifies this, reg`vars, reg`history, reg.subs
      ensures Valid() && reg.Valid() && stage.SteadyLoop? && queue == old(queue)[1..]
      ensures thingID == old(thingID) && snapshot == old(snapshot) && sent == old(sent)
      ensures reg.history == old(reg.history) + ApplyProperties.StampOps(PayloadOps(m), t) && StoredInSteady(m, t)
    {
      Pass();
      var now := Clock();
      var payload := if m.LastValuesUpdate? then m.last else m.live;
      var failed := ApplyProperties.ApplyPayload(fl, reg, payload, m.LastValuesUpdate?, now);
      t := now;
    }

    // A payload leaves the queue.
    method Pass()
      requires Valid() && stage.SteadyLoop? && queue != [] && (queue[0].LastValuesUpdate? || queue[0].Property?)
      modifies this
      ensures Valid() && stage.SteadyLoop? && queue == old(queue)[1..]
      ensures thingID == old(thingID) && snapshot == old(snapshot) && sent == old(sent)
    {
      ghost var s := Abs();
      queue := queue[1..];
      Note(s, Take);
    }

    // Everything but a payload.
    method TakeCommand() returns (next: StateFn)
      requires Valid() && stage.SteadyLoop? && queue != [] && !queue[0].LastValuesUpdate? && !queue[0].Property?
      modifies this
      ensures Valid() && Fits(next) && next in {ToReconnecting, ToAwaitingThing, ToSteadyState}
      ensures next.ToSteadyState? ==>
                thingID == if old(queue[0]).ThingUpdate? then old(queue[0].id) else old(thingID)
      ensures queue == old(queue)[1..] && AnsweredInSteady(old(queue[0]), next)
    {
      ghost var s := Abs();
      var m := queue[0];
      queue := queue[1..];
      match m {
        case ConnectionLost => next := ToReconnecting;
        case ThingDetach => thingID := ""; Transition(AwaitingThingID, ""); next := ToAwaitingThing;
        case ThingUpdate(id) =>
          if id == thingID {
            next := ToSteadyState;
          } else if id == "" {
            thingID := "";
            Transition(AwaitingThingID, "");
            next := ToAwaitingThing;
          } else {
            thingID := id;
            Transition(Steady, id);
            Note(s, Take);
            next := Reattach();
            return;
          }
        case _ => next := ToSteadyState;
      }
      Note(s, Take);
    }

    method Reattach() returns (next: StateFn)
      requires Valid() && stage.ReattachSubscribe?
      modifies this
      ensures Valid() && Fits(next) && (next.ToReconnecting? || next.ToSteadyState?) && thingID == old(thingID)
      ensures snapshot == old(snapshot) && queue == old(queue)
      ensures sent == old(sent) + if next.ToSteadyState? then [LastValuesBegin(thingID)] else []
    {
      var failed := Call();
      if failed {
        return ToReconnecting;
      }
      failed := Call();
      next := ToSteadyState;
    }

    // The state functions that leave the registry alone.
    method RunHandshake(from: StateFn, rounds: nat) returns (next: StateFn)
      requires Valid() && Fits(from) && !from.ToSyncing? && !from.ToSteadyState? && !from.Nil?
      modifies this
      ensures Valid() && Fits(next)
    {
      match from {
        case ToReconnecting => next := RunReconnecting();
        case ToConnecting =>
          ghost var failed, cancelled;
          next, failed, cancelled := RunConnecting();
        case ToAnnouncing =>
          ghost var subscribed, begun;
          next, subscribed, begun := RunAnnouncingDevice();
        case ToAwaitingThing => next := RunAwaitingThingID(rounds);
      }
    }

    // One state function.
    method RunOne(from: StateFn, rounds: nat) returns (next: StateFn)
      requires Valid() && Fits(from) && !from.Nil? && reg.Valid()
      modifies this, reg`vars, reg`history, reg.subs
      ensures Valid() && Fits(next) && reg.Valid()
    {
      if from.ToSyncing? {
        ghost var values, t;
        next, values, t := RunSyncingLastValues(rounds);
      } else if from.ToSteadyState? {
        next := RunSteady(rounds);
      } else {
        next := RunHandshake(from, rounds);
      }
    }

    // The state functions chained, until the context ends.
    method Run(rounds: nat)
      requires Valid() && stage.Idle? && reg.Valid()
      modifies this, reg`vars, reg`history, reg.subs
      ensures Valid() && reg.Valid()
      ensures snapshot.thing != "" <==> snapshot.state.SyncingLastValues? || snapshot.state.Steady?
      ensures FollowsProtocol(Kinds(sent))
    {
      Begin();
      var next := ToReconnecting;
      for i := 0 to rounds
        invariant Valid() && Fits(next) && reg.Valid()
      {
        if next.Nil? {
          break;
        }
        next := RunOne(next, rounds);
      }
      ThingPublishedExactly(Abs());
      CommandsFollowProtocol(Abs());
    }

    method Begin()
      requires Valid() && stage.Idle?
      modifies this
      ensures Valid() && stage.ReconnectEntry?
    {
      ghost var s := Abs();
      Note(s, Start);
    }
  }
}
