/** What every life of the Cloud FSM keeps. */
module CloudFsmSafety {
  import opened Common
  import opened CloudFsm
  import opened Inbound
  import opened RegistrySpec
  import Senml

  // ---------- The commands of one connection ----------

  datatype Kind = Device | Net | Thing | Last

  function KindOf(c: Cmd): Kind {
    match c
    case DeviceBegin => Device
    case NetConfig => Net
    case ThingBegin => Thing
    case LastValuesBegin(_) => Last
  }

  function Kinds(cmds: seq<Cmd>): (r: seq<Kind>)
    ensures |r| == |cmds|
  {
    seq(|cmds|, i requires 0 <= i < |cmds| => KindOf(cmds[i]))
  }

  // The protocol: Device.begin, perhaps one DeviceNetConfig, then groups of at least one
  // Thing.begin followed by any number of LastValues.begin.
  datatype Group = Group(begins: nat, asks: nat)

  function Repeat(k: Kind, n: nat): seq<Kind> {
    if n == 0 then [] else Repeat(k, n - 1) + [k]
  }

  function Spell(gs: seq<Group>): seq<Kind> {
    if gs == [] then []
    else
      var g := gs[|gs| - 1];
      Spell(gs[..|gs| - 1]) + Repeat(Thing, g.begins) + Repeat(Last, g.asks)
  }

  function Handshake(net: bool, gs: seq<Group>): seq<Kind> {
    [Device] + (if net then [Net] else []) + Spell(gs)
  }

  ghost predicate FollowsProtocol(ks: seq<Kind>) {
    exists net, gs: seq<Group> ::
      (forall g <- gs :: g.begins >= 1) && ks <= Handshake(net, gs)
  }

  // The same set of sequences, as the FSM's next command can be checked against it.
  ghost function Rest(ks: seq<Kind>): seq<Kind> {
    if |ks| > 1 && ks[1] == Net then ks[2..] else if |ks| > 0 then ks[1..] else []
  }

  ghost predicate Calls(r: seq<Kind>) {
    && (forall i :: 0 <= i < |r| ==> r[i] == Thing || r[i] == Last)
    && (r != [] ==> r[0] == Thing)
  }

  ghost predicate WellFormed(ks: seq<Kind>) {
    ks == [] || (ks[0] == Device && Calls(Rest(ks)))
  }

  lemma SpellSnoc(gs: seq<Group>, g: Group)
    ensures Spell(gs + [g]) == Spell(gs) + Repeat(Thing, g.begins) + Repeat(Last, g.asks)
  {
    assert (gs + [g])[..|gs|] == gs;
  }

  // One more Thing.begin opens a group; one more LastValues.begin extends the last.
  lemma NewGroup(gs: seq<Group>)
    ensures Spell(gs + [Group(1, 0)]) == Spell(gs) + [Thing]
  {
    SpellSnoc(gs, Group(1, 0));
    assert Repeat(Thing, 1) == Repeat(Thing, 0) + [Thing];
  }

  lemma LongerGroup(gs: seq<Group>, g: Group)
    ensures Spell(gs + [Group(g.begins, g.asks + 1)]) == Spell(gs + [g]) + [Last]
  {
    SpellSnoc(gs, g);
    SpellSnoc(gs, Group(g.begins, g.asks + 1));
  }

  // Any such run of calls splits into groups.
  lemma {:induction false} Regroup(r: seq<Kind>) returns (gs: seq<Group>)
    requires Calls(r)
    ensures Spell(gs) == r && forall g <- gs :: g.begins >= 1
    ensures r != [] ==> gs != []
  {
    if r == [] {
      gs := [];
    } else {
      var init, k := r[..|r| - 1], r[|r| - 1];
      var shorter := Regroup(init);
      assert r == init + [k];
      if k == Thing {
        NewGroup(shorter);
        gs := shorter + [Group(1, 0)];
      } else {
        var before, last := shorter[..|shorter| - 1], shorter[|shorter| - 1];
        assert shorter == before + [last];
        LongerGroup(before, last);
        gs := before + [Group(last.begins, last.asks + 1)];
      }
    }
  }

  lemma WellFormedFollows(ks: seq<Kind>)
    requires WellFormed(ks)
    ensures FollowsProtocol(ks)
  {
    var net := |ks| > 1 && ks[1] == Net;
    var gs := Regroup(Rest(ks));
    if ks == [] {
      assert ks <= Handshake(false, []);
    } else {
      assert ks == Handshake(net, gs);
    }
  }

  lemma AppendThing(cmds: seq<Cmd>)
    requires cmds != [] && WellFormed(Kinds(cmds))
    ensures WellFormed(Kinds(cmds + [ThingBegin])) && Rest(Kinds(cmds + [ThingBegin])) != []
  {
    assert Kinds(cmds + [ThingBegin]) == Kinds(cmds) + [Thing];
    assert Rest(Kinds(cmds) + [Thing]) == Rest(Kinds(cmds)) + [Thing];
  }

  lemma AppendLast(cmds: seq<Cmd>, thing: string)
    requires WellFormed(Kinds(cmds)) && Rest(Kinds(cmds)) != []
    ensures WellFormed(Kinds(cmds + [LastValuesBegin(thing)])) && Rest(Kinds(cmds + [LastValuesBegin(thing)])) != []
  {
    assert Kinds(cmds + [LastValuesBegin(thing)]) == Kinds(cmds) + [Last];
    assert Rest(Kinds(cmds) + [Last]) == Rest(Kinds(cmds)) + [Last];
  }

  // ---------- Invariants ----------

  // How much of the handshake each stage presupposes.
  ghost predicate SentFits(stage: Stage, sent: seq<Cmd>) {
    && WellFormed(Kinds(sent))
    && (forall c <- sent :: c.LastValuesBegin? ==> c.thing != "")
    && match stage
       case AnnounceSubscribe => sent == []
       case AnnounceBegin => sent == []
       case AnnounceNet => sent == [DeviceBegin]
       case AwaitBegin => sent != []
       case AwaitLoop => Rest(Kinds(sent)) != []
       case SyncSubscribe => Rest(Kinds(sent)) != []
       case SyncBegin => Rest(Kinds(sent)) != []
       case SyncLoop => Rest(Kinds(sent)) != []
       case SteadyLoop => Rest(Kinds(sent)) != []
       case ReattachSubscribe => Rest(Kinds(sent)) != []
       case ReattachBegin => Rest(Kinds(sent)) != []
       case _ => true
  }

  // The published state and thing id at each stage.
  ghost predicate SnapshotFits(s: State) {
    match s.stage
    case SyncSubscribe => s.thingID != "" && s.snapshot == Snapshot(SyncingLastValues, s.thingID)
    case SyncBegin => s.thingID != "" && s.snapshot == Snapshot(SyncingLastValues, s.thingID)
    case SyncLoop => s.thingID != "" && s.snapshot == Snapshot(SyncingLastValues, s.thingID)
    case SteadyLoop => s.thingID != "" && s.snapshot == Snapshot(Steady, s.thingID)
    case ReattachSubscribe => s.thingID != "" && s.snapshot == Snapshot(Steady, s.thingID)
    case ReattachBegin => s.thingID != "" && s.snapshot == Snapshot(Steady, s.thingID)
    case AwaitBegin => s.thingID == "" && s.snapshot == Snapshot(AwaitingThingID, "")
    case AwaitLoop => s.thingID == "" && s.snapshot == Snapshot(AwaitingThingID, "")
    case ReconnectEntry => s.snapshot.thing != "" <==> s.snapshot.state.SyncingLastValues? || s.snapshot.state.Steady?
    case _ => s.snapshot.thing == "" && !s.snapshot.state.SyncingLastValues? && !s.snapshot.state.Steady?
  }

  ghost predicate SyncFits(s: State) {
    match s.stage
    case SyncSubscribe => s.sync.begins == 0 && s.sync.ops == []
    case SyncBegin => s.sync.begins == 0 && s.sync.ops == []
    case SyncLoop =>
      s.sync.begins == s.sync.attempts && 1 <= s.sync.attempts <= MAX_SYNC_ATTEMPTS && s.sync.ops == []
    case _ => true
  }

  function Pow(base: real, k: nat): real {
    if k == 0 then 1.0 else base * Pow(base, k - 1)
  }

  function Floor(k: nat): real {
    if Pow(1.8, k) < 270.0 then Pow(1.8, k) else 270.0
  }

  ghost predicate DelayFits(delay: real, failures: nat) {
    Floor(failures) <= delay <= 810.0
  }

  ghost predicate BackoffFits(s: State) {
    match s.stage
    case ReconnectWait => DelayFits(s.conn.backoff, s.conn.failures)
    case Connect => DelayFits(s.conn.backoff, s.conn.failures)
    case ReconnectEntry =>
      if s.conn.backoff == 0.0 then s.conn.failures == 0
      else s.conn.failures > 0 && DelayFits(s.conn.backoff, s.conn.failures - 1)
    case Stopped => true
    case _ => s.conn == Conn(0.0, 0)
  }

  function Pow2(k: nat): nat {
    if k == 0 then 1 else 2 * Pow2(k - 1)
  }

  ghost predicate RetryFits(s: State) {
    var w := s.wait;
    s.stage.AwaitLoop? ==>
      if w.registered then w.maxDelay == PHASE2_MAX && w.delay == Min(PHASE2_BASE * Pow2(w.retries), PHASE2_MAX)
      else w.maxDelay == PHASE1_MAX && w.delay == Min(PHASE1_BASE * Pow2(w.retries), PHASE1_MAX)
  }

  // ---------- Steps ----------

  // What a stage that may send a command leaves behind after sending it.
  lemma SendThing(s: State)
    requires s.sent != [] && SentFits(s.stage, s.sent)
    ensures SentFits(AwaitLoop, Attempt(s, ThingBegin).sent)
  {
    AppendThing(s.sent);
  }

  lemma SendLast(s: State)
    requires Rest(Kinds(s.sent)) != [] && SentFits(s.stage, s.sent) && s.thingID != ""
    ensures SentFits(SyncLoop, AskLastValues(s).sent)
  {
    AppendLast(s.sent, s.thingID);
  }

  lemma SendFirst(sent: seq<Cmd>)
    ensures sent == [] ==> sent + [DeviceBegin] == [DeviceBegin] && SentFits(AnnounceNet, sent + [DeviceBegin])
    ensures sent == [DeviceBegin] ==> SentFits(AwaitBegin, sent + [NetConfig])
    ensures SentFits(AnnounceBegin, [])
  {
    assert Kinds([DeviceBegin]) == [Device];
    if sent == [DeviceBegin] {
      assert sent + [NetConfig] == [DeviceBegin, NetConfig];
      assert Kinds([DeviceBegin, NetConfig]) == [Device, Net];
    }
  }

  ghost predicate SentFitsAfter(r: Option<State>) {
    r.Some? ==> SentFits(r.value.stage, r.value.sent)
  }

  lemma OkSends(s: State)
    requires SentFits(s.stage, s.sent) && SnapshotFits(s)
    ensures SentFitsAfter(StepOk(s))
  {
    SendFirst(s.sent);
    match s.stage
    case AwaitBegin => SendThing(s);
    case SyncBegin => SendLast(s);
    case ReattachBegin => SendLast(s);
    case _ =>
  }

  lemma FailSends(s: State)
    requires SentFits(s.stage, s.sent) && SnapshotFits(s)
    ensures SentFitsAfter(StepFail(s))
  {
    SendFirst(s.sent);
    match s.stage
    case AwaitBegin => SendThing(s);
    case AwaitLoop => SendThing(s);
    case SyncBegin => SendLast(s);
    case SyncLoop => SendLast(s);
    case ReattachBegin => SendLast(s);
    case _ =>
  }

  lemma TimerSends(s: State)
    requires SentFits(s.stage, s.sent) && SnapshotFits(s)
    ensures SentFitsAfter(StepTimer(s))
  {
    match s.stage
    case AwaitLoop => SendThing(s);
    case SyncLoop => SendLast(s);
    case _ =>
  }

  lemma TakeSends(s: State, m: Message)
    requires SentFits(s.stage, s.sent)
    ensures SentFitsAfter(StepTake(s, m))
  {
    assert Rest(Kinds(s.sent)) != [] ==> s.sent != [];
  }

  lemma StepSends(s: State, e: Event)
    requires SentFits(s.stage, s.sent) && SnapshotFits(s) && Step(s, e).Some?
    ensures SentFits(Step(s, e).value.stage, Step(s, e).value.sent)
  {
    match e
    case Ok => OkSends(s);
    case Fail => FailSends(s);
    case Timer => TimerSends(s);
    case Take => TakeSends(s.(queue := s.queue[1..]), s.queue[0]);
    case _ =>
  }

  lemma CallPublishes(s: State)
    requires SnapshotFits(s)
    ensures StepOk(s).Some? ==> SnapshotFits(StepOk(s).value)
    ensures StepFail(s).Some? ==> SnapshotFits(StepFail(s).value)
    ensures StepTimer(s).Some? ==> SnapshotFits(StepTimer(s).value)
  {
  }

  lemma TakePublishes(s: State, m: Message)
    requires SnapshotFits(s)
    ensures StepTake(s, m).Some? ==> SnapshotFits(StepTake(s, m).value)
  {
  }

  lemma StepPublishes(s: State, e: Event)
    requires SnapshotFits(s) && Step(s, e).Some?
    ensures SnapshotFits(Step(s, e).value)
  {
    match e
    case Ok => CallPublishes(s);
    case Fail => CallPublishes(s);
    case Timer => CallPublishes(s);
    case Take => TakePublishes(s.(queue := s.queue[1..]), s.queue[0]);
    case _ =>
  }

  lemma StepSyncs(s: State, e: Event)
    requires SyncFits(s) && Step(s, e).Some?
    ensures SyncFits(Step(s, e).value)
  {
  }

  lemma MulNonNegative(x: real, y: real)
    requires x >= 0.0 && y >= 0.0
    ensures x * y >= 0.0
  {
  }

  // Every draw keeps the doubled, capped delay between 90% and 270% of itself.
  lemma JitterRange(current: real, seed: nat)
    requires current > 0.0 && seed < 10
    ensures var next := if current * 2.0 > 300.0 then 300.0 else current * 2.0;
            && NextConnBackoff(current, seed) == next * 0.9 + next * (0.2 * seed as real)
            && 0.9 * next <= NextConnBackoff(current, seed) <= 2.7 * next
            && NextConnBackoff(current, 0) == 0.9 * next
            && NextConnBackoff(current, 9) == 2.7 * next
  {
    var next := if current * 2.0 > CONN_MAX then CONN_MAX else current * 2.0;
    var d := seed as real * 2.0 - 1.0;
    assert -1.0 <= d <= 17.0;
    assert next * 0.1 * d == 0.1 * (next * d);
    MulNonNegative(next, d + 1.0);
    MulNonNegative(next, 17.0 - d);
    assert next * (d + 1.0) == next * d + next && next * (17.0 - d) == 17.0 * next - next * d;
    assert 0.1 * (next * (d + 1.0)) == next * (0.1 * (d + 1.0)) == next * (0.2 * seed as real);
  }

  // The ten-percent jitter the constants promise holds for two of the ten draws.
  lemma TenPercentExactly(current: real, seed: nat)
    requires current > 0.0 && seed < 10
    ensures var next := if current * 2.0 > 300.0 then 300.0 else current * 2.0;
            0.9 * next <= NextConnBackoff(current, seed) <= 1.1 * next <==> seed <= 1
  {
    var next := if current * 2.0 > CONN_MAX then CONN_MAX else current * 2.0;
    var d := seed as real * 2.0 - 1.0;
    assert next * 0.1 * d == 0.1 * (next * d);
    if seed >= 2 {
      MulNonNegative(next, d - 3.0);
      assert next * (d - 3.0) == next * d - 3.0 * next;
    } else {
      assert d == -1.0 || d == 1.0;
    }
  }

  lemma NextDelayFits(current: real, failures: nat, seed: nat)
    requires DelayFits(current, failures) && seed < 10
    ensures DelayFits(NextConnBackoff(current, seed), failures + 1)
  {
    FloorIsPositive(failures);
    JitterRange(current, seed);
  }

  lemma {:induction false} FloorIsPositive(k: nat)
    ensures Pow(1.8, k) >= 1.0
  {
    if k > 0 {
      FloorIsPositive(k - 1);
    }
  }

  lemma StepBacksOff(s: State, e: Event)
    requires BackoffFits(s) && Step(s, e).Some?
    ensures BackoffFits(Step(s, e).value)
  {
    FloorIsPositive(s.conn.failures);
    if s.stage.ReconnectEntry? && e.Draw? && s.conn.backoff != 0.0 {
      NextDelayFits(s.conn.backoff, s.conn.failures - 1, e.seed);
    }
  }

  lemma StepRetries(s: State, e: Event)
    requires RetryFits(s) && Step(s, e).Some?
    ensures RetryFits(Step(s, e).value)
  {
  }

  // ---------- Every life ----------

  ghost predicate Inv(s: State) {
    SentFits(s.stage, s.sent) && SnapshotFits(s) && SyncFits(s) && BackoffFits(s) && RetryFits(s)
  }

  lemma InitFits(read: Senml.Payload -> Properties)
    ensures Inv(Init(read))
  {
  }

  lemma {:induction false} RunFits(read: Senml.Payload -> Properties, events: seq<Event>)
    requires Exec(read, events).Some?
    ensures Inv(Exec(read, events).value)
  {
    if events == [] {
      InitFits(read);
    } else {
      var before, e := Exec(read, events[..|events| - 1]).value, events[|events| - 1];
      RunFits(read, events[..|events| - 1]);
      StepSends(before, e);
      StepPublishes(before, e);
      StepSyncs(before, e);
      StepBacksOff(before, e);
      StepRetries(before, e);
    }
  }

  lemma ReachableFits(s: State)
    requires Reachable(s)
    ensures Inv(s)
  {
    var read, events :| Exec(read, events) == Some(s);
    RunFits(read, events);
  }

  // A thing id is published exactly while last values are syncing or the FSM is steady.
  lemma ThingPublishedExactly(s: State)
    requires Reachable(s)
    ensures s.snapshot.thing != "" <==> s.snapshot.state.SyncingLastValues? || s.snapshot.state.Steady?
  {
    ReachableFits(s);
  }

  // The commands attempted on a connection are a prefix of the protocol, and last values are
  // only ever asked for with a thing assigned.
  lemma CommandsFollowProtocol(s: State)
    requires Reachable(s)
    ensures FollowsProtocol(Kinds(s.sent))
    ensures forall i :: 0 <= i < |s.sent| && s.sent[i].LastValuesBegin? ==> s.sent[i].thing != ""
  {
    ReachableFits(s);
    WellFormedFollows(Kinds(s.sent));
  }

  // Syncing asks at most ten times and touches no variable. Every way into Steady, answered,
  // empty, unreadable or exhausted, has made exactly one announcement: of what was decoded, and
  // of nothing when nothing was.
  lemma SyncAppliesOnce(s: State, e: Event)
    requires Reachable(s) && Step(s, e).Some?
    ensures s.stage.SyncLoop? ==> s.sync.ops == [] && 1 <= s.sync.begins <= 10
    ensures s.stage.SyncLoop? && e.Timer? ==> (Step(s, e).value.snapshot.state.Steady? <==> s.sync.begins == 10)
    ensures !s.snapshot.state.Steady? && Step(s, e).value.snapshot.state.Steady? ==>
              s.stage.SyncLoop? && AnnouncedOnce(s.sync, Step(s, e).value.sync, AnswerTo(s, e))
  {
    ReachableFits(s);
    OneAnnouncement(AnswerTo(s, e));
  }

  // The values of the answer taken from the queue, if the event takes one that could be read.
  ghost function AnswerTo(s: State, e: Event): seq<Announcement> {
    if e.Take? && s.queue != [] && s.queue[0].LastValuesUpdate? then ValuesIn(s.read(s.queue[0].last)) else []
  }

  // No further request, and one registry operation: the announcement of these values.
  ghost predicate AnnouncedOnce(before: Sync, after: Sync, values: seq<Announcement>) {
    && after.begins == before.begins <= 10
    && after.ops == [Announce(values)] && Announcements(after.ops) == 1
  }

  lemma OneAnnouncement(values: seq<Announcement>)
    ensures Announcements([Announce(values)]) == 1 && [] + [Announce(values)] == [Announce(values)]
  {
    assert [Announce(values)][..0] == [] && Announcements([]) == 0;
  }

  // After k failed connects in a row the next delay is at least min(1.8^k, 270) seconds, and
  // no delay exceeds 810 seconds, whatever is drawn; a success starts over at one second.
  lemma ReconnectDelay(s: State)
    requires Reachable(s) && s.stage.ReconnectWait?
    ensures Pow(1.8, s.conn.failures) <= s.conn.backoff || 270.0 <= s.conn.backoff
    ensures s.conn.backoff <= 810.0
  {
    ReachableFits(s);
  }

  lemma SuccessRestartsBackoff(s: State, seed: nat)
    requires Reachable(s) && s.stage.ReconnectEntry? && s.conn.failures == 0 && seed < 10
    ensures Step(s, Draw(seed)).value.conn.backoff == CONN_BASE
  {
    ReachableFits(s);
  }

  // Thing.begin is repeated at doubling intervals: from 2 to 32 seconds until the cloud
  // answers at all, from 20 to 1280 once it has answered without a thing.
  lemma ThingRetryDelay(s: State)
    requires Reachable(s) && s.stage.AwaitLoop?
    ensures s.wait.delay == if s.wait.registered then Min(20 * Pow2(s.wait.retries), 1280)
                            else Min(2 * Pow2(s.wait.retries), 32)
  {
    ReachableFits(s);
  }
}
