/** Concrete runs showing that the conditional guarantees need their conditions. */
module ProvisioningWitnesses {
  import opened Common
  import opened ProvisioningMachine
  import opened ProvisioningSafety
  import opened ProvisioningPreludes

  lemma Then(states: seq<State>, events: seq<Event>, e: Event, s: State)
    returns (states': seq<State>, events': seq<Event>)
    requires Path(states, events) && Apply(states[|events|], e) == Some(s)
    ensures Path(states', events') && states'[|events'|] == s && states'[0] == states[0]
    ensures states' == states + [s] && events' == events + [e]
  {
    states', events' := states + [s], events + [e];
  }

  // From the start of an attempt without credentials to a certificate about to be stored.
  lemma Attempt(states: seq<State>, events: seq<Event>, s: State, deadline: int, c: Certificate)
    returns (states': seq<State>, events': seq<Event>)
    requires Path(states, events) && states[|events|] == s && s.pc.AttemptStart?
    requires s.disk.marker == Some(deadline - WINDOW) && !HasCredentials(s.disk)
    ensures Path(states', events') && states'[0] == states[0]
    ensures states'[|events'|] == s.(pc := StoreCert(deadline, c), disk := s.disk.(cloudKey := Some(c.key)))
  {
    var d := s.disk.(cloudKey := Some(c.key));
    states', events' := Then(states, events, Proceed, s.(pc := RemoveKey(deadline)));
    states', events' := Then(states', events', RemoveOk(KeyFile),
                             s.(pc := WriteKey(deadline), disk := s.disk.(cloudKey := None)));
    states', events' := Then(states', events', NewKey(c.key), s.(pc := BuildCsr(deadline), disk := d));
    states', events' := Then(states', events', Proceed, s.(pc := SubmitCsr(deadline, c.key), disk := d));
    states', events' := Then(states', events', Issue(c.subject, c.serial), s.(pc := StoreCert(deadline, c), disk := d));
  }

  const FIRST := Certificate(2, "a", 1)
  const SECOND_ISSUE := Certificate(3, "b", 2)
  const STORED := Disk(Some(0), Some(FIRST), Some("a"), None, Some(2))

  // A parked daemon takes a request and empties the board.
  const IDLE := FRESH_PROCESS.(snapshot := ProvisioningStage)
  const BUSY := IDLE.(owed := Some(0), accepted := [0])
  const EMPTIED := State(AttemptStart, Disk(Some(0), None, None, None, Some(1)), 0, {},
                         IDLE.(accepted := [0], replies := [0]))

  lemma Asked(states: seq<State>, events: seq<Event>, d: Disk, t: int)
    returns (states': seq<State>, events': seq<Event>)
    requires Path(states, events) && states[|events|] == State(Parked, d, t, {}, IDLE)
    ensures Path(states', events') && states'[0] == states[0]
    ensures states'[|events'|] ==
            State(WipeDeviceId(ForPrelude("")), d.(marker := Some(t), cert := None), t, {}, BUSY)
  {
    assert IDLE.accepted + [0] == [0];
    states', events' := Then(states, events, Command(0, ""), State(BeginPrelude(""), d, t, {}, BUSY));
    states', events' := Then(states', events', Proceed, State(WriteMarker(""), d, t, {}, BUSY));
    states', events' := Then(states', events', WriteOk(MarkerFile),
                             State(WipeCert(ForPrelude("")), d.(marker := Some(t)), t, {}, BUSY));
    states', events' := Then(states', events', RemoveOk(CertFile),
                             State(WipeDeviceId(ForPrelude("")), d.(marker := Some(t), cert := None), t, {}, BUSY));
  }

  lemma Prelude() returns (states: seq<State>, events: seq<Event>)
    ensures Path(states, events) && states[0] == Init(0) && states[|events|] == EMPTIED
  {
    var bare := EMPTY_DISK.(cloudKey := Some(1));
    var marked := bare.(marker := Some(0));
    states, events := [Init(0)], [];
    states, events := Then(states, events, Start, State(BootKey, EMPTY_DISK, 0, {}, FRESH_PROCESS));
    states, events := Then(states, events, NewKey(1), State(CheckInternet, bare, 0, {}, FRESH_PROCESS));
    states, events := Then(states, events, Proceed, State(Parked, bare, 0, {}, IDLE));
    states, events := Asked(states, events, bare, 0);
    states, events := Then(states, events, RemoveOk(DeviceIdFile),
                           State(WipeOrganization(ForPrelude("")), marked, 0, {}, BUSY));
    states, events := Then(states, events, RemoveOk(OrganizationFile), State(Reply(true), marked, 0, {}, BUSY));
    assert IDLE.replies + [0] == [0];
    states, events := Then(states, events, Proceed, EMPTIED);
  }

  // A first provisioning, up to the activation call.
  lemma FirstCertificate() returns (states: seq<State>, events: seq<Event>)
    ensures Path(states, events) && states[0] == Init(0)
    ensures states[|events|] == EMPTIED.(pc := Complete(WINDOW), disk := STORED)
  {
    states, events := Prelude();
    states, events := Attempt(states, events, EMPTIED, WINDOW, FIRST);
    states, events := Then(states, events, WriteOk(CertFile),
                           EMPTIED.(pc := StoreDeviceId(WINDOW, "a"), disk := STORED.(deviceId := None)));
    states, events := Then(states, events, WriteOk(DeviceIdFile),
                           EMPTIED.(pc := Complete(WINDOW), disk := STORED));
  }

  const CLEAN := STORED.(marker := None)
  const AT_END := EMPTIED.(now := WINDOW, disk := STORED)
  const DISCARDED := AT_END.(pc := Parked, disk := CLEAN, proc := AT_END.proc.(completeFailed := true))

  // The window ends before activation and the certificate cannot be removed.
  lemma FailedDiscard() returns (states: seq<State>, events: seq<Event>)
    ensures Path(states, events) && states[0] == Init(0) && states[|events|] == DISCARDED
  {
    states, events := FirstCertificate();
    states, events := Then(states, events, Tick(WINDOW), AT_END.(pc := Complete(WINDOW)));
    states, events := Then(states, events, Expired, AT_END.(pc := WipeCert(ForExpiry)));
    states, events := Then(states, events, RemoveErr(CertFile), AT_END.(pc := ClearExpired));
    states, events := Then(states, events, RemoveOk(MarkerFile), DISCARDED);
  }

  // The tolerated failure of the discard leaves a certificate the broker refuses, and after
  // a restart the daemon runs with it.
  lemma FailedDiscardReachesRun() returns (events: seq<Event>)
    ensures IsRun(0, events)
    ensures var s := Exec(0, events).value;
            s.pc.Running? && HasCredentials(s.disk) && s.disk.cert.value !in s.activated
  {
    var states;
    states, events := FailedDiscard();
    var p := FRESH_PROCESS.(snapshot := RunState);
    states, events := Then(states, events, Crash, State(Down, CLEAN, WINDOW, {}, FRESH_PROCESS));
    states, events := Then(states, events, Start, State(BootKey, CLEAN, WINDOW, {}, FRESH_PROCESS));
    states, events := Then(states, events, Proceed, State(CheckInternet, CLEAN, WINDOW, {}, FRESH_PROCESS));
    states, events := Then(states, events, Proceed, State(EnterRun, CLEAN, WINDOW, {}, p));
    states, events := Then(states, events, Proceed,
                           State(Running, CLEAN, WINDOW, {}, p.(attached := true, cloudUp := true)));
    PathIsRun(0, states, events);
  }

  // Without a restart, a request refused at its marker makes the service report the same
  // certificate as provisioned. The process still remembers both requests.
  lemma RefusedRequestReportsProvisioned() returns (events: seq<Event>)
    ensures IsRun(0, events)
    ensures var s := Exec(0, events).value;
            && s.pc.Parked? && s.proc.replies == [0, 1]
            && StateOf(s.proc.completeFailed, s.disk, s.now) == Provisioned && s.disk.cert.value !in s.activated
  {
    var states;
    states, events := FailedDiscard();
    var p := AT_END.proc.(owed := Some(1), accepted := [0, 1]);
    var s := AT_END.(disk := CLEAN, proc := p);
    assert [0] + [1] == [0, 1];
    states, events := Then(states, events, Command(1, ""),
                           s.(pc := BeginPrelude(""), proc := p.(completeFailed := true)));
    states, events := Then(states, events, Proceed, s.(pc := WriteMarker("")));
    states, events := Then(states, events, WriteErr(MarkerFile), s.(pc := Reply(false)));
    states, events := Then(states, events, Proceed,
                           s.(pc := Parked, proc := p.(owed := None, replies := [0, 1])));
    PathIsRun(0, states, events);
  }

  // ---------- A provisioned board ----------

  const ACTIVE := {FIRST}
  const IN_RUN := EMPTIED.proc.(snapshot := RunState, attached := true, cloudUp := true)
  const RUNNING := State(Running, CLEAN, 0, ACTIVE, IN_RUN)

  lemma ActivatedOnce() returns (states: seq<State>, events: seq<Event>)
    ensures Path(states, events) && states[0] == Init(0)
    ensures states[|events|] == EMPTIED.(pc := ClearDone, disk := STORED, activated := ACTIVE)
  {
    states, events := FirstCertificate();
    assert {} + {FIRST} == ACTIVE;
    states, events := Then(states, events, CompleteOk, EMPTIED.(pc := ClearDone, disk := STORED, activated := ACTIVE));
  }

  lemma ReachRunning() returns (states: seq<State>, events: seq<Event>)
    ensures Path(states, events) && states[0] == Init(0) && states[|events|] == RUNNING
  {
    states, events := ActivatedOnce();
    var s := EMPTIED.(disk := CLEAN, activated := ACTIVE);
    states, events := Then(states, events, RemoveOk(MarkerFile), s.(pc := AttemptDone));
    states, events := Then(states, events, Proceed,
                           s.(pc := EnterRun, proc := s.proc.(snapshot := RunState)));
    states, events := Then(states, events, Proceed, RUNNING);
  }

  // One more step of a request that is still owed its answer.
  lemma ThenServing(states: seq<State>, events: seq<Event>, c: nat, e: Event, s: State)
    returns (states': seq<State>, events': seq<Event>)
    requires Path(states, events) && c <= |events| && Apply(states[|events|], e) == Some(s) && s.proc.owed.Some?
    requires if c == |events| then e.Command? else Serving(states, events, c, |events|)
    ensures Path(states', events') && |events'| == |events| + 1 && Serving(states', events', c, |events'|)
    ensures states'[|events'|] == s && states'[0] == states[0] && states'[c] == states[c]
  {
    states', events' := Then(states, events, e, s);
  }

  const OWING := IN_RUN.(owed := Some(1), accepted := [0, 1])
  const ASKED := RUNNING.(proc := OWING.(attached := false, cloudUp := false))

  // A running daemon takes a request and writes the marker.
  lemma AskedInRun() returns (states: seq<State>, events: seq<Event>, c: nat)
    ensures Path(states, events) && states[0] == Init(0) && c < |events| && states[c] == RUNNING
    ensures Serving(states, events, c, |events|)
    ensures states[|events|] == ASKED.(pc := WipeCert(ForPrelude("")), disk := STORED)
  {
    states, events := ReachRunning();
    c := |events|;
    assert [0] + [1] == [0, 1];
    states, events := ThenServing(states, events, c, Command(1, ""),
                                  RUNNING.(pc := Stopping(Some("")), proc := OWING));
    states, events := ThenServing(states, events, c, CloudExits,
                                  RUNNING.(pc := Detaching(Some("")), proc := OWING.(cloudUp := false)));
    states, events := ThenServing(states, events, c, Proceed, ASKED.(pc := BeginPrelude("")));
    states, events := ThenServing(states, events, c, Proceed, ASKED.(pc := WriteMarker("")));
    states, events := ThenServing(states, events, c, WriteOk(MarkerFile),
                                  ASKED.(pc := WipeCert(ForPrelude("")), disk := STORED));
  }

  // A request refused because the device id could not be removed has cost a running daemon
  // its activated certificate.
  lemma RefusedRequestLosesCertificate() returns (states: seq<State>, events: seq<Event>, c: nat)
    ensures RunOf(states, events) && Serving(states, events, c, |events|)
    ensures states[c].pc.Running? && states[c].disk.cert.Some? && states[c].disk.cert.value in states[c].activated
    ensures states[|events|].pc == Reply(false) && states[|events|].disk.cert.None?
  {
    states, events, c := AskedInRun();
    states, events := ThenServing(states, events, c, RemoveOk(CertFile),
                                  ASKED.(pc := WipeDeviceId(ForPrelude("")), disk := STORED.(cert := None)));
    states, events := ThenServing(states, events, c, RemoveErr(DeviceIdFile),
                                  ASKED.(pc := Rollback, disk := STORED.(cert := None)));
    states, events := ThenServing(states, events, c, RemoveOk(MarkerFile),
                                  ASKED.(pc := Reply(false), disk := CLEAN.(cert := None)));
  }

  // A restart finds a marker over credentials and resumes the attempt.
  lemma Resumed(states: seq<State>, events: seq<Event>, s: State)
    returns (states': seq<State>, events': seq<Event>)
    requires Path(states, events) && states[|events|] == s && !s.pc.Down? && s.disk.cloudKey.Some?
    requires s.disk.marker.Some? && s.now < s.disk.marker.value + WINDOW
    ensures Path(states', events') && states'[0] == states[0]
    ensures states'[|events'|] == s.(pc := AttemptStart, proc := IDLE)
  {
    states', events' := Then(states, events, Crash, s.(pc := Down, proc := FRESH_PROCESS));
    states', events' := Then(states', events', Start, s.(pc := BootKey, proc := FRESH_PROCESS));
    states', events' := Then(states', events', Proceed, s.(pc := CheckInternet, proc := FRESH_PROCESS));
    states', events' := Then(states', events', Proceed, s.(pc := AttemptStart, proc := IDLE));
  }

  // A request cut between its marker and its first removal resumes as an attempt to activate
  // the certificate it was to replace, which is active already.
  lemma CutRequestResumesActivated() returns (events: seq<Event>)
    ensures IsRun(0, events)
    ensures var s := Exec(0, events).value;
            s.pc.Complete? && HasCredentials(s.disk) && s.disk.cert.value in s.activated
  {
    var states, c;
    states, events, c := AskedInRun();
    states, events := Resumed(states, events, states[|events|]);
    states, events := Then(states, events, Proceed, State(Complete(WINDOW), STORED, 0, ACTIVE, IDLE));
    PathIsRun(0, states, events);
  }

  // Power lost between the activation and the removal of the marker costs the certificate, if
  // the cloud refuses to activate it again.
  lemma CrashAfterActivationDiscards() returns (events: seq<Event>)
    ensures IsRun(0, events)
    ensures var s := Exec(0, events).value;
            s.pc == WipeDeviceId(ForExpiry) && s.disk.cert.None? && FIRST in s.activated
  {
    var states;
    states, events := ActivatedOnce();
    states, events := Resumed(states, events, states[|events|]);
    var s := State(Complete(WINDOW), STORED, WINDOW, ACTIVE, IDLE);
    states, events := Then(states, events, Proceed, s.(now := 0));
    states, events := Then(states, events, Tick(WINDOW), s);
    states, events := Then(states, events, Expired, s.(pc := WipeCert(ForExpiry)));
    states, events := Then(states, events, RemoveOk(CertFile),
                           s.(pc := WipeDeviceId(ForExpiry), disk := STORED.(cert := None)));
    PathIsRun(0, states, events);
  }

  // ---------- A wrong pair ----------

  const PAIRED := Disk(Some(WINDOW), Some(SECOND_ISSUE), Some("a"), None, Some(3))

  // A wipe cut between its first two removals lets the next certificate be stored beside the
  // previous device id. Cut once more before the id is written, the attempt resumes with the
  // pair as it is: the certificate is activated and the daemon runs under the other id.
  lemma InterruptedWipeReachesRun() returns (events: seq<Event>)
    ensures IsRun(0, events)
    ensures var s := Exec(0, events).value;
            && s.pc.Running? && HasCredentials(s.disk) && s.disk.cert.value in s.activated
            && s.disk.cert.value.subject != s.disk.deviceId.value
  {
    var states;
    states, events := MispairedAttempt();
    var done := {SECOND_ISSUE};
    var kept, p := PAIRED.(marker := None), FRESH_PROCESS.(snapshot := RunState);
    states, events := Then(states, events, Crash, State(Down, PAIRED, WINDOW, {}, FRESH_PROCESS));
    states, events := Then(states, events, Start, State(BootKey, PAIRED, WINDOW, {}, FRESH_PROCESS));
    states, events := Then(states, events, Proceed, State(CheckInternet, PAIRED, WINDOW, {}, FRESH_PROCESS));
    states, events := Then(states, events, Proceed, State(AttemptStart, PAIRED, WINDOW, {}, IDLE));
    states, events := Then(states, events, Proceed, State(Complete(2 * WINDOW), PAIRED, WINDOW, {}, IDLE));
    assert {} + {SECOND_ISSUE} == done;
    states, events := Then(states, events, CompleteOk, State(ClearDone, PAIRED, WINDOW, done, IDLE));
    states, events := Then(states, events, RemoveOk(MarkerFile), State(AttemptDone, kept, WINDOW, done, IDLE));
    states, events := Then(states, events, Proceed, State(EnterRun, kept, WINDOW, done, p));
    states, events := Then(states, events, Proceed,
                           State(Running, kept, WINDOW, done, p.(attached := true, cloudUp := true)));
    PathIsRun(0, states, events);
  }

  lemma MispairedAttempt() returns (states: seq<State>, events: seq<Event>)
    ensures Path(states, events) && states[0] == Init(0)
    ensures states[|events|] == State(StoreDeviceId(2 * WINDOW, "b"), PAIRED, WINDOW, {}, IDLE)
  {
    states, events := FirstCertificate();
    var orphan := STORED.(cert := None, marker := Some(WINDOW));
    var resumed := State(AttemptStart, orphan, WINDOW, {}, IDLE);
    states, events := RewipeCut(states, events);
    states, events := Then(states, events, Start, State(BootKey, orphan, WINDOW, {}, FRESH_PROCESS));
    states, events := Then(states, events, Proceed, State(CheckInternet, orphan, WINDOW, {}, FRESH_PROCESS));
    states, events := Then(states, events, Proceed, resumed);
    states, events := Attempt(states, events, resumed, 2 * WINDOW, SECOND_ISSUE);
    states, events := Then(states, events, WriteOk(CertFile),
                           State(StoreDeviceId(2 * WINDOW, "b"), PAIRED, WINDOW, {}, IDLE));
  }

  // Power is lost before activation, the window passes, and power is lost again inside the
  // wipe of the next request.
  lemma RewipeCut(states: seq<State>, events: seq<Event>) returns (states': seq<State>, events': seq<Event>)
    requires Path(states, events) && states[|events|] == EMPTIED.(pc := Complete(WINDOW), disk := STORED)
    ensures Path(states', events') && states'[0] == states[0]
    ensures states'[|events'|] ==
            State(Down, STORED.(cert := None, marker := Some(WINDOW)), WINDOW, {}, FRESH_PROCESS)
  {
    states', events' := Then(states, events, Crash, State(Down, STORED, 0, {}, FRESH_PROCESS));
    states', events' := Then(states', events', Tick(WINDOW), State(Down, STORED, WINDOW, {}, FRESH_PROCESS));
    states', events' := Then(states', events', Start, State(BootKey, STORED, WINDOW, {}, FRESH_PROCESS));
    states', events' := Then(states', events', Proceed, State(CheckInternet, STORED, WINDOW, {}, FRESH_PROCESS));
    states', events' := Then(states', events', Proceed, State(Parked, STORED, WINDOW, {}, IDLE));
    states', events' := Asked(states', events', STORED, WINDOW);
    states', events' := Then(states', events', Crash,
                             State(Down, STORED.(cert := None, marker := Some(WINDOW)), WINDOW, {}, FRESH_PROCESS));
  }
}
