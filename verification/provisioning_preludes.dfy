/** What a refused provisioning request leaves of the board, read off the events of its run. */
module ProvisioningPreludes {
  import opened Common
  import opened ProvisioningMachine
  import opened ProvisioningSafety

  // The request accepted at c is still owed its answer at n.
  ghost predicate Serving(states: seq<State>, events: seq<Event>, c: nat, n: nat)
    requires |states| == |events| + 1 && n <= |events|
  {
    && c < n && events[c].Command?
    && forall k :: c < k <= n ==> states[k].proc.owed.Some?
  }

  ghost predicate Saw(events: seq<Event>, c: nat, n: nat, e: Event)
    requires n <= |events|
  {
    exists t :: c < t < n && events[t] == e
  }

  ghost predicate Missing(d: Disk, f: File) {
    match f
    case MarkerFile => d.marker.None?
    case CertFile => d.cert.None?
    case DeviceIdFile => d.deviceId.None?
    case OrganizationFile => d.organizationId.None?
    case KeyFile => d.cloudKey.None?
  }

  // What the events of a request so far have done to the files.
  datatype Trail = Trail(cert: bool, id: bool, organization: bool, marked: Option<int>, unmarked: bool)

  const NO_TRAIL := Trail(false, false, false, None, false)

  function Extended(t: Trail, e: Event, now: int): Trail {
    match e
    case RemoveOk(CertFile) => t.(cert := true)
    case RemoveOk(DeviceIdFile) => t.(id := true)
    case RemoveOk(OrganizationFile) => t.(organization := true)
    case RemoveOk(MarkerFile) => t.(unmarked := true)
    case WriteOk(MarkerFile) => t.(marked := Some(now))
    case _ => t
  }

  ghost predicate BeforeMarker(pc: Pc) {
    pc.Stopping? || pc.Detaching? || pc.BeginPrelude? || pc.WriteMarker?
  }

  // A disk that was d when the request was accepted.
  ghost predicate Follows(d: Disk, s: State, t: Trail) {
    && s.disk.cert == (if t.cert then None else d.cert)
    && s.disk.deviceId == (if t.id then None else d.deviceId)
    && (s.pc != Reply(true) ==> s.disk.organizationId == (if t.organization then None else d.organizationId))
    && s.disk.cloudKey == d.cloudKey
    && s.disk.marker == (if t.unmarked then None else if t.marked.Some? then t.marked else d.marker)
    && (t.marked.Some? ==> !BeforeMarker(s.pc))
    && (t.unmarked ==> t.marked.Some? && s.pc.Reply?)
    && (BeforeMarker(s.pc) ==> t == NO_TRAIL)
    && (t.marked.None? ==> t == NO_TRAIL && (BeforeMarker(s.pc) || s.pc == Reply(false)))
  }

  // The three credential files go in order.
  ghost predicate InOrder(pc: Pc, t: Trail) {
    && (t.id ==> t.cert) && (t.organization ==> t.id)
    && (pc.WipeDeviceId? ==> t.cert) && (pc.WipeOrganization? ==> t.id)
  }

  lemma AcceptedFollows(s: State, e: Event)
    requires Apply(s, e).Some? && e.Command?
    ensures Follows(s.disk, Apply(s, e).value, NO_TRAIL) && InOrder(Apply(s, e).value.pc, NO_TRAIL)
  {
  }

  lemma StepInOrder(s: State, e: Event, t: Trail)
    requires DaemonFits(s) && s.proc.owed.Some? && Apply(s, e).Some? && Apply(s, e).value.proc.owed.Some?
    requires InOrder(s.pc, t)
    ensures InOrder(Apply(s, e).value.pc, Extended(t, e, s.now))
  {
  }

  lemma ProceedFollows(d: Disk, s: State, t: Trail)
    requires DaemonFits(s) && Follows(d, s, t) && ApplyProceed(s).Some? && ApplyProceed(s).value.proc.owed.Some?
    ensures Follows(d, ApplyProceed(s).value, t)
  {
  }

  lemma WriteFollows(d: Disk, s: State, f: File, t: Trail)
    requires DaemonFits(s) && s.proc.owed.Some? && Follows(d, s, t)
    ensures ApplyWrite(s, f).Some? ==> Follows(d, ApplyWrite(s, f).value, Extended(t, WriteOk(f), s.now))
    ensures ApplyWrite(s, f).Some? && f.MarkerFile? ==> t.marked.None?
    ensures ApplyWriteErr(s, f).Some? ==>
              ApplyWriteErr(s, f).value.pc.Down? || Follows(d, ApplyWriteErr(s, f).value, t)
  {
  }

  lemma RemoveFollows(d: Disk, s: State, f: File, t: Trail)
    requires DaemonFits(s) && s.proc.owed.Some? && Follows(d, s, t)
    ensures ApplyRemove(s, f).Some? ==> Follows(d, ApplyRemove(s, f).value, Extended(t, RemoveOk(f), s.now))
  {
  }

  lemma KeptFollows(d: Disk, s: State, f: File, t: Trail)
    requires DaemonFits(s) && s.proc.owed.Some? && Follows(d, s, t)
    ensures ApplyRemoveErr(s, f).Some? ==> Follows(d, ApplyRemoveErr(s, f).value, t)
  {
  }

  lemma StepFollows(d: Disk, s: State, e: Event, t: Trail)
    requires DaemonFits(s) && s.proc.owed.Some? && Apply(s, e).Some? && Apply(s, e).value.proc.owed.Some?
    requires Follows(d, s, t)
    ensures Follows(d, Apply(s, e).value, Extended(t, e, s.now))
    ensures e == WriteOk(MarkerFile) ==> t.marked.None?
  {
    match e
    case Proceed => ProceedFollows(d, s, t);
    case WriteOk(f) => WriteFollows(d, s, f, t);
    case WriteErr(f) => WriteFollows(d, s, f, t);
    case RemoveOk(f) => RemoveFollows(d, s, f, t);
    case RemoveErr(f) => KeptFollows(d, s, f, t);
    case _ =>
  }

  // The trail says what was seen.
  ghost predicate TracksFiles(events: seq<Event>, c: nat, n: nat, t: Trail)
    requires n <= |events|
  {
    && (t.cert <==> Saw(events, c, n, RemoveOk(CertFile)))
    && (t.id <==> Saw(events, c, n, RemoveOk(DeviceIdFile)))
    && (t.organization <==> Saw(events, c, n, RemoveOk(OrganizationFile)))
    && (t.unmarked <==> Saw(events, c, n, RemoveOk(MarkerFile)))
  }

  ghost predicate TracksMarker(states: seq<State>, events: seq<Event>, c: nat, n: nat, t: Trail)
    requires |states| == |events| + 1 && n <= |events|
  {
    && (t.marked.Some? <==> Saw(events, c, n, WriteOk(MarkerFile)))
    && (forall w :: c < w < n && events[w] == WriteOk(MarkerFile) ==> t.marked == Some(states[w].now))
  }

  lemma SawNext(events: seq<Event>, c: nat, n: nat, e: Event)
    requires c < n < |events|
    ensures Saw(events, c, n + 1, e) <==> Saw(events, c, n, e) || events[n] == e
  {
    if Saw(events, c, n, e) {
      var t :| c < t < n && events[t] == e;
      assert c < t < n + 1;
    }
  }

  lemma TracksFilesNext(events: seq<Event>, c: nat, n: nat, t: Trail, at: int)
    requires c < n < |events| && TracksFiles(events, c, n, t)
    ensures TracksFiles(events, c, n + 1, Extended(t, events[n], at))
  {
    SawNext(events, c, n, RemoveOk(CertFile));
    SawNext(events, c, n, RemoveOk(DeviceIdFile));
    SawNext(events, c, n, RemoveOk(OrganizationFile));
    SawNext(events, c, n, RemoveOk(MarkerFile));
  }

  lemma TracksMarkerNext(states: seq<State>, events: seq<Event>, c: nat, n: nat, t: Trail)
    requires |states| == |events| + 1 && c < n < |events| && TracksMarker(states, events, c, n, t)
    requires events[n] == WriteOk(MarkerFile) ==> t.marked.None?
    ensures TracksMarker(states, events, c, n + 1, Extended(t, events[n], states[n].now))
  {
    SawNext(events, c, n, WriteOk(MarkerFile));
  }

  ghost predicate Traced(states: seq<State>, events: seq<Event>, c: nat, n: nat, t: Trail)
    requires |states| == |events| + 1 && c < n <= |events|
  {
    && Follows(states[c].disk, states[n], t) && InOrder(states[n].pc, t)
    && TracksFiles(events, c, n, t) && TracksMarker(states, events, c, n, t)
  }

  lemma AcceptedTraced(states: seq<State>, events: seq<Event>, c: nat)
    requires RunOf(states, events) && c < |events| && events[c].Command?
    ensures Traced(states, events, c, c + 1, NO_TRAIL)
  {
    assert Apply(states[c], events[c]) == Some(states[c + 1]);
    AcceptedFollows(states[c], events[c]);
  }

  lemma FollowsAt(states: seq<State>, events: seq<Event>, d: Disk, n: nat, t: Trail)
    requires RunOf(states, events) && n < |events| && Follows(d, states[n], t) && InOrder(states[n].pc, t)
    requires states[n].proc.owed.Some? && states[n + 1].proc.owed.Some?
    ensures Follows(d, states[n + 1], Extended(t, events[n], states[n].now))
    ensures InOrder(states[n + 1].pc, Extended(t, events[n], states[n].now))
    ensures events[n] == WriteOk(MarkerFile) ==> t.marked.None?
  {
    assert Apply(states[n], events[n]) == Some(states[n + 1]);
    RunOfFits(states, events, n);
    StepFollows(d, states[n], events[n], t);
    StepInOrder(states[n], events[n], t);
  }

  lemma StepTraced(states: seq<State>, events: seq<Event>, c: nat, n: nat, t: Trail)
    requires RunOf(states, events) && c < n < |events| && Traced(states, events, c, n, t)
    requires states[n].proc.owed.Some? && states[n + 1].proc.owed.Some?
    ensures Traced(states, events, c, n + 1, Extended(t, events[n], states[n].now))
  {
    FollowsAt(states, events, states[c].disk, n, t);
    TracksFilesNext(events, c, n, t, states[n].now);
    TracksMarkerNext(states, events, c, n, t);
  }

  ghost predicate HasTrail(states: seq<State>, events: seq<Event>, c: nat, n: nat)
    requires |states| == |events| + 1 && c < n <= |events|
  {
    exists t :: Traced(states, events, c, n, t)
  }

  lemma TrailGrows(states: seq<State>, events: seq<Event>, c: nat, n: nat)
    requires RunOf(states, events) && c < n < |events| && HasTrail(states, events, c, n)
    requires states[n].proc.owed.Some? && states[n + 1].proc.owed.Some?
    ensures HasTrail(states, events, c, n + 1)
  {
    var t :| Traced(states, events, c, n, t);
    StepTraced(states, events, c, n, t);
  }

  lemma {:induction false} EveryRequestHasTrail(states: seq<State>, events: seq<Event>, c: nat, n: nat)
    requires RunOf(states, events) && n <= |events| && Serving(states, events, c, n)
    ensures HasTrail(states, events, c, n)
    decreases n
  {
    if n == c + 1 {
      AcceptedTraced(states, events, c);
    } else {
      EveryRequestHasTrail(states, events, c, n - 1);
      TrailGrows(states, events, c, n - 1);
    }
  }

  // The files and what the service reports of them.
  ghost predicate BoardUnchanged(before: State, after: State) {
    after.disk == before.disk && after.proc.completeFailed == before.proc.completeFailed
  }

  // The marker is back to what it was, if it was written at all.
  ghost predicate MarkerRestored(states: seq<State>, events: seq<Event>, c: nat, n: nat)
    requires |states| == |events| + 1 && c < n <= |events|
  {
    forall w :: c < w < n && events[w] == WriteOk(MarkerFile) ==>
      states[c].disk.marker == if Saw(events, c, n, RemoveOk(MarkerFile)) then None else Some(states[w].now)
  }

  ghost predicate Harmless(d: Disk, t: Trail) {
    && (t.cert ==> d.cert.None?) && (t.id ==> d.deviceId.None?) && (t.organization ==> d.organizationId.None?)
    && (t.marked.Some? ==> d.marker == if t.unmarked then None else t.marked)
  }

  lemma DiskUnchanged(d: Disk, s: State, t: Trail)
    requires Follows(d, s, t) && s.pc == Reply(false)
    ensures s.disk == d <==> Harmless(d, t)
  {
  }

  lemma RefusalTrail(states: seq<State>, events: seq<Event>, c: nat, n: nat) returns (t: Trail)
    requires RunOf(states, events) && n <= |events| && Serving(states, events, c, n) && states[n].pc == Reply(false)
    ensures BoardUnchanged(states[c], states[n]) <==> !states[c].proc.completeFailed && Harmless(states[c].disk, t)
    ensures TracksFiles(events, c, n, t) && TracksMarker(states, events, c, n, t)
    ensures (t.id ==> t.cert) && (t.organization ==> t.id)
  {
    EveryRequestHasTrail(states, events, c, n);
    t :| Traced(states, events, c, n, t);
    RunOfFits(states, events, n);
    DiskUnchanged(states[c].disk, states[n], t);
  }

  // A refused request leaves the board as it was exactly when no failure was remembered, no
  // credential file that was there was removed, and the marker is what it was.
  lemma RefusalUnchangedExactly(states: seq<State>, events: seq<Event>, c: nat, n: nat)
    requires RunOf(states, events) && n <= |events| && Serving(states, events, c, n) && states[n].pc == Reply(false)
    ensures BoardUnchanged(states[c], states[n])
            <==> && !states[c].proc.completeFailed
                 && (forall f | f in {CertFile, DeviceIdFile, OrganizationFile} && Saw(events, c, n, RemoveOk(f)) ::
                       Missing(states[c].disk, f))
                 && MarkerRestored(states, events, c, n)
  {
    var t := RefusalTrail(states, events, c, n);
  }

  // On a provisioned board it changes nothing exactly when the certificate was not removed and
  // the marker, if it was written, was.
  lemma ProvisionedSurvivesExactly(states: seq<State>, events: seq<Event>, c: nat, n: nat)
    requires RunOf(states, events) && n <= |events| && Serving(states, events, c, n) && states[n].pc == Reply(false)
    requires StateOf(states[c].proc.completeFailed, states[c].disk, states[c].now) == Provisioned
    ensures BoardUnchanged(states[c], states[n])
            <==> && !Saw(events, c, n, RemoveOk(CertFile))
                 && (Saw(events, c, n, WriteOk(MarkerFile)) ==> Saw(events, c, n, RemoveOk(MarkerFile)))
  {
    var t := RefusalTrail(states, events, c, n);
  }
}
