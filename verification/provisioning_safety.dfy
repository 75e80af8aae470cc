/** What every run of the provisioning machine keeps. */
module ProvisioningSafety {
  import opened Common
  import opened ProvisioningMachine

  // ---------- Facts no failure can break ----------

  // The certificate is for the cloud key now on disk.
  ghost predicate KeyMatches(d: Disk) {
    HasCredentials(d) ==> d.cloudKey == Some(d.cert.value.key)
  }

  // An attempt runs under the marker its deadline was read from.
  ghost predicate Under(d: Disk, deadline: int) {
    d.marker == Some(deadline - WINDOW)
  }

  ghost predicate WindowClosed(d: Disk, now: int) {
    d.marker.Some? && d.marker.value + WINDOW <= now
  }

  ghost predicate WipeFits(d: Disk, now: int, w: Wipe) {
    d.marker.Some? && (w.ForExpiry? ==> WindowClosed(d, now))
  }

  // What the code has established at each point it can be stopped at.
  ghost predicate PcFits(pc: Pc, d: Disk, now: int, activated: set<Certificate>) {
    match pc
    case WipeCert(w) => WipeFits(d, now, w)
    case WipeDeviceId(w) => WipeFits(d, now, w) && d.cert.None?
    case WipeOrganization(w) => WipeFits(d, now, w) && d.cert.None? && d.deviceId.None?
    case StoreOrganization(_) => d.marker.Some? && d.cert.None? && d.deviceId.None?
    case Reply(ok) => ok ==> d.marker.Some? && d.cert.None? && d.deviceId.None?
    case RemoveKey(t) => Under(d, t) && !HasCredentials(d)
    case WriteKey(t) => Under(d, t) && !HasCredentials(d)
    case BuildCsr(t) => Under(d, t) && !HasCredentials(d)
    case SubmitCsr(t, k) => Under(d, t) && !HasCredentials(d) && d.cloudKey == Some(k)
    case StoreCert(t, c) => Under(d, t) && !HasCredentials(d) && d.cloudKey == Some(c.key)
    case StoreDeviceId(t, id) =>
      Under(d, t) && d.cert.Some? && d.cert.value.subject == id && d.cloudKey == Some(d.cert.value.key)
    case Complete(t) => Under(d, t) && HasCredentials(d)
    case Rollback => d.marker.Some?
    case ClearDone => d.marker.Some? && HasCredentials(d) && d.cert.value in activated
    case AttemptDone => HasCredentials(d) && d.cert.value in activated
    case ClearExpired => WindowClosed(d, now)
    case _ => true
  }

  ghost predicate DiskFits(s: State) {
    && KeyMatches(s.disk)
    && (s.disk.marker.Some? ==> s.disk.marker.value <= s.now)
    && PcFits(s.pc, s.disk, s.now, s.activated)
  }

  // Whether the cloud FSM is alive, attached, and a caller is waiting for an answer.
  ghost function Flags(pc: Pc): (bool, bool, bool) {
    match pc
    case Running => (true, true, false)
    case Stopping(n) => (true, true, n.Some?)
    case Detaching(n) => (false, true, n.Some?)
    case BeginPrelude(_) => (false, false, true)
    case WriteMarker(_) => (false, false, true)
    case WipeCert(w) => (false, false, w.ForPrelude?)
    case WipeDeviceId(w) => (false, false, w.ForPrelude?)
    case WipeOrganization(w) => (false, false, w.ForPrelude?)
    case StoreOrganization(_) => (false, false, true)
    case Rollback => (false, false, true)
    case Reply(_) => (false, false, true)
    case _ => (false, false, false)
  }

  ghost predicate DaemonFits(s: State) {
    var p := s.proc;
    && (p.cloudUp, p.attached, p.owed.Some?) == Flags(s.pc)
    && (p.attached || s.pc.EnterRun? ==> p.snapshot == RunState)
    && (p.completeFailed ==> s.pc.Parked? || s.pc.BeginPrelude?)
    && p.accepted == p.replies + (if p.owed.Some? then [p.owed.value] else [])
  }

  lemma InitFits(now: int)
    ensures DiskFits(Init(now)) && DaemonFits(Init(now))
  {
  }

  lemma ProceedKeepsDisk(s: State)
    requires DiskFits(s) && ApplyProceed(s).Some?
    ensures DiskFits(ApplyProceed(s).value)
  {
    match s.pc
    case CheckInternet =>
    case Reply(_) =>
    case AttemptStart =>
    case BuildCsr(_) =>
    case Detaching(_) =>
    case _ =>
  }

  lemma WriteKeepsDisk(s: State, f: File)
    requires DiskFits(s)
    ensures ApplyWrite(s, f).Some? ==> DiskFits(ApplyWrite(s, f).value)
    ensures ApplyWriteErr(s, f).Some? ==> DiskFits(ApplyWriteErr(s, f).value)
  {
  }

  lemma RemoveKeepsDisk(s: State, f: File)
    requires DiskFits(s)
    ensures ApplyRemove(s, f).Some? ==> DiskFits(ApplyRemove(s, f).value)
    ensures ApplyRemoveErr(s, f).Some? ==> DiskFits(ApplyRemoveErr(s, f).value)
  {
    match f
    case MarkerFile =>
    case CertFile =>
    case DeviceIdFile =>
    case OrganizationFile =>
    case KeyFile =>
  }

  lemma StepKeepsDisk(s: State, e: Event)
    requires DiskFits(s) && Apply(s, e).Some?
    ensures DiskFits(Apply(s, e).value)
  {
    match e
    case Proceed => ProceedKeepsDisk(s);
    case WriteOk(f) => WriteKeepsDisk(s, f);
    case WriteErr(f) => WriteKeepsDisk(s, f);
    case RemoveOk(f) => RemoveKeepsDisk(s, f);
    case RemoveErr(f) => RemoveKeepsDisk(s, f);
    case _ =>
  }

  lemma ProceedKeepsDaemon(s: State)
    requires DaemonFits(s) && ApplyProceed(s).Some?
    ensures DaemonFits(ApplyProceed(s).value)
  {
  }

  lemma FilesKeepDaemon(s: State, f: File)
    requires DaemonFits(s)
    ensures ApplyWrite(s, f).Some? ==> DaemonFits(ApplyWrite(s, f).value)
    ensures ApplyWriteErr(s, f).Some? ==> DaemonFits(ApplyWriteErr(s, f).value)
    ensures ApplyRemove(s, f).Some? ==> DaemonFits(ApplyRemove(s, f).value)
    ensures ApplyRemoveErr(s, f).Some? ==> DaemonFits(ApplyRemoveErr(s, f).value)
  {
  }

  lemma RequestsKeepDaemon(s: State, e: Event)
    requires e.Command? || e.Cancelled? || e.CloudExits?
    requires DaemonFits(s) && Apply(s, e).Some?
    ensures DaemonFits(Apply(s, e).value)
  {
  }

  lemma StepKeepsDaemon(s: State, e: Event)
    requires DaemonFits(s) && Apply(s, e).Some?
    ensures DaemonFits(Apply(s, e).value)
  {
    match e
    case Proceed => ProceedKeepsDaemon(s);
    case WriteOk(f) => FilesKeepDaemon(s, f);
    case WriteErr(f) => FilesKeepDaemon(s, f);
    case RemoveOk(f) => FilesKeepDaemon(s, f);
    case RemoveErr(f) => FilesKeepDaemon(s, f);
    case Command(_, _) => RequestsKeepDaemon(s, e);
    case Cancelled => RequestsKeepDaemon(s, e);
    case CloudExits => RequestsKeepDaemon(s, e);
    case _ =>
  }

  // ---------- Every run ----------

  lemma {:induction false} RunFits(now: int, events: seq<Event>)
    requires IsRun(now, events)
    ensures DiskFits(Exec(now, events).value) && DaemonFits(Exec(now, events).value)
  {
    if events == [] {
      InitFits(now);
    } else {
      var before := events[..|events| - 1];
      RunFits(now, before);
      StepKeepsDisk(Exec(now, before).value, events[|events| - 1]);
      StepKeepsDaemon(Exec(now, before).value, events[|events| - 1]);
    }
  }

  // Crashes and failed writes or removals included, a stored pair of credentials is always
  // for the private key on disk, so the board can always prove possession of its key.
  lemma CertificateMatchesKey(now: int, events: seq<Event>)
    requires IsRun(now, events)
    ensures var d := Exec(now, events).value.disk;
            HasCredentials(d) ==> d.cloudKey == Some(d.cert.value.key)
  {
    RunFits(now, events);
  }

  lemma Extend(now: int, events: seq<Event>, e: Event)
    ensures IsRun(now, events) ==> Exec(now, events + [e]) == Apply(Exec(now, events).value, e)
    ensures IsRun(now, events + [e]) ==> IsRun(now, events)
  {
    assert (events + [e])[..|events|] == events;
  }

  lemma {:induction false} PrefixIsRun(now: int, events: seq<Event>, k: nat)
    requires IsRun(now, events) && k <= |events|
    ensures IsRun(now, events[..k])
    decreases |events|
  {
    if k < |events| {
      PrefixIsRun(now, events[..|events| - 1], k);
      assert events[..|events| - 1][..k] == events[..k];
    } else {
      assert events[..k] == events;
    }
  }

  // The state a run is in after its first k events.
  ghost function After(now: int, events: seq<Event>, k: nat): State
    requires IsRun(now, events) && k <= |events|
  {
    PrefixIsRun(now, events, k);
    Exec(now, events[..k]).value
  }

  lemma FitsAfter(now: int, events: seq<Event>, k: nat)
    requires IsRun(now, events) && k <= |events|
    ensures DiskFits(After(now, events, k)) && DaemonFits(After(now, events, k))
  {
    PrefixIsRun(now, events, k);
    RunFits(now, events[..k]);
  }

  lemma AfterNext(now: int, events: seq<Event>, k: nat)
    requires IsRun(now, events) && k < |events|
    ensures Apply(After(now, events, k), events[k]) == Some(After(now, events, k + 1))
  {
    PrefixIsRun(now, events, k + 1);
    assert events[..k + 1] == events[..k] + [events[k]];
    Extend(now, events[..k], events[k]);
  }

  // Outside a fresh prelude, credentials disappear only after the window of the marker in
  // place has closed; a crash, a cancellation or an unclassified error changes no file.
  ghost predicate Lost(before: Disk, after: Disk) {
    || (before.cert.Some? && after.cert.None?)
    || (before.deviceId.Some? && after.deviceId.None?)
    || (before.organizationId.Some? && after.organizationId.None?)
  }

  lemma LossStep(s: State, e: Event)
    requires DiskFits(s) && Apply(s, e).Some? && Lost(s.disk, Apply(s, e).value.disk)
    ensures s.pc.WipeCert? || s.pc.WipeDeviceId? || s.pc.WipeOrganization?
    ensures s.pc.wipe.ForPrelude? || WindowClosed(s.disk, s.now)
    ensures s.disk.marker.Some?
  {
  }

  lemma QuietStep(s: State, e: Event)
    requires Apply(s, e).Some? && (e.Crash? || e.Cancelled? || e.Refused? || e.Expired?)
    ensures Apply(s, e).value.disk == s.disk
  {
  }

  lemma CredentialsAreWipedOnlyWhenDue(now: int, events: seq<Event>, e: Event)
    requires IsRun(now, events + [e]) && IsRun(now, events)
    ensures var s, s' := Exec(now, events).value, Exec(now, events + [e]).value;
            && (Lost(s.disk, s'.disk) ==>
                  && (s.pc.WipeCert? || s.pc.WipeDeviceId? || s.pc.WipeOrganization?)
                  && s.disk.marker.Some?
                  && (s.pc.wipe.ForPrelude? || s.disk.marker.value + 600_000_000_000 <= s.now))
            && (e.Crash? || e.Cancelled? || e.Refused? || e.Expired? ==> s'.disk == s.disk)
  {
    var s := Exec(now, events).value;
    RunFits(now, events);
    Extend(now, events, e);
    if Lost(s.disk, Apply(s, e).value.disk) {
      LossStep(s, e);
    } else if e.Crash? || e.Cancelled? || e.Refused? || e.Expired? {
      QuietStep(s, e);
    }
  }

  // ---------- The daemon around the disk ----------

  // No credential or key file changes while the cloud FSM is alive to read it, and a
  // snapshot with a cloud part says Run.
  lemma CloudRunsOverFixedFiles(now: int, events: seq<Event>, e: Event)
    requires IsRun(now, events + [e]) && IsRun(now, events)
    ensures var s, s' := Exec(now, events).value, Exec(now, events + [e]).value;
            && (s.proc.cloudUp ==> s'.disk == s.disk)
            && (s.proc.attached ==> s.proc.snapshot == RunState)
  {
    RunFits(now, events);
    Extend(now, events, e);
  }

  // Every accepted request is answered exactly once, in order, before the next is accepted;
  // success is only reported over a marker and wiped credentials.
  lemma EveryRequestAnsweredOnce(now: int, events: seq<Event>)
    requires IsRun(now, events)
    ensures var s := Exec(now, events).value;
            && s.proc.replies <= s.proc.accepted
            && |s.proc.accepted| <= |s.proc.replies| + 1
            && (s.pc.Parked? || s.pc.Running? || s.pc.AttemptStart? ==> s.proc.accepted == s.proc.replies)
            && (s.pc == Reply(true) ==>
                  s.disk.marker.Some? && s.disk.cert.None? && s.disk.deviceId.None?)
  {
    RunFits(now, events);
  }

  // ---------- Runs by their states ----------

  // The states a list of events passes through.
  ghost predicate Path(states: seq<State>, events: seq<Event>) {
    && |states| == |events| + 1
    && (forall i {:trigger Apply(states[i], events[i])} ::
          0 <= i < |events| ==> Apply(states[i], events[i]) == Some(states[i + 1]))
  }

  lemma {:induction false} PathIsRun(now: int, states: seq<State>, events: seq<Event>)
    requires Path(states, events) && states[0] == Init(now)
    ensures Exec(now, events) == Some(states[|events|])
    decreases |events|
  {
    if events != [] {
      var n := |events| - 1;
      assert Path(states[..n + 1], events[..n]);
      PathIsRun(now, states[..n + 1], events[..n]);
      assert Apply(states[n], events[n]) == Some(states[n + 1]);
    }
  }

  // A run given by its states.
  ghost predicate RunOf(states: seq<State>, events: seq<Event>) {
    Path(states, events) && states[0] == Init(states[0].now)
  }

  lemma {:induction false} RunOfFits(states: seq<State>, events: seq<Event>, k: nat)
    requires RunOf(states, events) && k <= |events|
    ensures DiskFits(states[k]) && DaemonFits(states[k])
  {
    if k == 0 {
      InitFits(states[0].now);
    } else {
      RunOfFits(states, events, k - 1);
      assert Apply(states[k - 1], events[k - 1]) == Some(states[k]);
      StepKeepsDisk(states[k - 1], events[k - 1]);
      StepKeepsDaemon(states[k - 1], events[k - 1]);
    }
  }
}
