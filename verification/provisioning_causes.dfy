/** The exact causes of an unactivated certificate in use and of a certificate with another's id. */
module ProvisioningCauses {
  import opened Common
  import opened ProvisioningMachine
  import opened ProvisioningSafety

  // ---------- A discard that failed ----------

  // Credentials without a marker are credentials the cloud has activated.
  ghost predicate ActiveOrMarked(s: State) {
    s.disk.marker.None? && HasCredentials(s.disk) ==> s.disk.cert.value in s.activated
  }

  ghost predicate AlwaysActiveOrMarked(now: int, events: seq<Event>)
    requires IsRun(now, events)
  {
    forall k :: 0 <= k <= |events| ==> ActiveOrMarked(After(now, events, k))
  }

  ghost predicate Unactivated(s: State) {
    HasCredentials(s.disk) && s.disk.cert.value !in s.activated
  }

  ghost predicate OnlyTicks(events: seq<Event>, from: nat, to: nat)
    requires to <= |events|
  {
    forall t :: from <= t < to ==> events[t].Tick?
  }

  // The removal of an unactivated certificate failed at m, and the next thing to happen was the
  // removal of the marker, at j.
  ghost predicate DiscardFailed(now: int, events: seq<Event>, m: nat, j: nat)
    requires IsRun(now, events)
  {
    && m < j < |events|
    && events[m] == RemoveErr(CertFile) && Unactivated(After(now, events, m))
    && events[j] == RemoveOk(MarkerFile) && OnlyTicks(events, m + 1, j)
  }

  // No request was accepted far enough, between j and n, to write a marker.
  ghost predicate NoMarkerSince(events: seq<Event>, j: nat, n: nat)
    requires n <= |events|
  {
    forall t :: j < t < n ==> events[t] != WriteOk(MarkerFile)
  }

  ghost predicate Exposed(now: int, events: seq<Event>, n: nat)
    requires IsRun(now, events) && n <= |events|
  {
    exists m: nat, j: nat :: DiscardFailed(now, events, m, j) && j < n && NoMarkerSince(events, j, n)
  }

  ghost predicate CleaningUp(pc: Pc) {
    pc.Rollback? || pc.ClearExpired?
  }

  // Credentials are still there at a clean-up only through a failed removal of the certificate.
  lemma IntoCleanUp(s: State, e: Event)
    requires DiskFits(s) && Apply(s, e).Some?
    requires CleaningUp(Apply(s, e).value.pc) && HasCredentials(Apply(s, e).value.disk)
    ensures var s' := Apply(s, e).value;
            && s'.disk == s.disk && s'.activated == s.activated
            && (e == RemoveErr(CertFile) || (e.Tick? && s.pc == s'.pc))
  {
  }

  lemma {:induction false} CleanUpCause(now: int, events: seq<Event>, k: nat) returns (m: nat)
    requires IsRun(now, events) && k <= |events|
    requires CleaningUp(After(now, events, k).pc) && HasCredentials(After(now, events, k).disk)
    ensures m < k && events[m] == RemoveErr(CertFile) && OnlyTicks(events, m + 1, k)
    ensures After(now, events, m).disk == After(now, events, k).disk
    ensures After(now, events, m).activated == After(now, events, k).activated
  {
    assert events[..0] == [];
    var s := After(now, events, k - 1);
    AfterNext(now, events, k - 1);
    FitsAfter(now, events, k - 1);
    IntoCleanUp(s, events[k - 1]);
    if events[k - 1] == RemoveErr(CertFile) {
      m := k - 1;
    } else {
      m := CleanUpCause(now, events, k - 1);
    }
  }

  // Exposure begins at a clean-up that takes the marker from unactivated credentials.
  lemma StrandStep(s: State, e: Event)
    requires DiskFits(s) && Apply(s, e).Some? && ActiveOrMarked(s) && !ActiveOrMarked(Apply(s, e).value)
    ensures CleaningUp(s.pc) && e == RemoveOk(MarkerFile) && Unactivated(s)
  {
  }

  ghost predicate Stranded(s: State) {
    s.disk.marker.None? && Unactivated(s)
  }

  // Only a new request ends it: without a marker nothing is wiped, stored or activated.
  lemma StrandedStays(s: State, e: Event)
    requires DiskFits(s) && Apply(s, e).Some? && Stranded(s) && e != WriteOk(MarkerFile)
    ensures Stranded(Apply(s, e).value)
  {
  }

  lemma TickKeeps(s: State, e: Event)
    requires Apply(s, e).Some? && (e.Tick? || e == RemoveErr(CertFile))
    ensures Apply(s, e).value.disk == s.disk && Apply(s, e).value.activated == s.activated
  {
  }

  lemma {:induction false} TicksKeep(now: int, events: seq<Event>, m: nat, k: nat)
    requires IsRun(now, events) && m < k <= |events| && events[m] == RemoveErr(CertFile) && OnlyTicks(events, m + 1, k)
    ensures After(now, events, k).disk == After(now, events, m).disk
    ensures After(now, events, k).activated == After(now, events, m).activated
  {
    AfterNext(now, events, k - 1);
    if k - 1 > m {
      TicksKeep(now, events, m, k - 1);
    }
    TickKeeps(After(now, events, k - 1), events[k - 1]);
  }

  lemma MarkerRemoved(s: State)
    requires Apply(s, RemoveOk(MarkerFile)).Some? && Unactivated(s)
    ensures Stranded(Apply(s, RemoveOk(MarkerFile)).value)
  {
  }

  lemma {:induction false} ExposedStays(now: int, events: seq<Event>, m: nat, j: nat, n: nat)
    requires IsRun(now, events) && DiscardFailed(now, events, m, j) && j < n <= |events| && NoMarkerSince(events, j, n)
    ensures Stranded(After(now, events, n))
    decreases n
  {
    AfterNext(now, events, n - 1);
    if n - 1 == j {
      TicksKeep(now, events, m, j);
      MarkerRemoved(After(now, events, j));
    } else {
      ExposedStays(now, events, m, j, n - 1);
      FitsAfter(now, events, n - 1);
      StrandedStays(After(now, events, n - 1), events[n - 1]);
    }
  }

  // The step that exposes the board.
  lemma ExposingStep(now: int, events: seq<Event>, n: nat)
    requires IsRun(now, events) && 0 < n <= |events|
    requires ActiveOrMarked(After(now, events, n - 1)) && !ActiveOrMarked(After(now, events, n))
    ensures Exposed(now, events, n)
  {
    AfterNext(now, events, n - 1);
    FitsAfter(now, events, n - 1);
    StrandStep(After(now, events, n - 1), events[n - 1]);
    var m := CleanUpCause(now, events, n - 1);
    assert DiscardFailed(now, events, m, n - 1);
  }

  lemma UnmarkedStep(s: State, e: Event)
    requires Apply(s, e).Some? && !ActiveOrMarked(Apply(s, e).value)
    ensures e != WriteOk(MarkerFile)
  {
  }

  lemma {:induction false} ExposureCause(now: int, events: seq<Event>, n: nat)
    requires IsRun(now, events) && n <= |events| && !ActiveOrMarked(After(now, events, n))
    ensures Exposed(now, events, n)
    decreases n
  {
    assert events[..0] == [];
    if ActiveOrMarked(After(now, events, n - 1)) {
      ExposingStep(now, events, n);
    } else {
      ExposureCause(now, events, n - 1);
      AfterNext(now, events, n - 1);
      UnmarkedStep(After(now, events, n - 1), events[n - 1]);
      StillExposed(now, events, n);
    }
  }

  lemma StillExposed(now: int, events: seq<Event>, n: nat)
    requires IsRun(now, events) && 0 < n <= |events| && Exposed(now, events, n - 1) && events[n - 1] != WriteOk(MarkerFile)
    ensures Exposed(now, events, n)
  {
    var m: nat, j: nat :| DiscardFailed(now, events, m, j) && j < n - 1 && NoMarkerSince(events, j, n - 1);
    assert NoMarkerSince(events, j, n);
  }

  // At every moment of every run: credentials stand without a marker and unactivated exactly
  // when a discard failed on the certificate, the marker went next, and no request has written
  // a marker since.
  lemma UnmarkedUnactivatedExactly(now: int, events: seq<Event>, n: nat)
    requires IsRun(now, events) && n <= |events|
    ensures !ActiveOrMarked(After(now, events, n)) <==> Exposed(now, events, n)
  {
    if Exposed(now, events, n) {
      var m: nat, j: nat :| DiscardFailed(now, events, m, j) && j < n && NoMarkerSince(events, j, n);
      ExposedStays(now, events, m, j, n);
    } else if !ActiveOrMarked(After(now, events, n)) {
      ExposureCause(now, events, n);
    }
  }

  // A whole run keeps "no marker means activated" exactly when no discard fails like this.
  lemma ActivationExactly(now: int, events: seq<Event>)
    requires IsRun(now, events)
    ensures AlwaysActiveOrMarked(now, events) <==> forall m: nat, j: nat :: !DiscardFailed(now, events, m, j)
  {
    if AlwaysActiveOrMarked(now, events) {
      forall m: nat, j: nat ensures !DiscardFailed(now, events, m, j) {
        if DiscardFailed(now, events, m, j) {
          ExposedStays(now, events, m, j, j + 1);
        }
      }
    } else {
      var n :| 0 <= n <= |events| && !ActiveOrMarked(After(now, events, n));
      ExposureCause(now, events, n);
    }
  }

  // ---------- What the service reports ----------

  // The process ends or `BeginProvisioning` is entered: a remembered failure is gone.
  ghost predicate Forgets(s: State, e: Event)
    requires Apply(s, e).Some?
  {
    Apply(s, e).value.pc.Down? || (s.pc.BeginPrelude? && e == Proceed)
  }

  lemma ForgetStep(s: State, e: Event)
    requires DaemonFits(s) && Apply(s, e).Some?
    ensures Forgets(s, e) ==> !Apply(s, e).value.proc.completeFailed
    ensures s.proc.completeFailed && !Apply(s, e).value.proc.completeFailed ==> Forgets(s, e)
  {
  }

  // Without a marker there is nothing to discard, so no failure is remembered anew.
  lemma NothingRemembered(s: State, e: Event)
    requires DiskFits(s) && Stranded(s) && Apply(s, e).Some? && !s.proc.completeFailed
    ensures !Apply(s, e).value.proc.completeFailed
  {
  }

  ghost predicate ForgottenSince(now: int, events: seq<Event>, j: nat, n: nat)
    requires IsRun(now, events) && j < n <= |events|
  {
    exists t: nat :: j < t < n && ForgetsAt(now, events, t)
  }

  ghost predicate ForgetsAt(now: int, events: seq<Event>, t: nat)
    requires IsRun(now, events) && t < |events|
  {
    AfterNext(now, events, t);
    Forgets(After(now, events, t), events[t])
  }

  // A failed discard that nothing remembers: the rollback of a request remembers nothing, and
  // what the end of a window left remembered was forgotten since.
  ghost predicate ExposedUnnoticed(now: int, events: seq<Event>, n: nat)
    requires IsRun(now, events) && n <= |events|
  {
    exists m: nat, j: nat ::
      && DiscardFailed(now, events, m, j) && j < n && NoMarkerSince(events, j, n)
      && (After(now, events, j).pc.Rollback? || ForgottenSince(now, events, j, n))
  }

  lemma DiscardEnds(s: State)
    requires DaemonFits(s) && Apply(s, RemoveOk(MarkerFile)).Some? && !s.pc.ClearDone?
    ensures Apply(s, RemoveOk(MarkerFile)).value.proc.completeFailed <==> !s.pc.Rollback?
  {
  }

  // After a failed discard at j, a failure is remembered exactly when there was one to
  // remember and nothing has made the process forget it.
  lemma {:induction false} RememberedExactly(now: int, events: seq<Event>, m: nat, j: nat, n: nat)
    requires IsRun(now, events) && DiscardFailed(now, events, m, j) && j < n <= |events| && NoMarkerSince(events, j, n)
    ensures After(now, events, n).proc.completeFailed
            <==> !After(now, events, j).pc.Rollback? && !ForgottenSince(now, events, j, n)
    decreases n
  {
    if n == j + 1 {
      DiscardRemembers(now, events, m, j);
    } else {
      RememberedExactly(now, events, m, j, n - 1);
      ExposedStays(now, events, m, j, n - 1);
      RememberedNext(now, events, j, n - 1);
    }
  }

  lemma DiscardRemembers(now: int, events: seq<Event>, m: nat, j: nat)
    requires IsRun(now, events) && DiscardFailed(now, events, m, j)
    ensures After(now, events, j + 1).proc.completeFailed <==> !After(now, events, j).pc.Rollback?
  {
    AfterNext(now, events, j);
    FitsAfter(now, events, j);
    TicksKeep(now, events, m, j);
    DiscardEnds(After(now, events, j));
  }

  lemma RememberedNext(now: int, events: seq<Event>, j: nat, n: nat)
    requires IsRun(now, events) && j < n < |events| && Stranded(After(now, events, n))
    ensures After(now, events, n + 1).proc.completeFailed
            <==> After(now, events, n).proc.completeFailed && !ForgetsAt(now, events, n)
    ensures ForgottenSince(now, events, j, n + 1)
            <==> ForgottenSince(now, events, j, n) || ForgetsAt(now, events, n)
  {
    AfterNext(now, events, n);
    FitsAfter(now, events, n);
    ForgetStep(After(now, events, n), events[n]);
    if !After(now, events, n).proc.completeFailed {
      NothingRemembered(After(now, events, n), events[n]);
    }
  }

  // The service reports Provisioned over a certificate the cloud never activated exactly then.
  // No restart is needed: a request refused at its marker is enough.
  lemma ReportsUnactivatedExactly(now: int, events: seq<Event>, n: nat)
    requires IsRun(now, events) && n <= |events|
    ensures var s := After(now, events, n);
            StateOf(s.proc.completeFailed, s.disk, s.now) == Provisioned && s.disk.cert.value !in s.activated
            <==> ExposedUnnoticed(now, events, n)
  {
    UnmarkedUnactivatedExactly(now, events, n);
    if Exposed(now, events, n) {
      forall m: nat, j: nat | DiscardFailed(now, events, m, j) && j < n && NoMarkerSince(events, j, n)
        ensures After(now, events, n).proc.completeFailed
                <==> !After(now, events, j).pc.Rollback? && !ForgottenSince(now, events, j, n)
      {
        RememberedExactly(now, events, m, j, n);
      }
    }
  }

  // ---------- In Run ----------

  ghost predicate InRun(pc: Pc) {
    pc.EnterRun? || pc.Running? || pc.Stopping? || pc.Detaching?
  }

  ghost predicate RunFiles(s: State) {
    InRun(s.pc) ==> HasCredentials(s.disk) && (s.disk.marker.Some? ==> s.disk.cert.value in s.activated)
  }

  lemma StepRunFiles(s: State, e: Event)
    requires DiskFits(s) && RunFiles(s) && Apply(s, e).Some?
    ensures RunFiles(Apply(s, e).value)
  {
  }

  lemma {:induction false} RunFilesAfter(now: int, events: seq<Event>, n: nat)
    requires IsRun(now, events) && n <= |events|
    ensures RunFiles(After(now, events, n))
  {
    if n > 0 {
      RunFilesAfter(now, events, n - 1);
      AfterNext(now, events, n - 1);
      FitsAfter(now, events, n - 1);
      StepRunFiles(After(now, events, n - 1), events[n - 1]);
    } else {
      assert events[..0] == [];
    }
  }

  // The daemon is in Run with a certificate the cloud never activated exactly then too.
  lemma RunsUnactivatedExactly(now: int, events: seq<Event>, n: nat)
    requires IsRun(now, events) && n <= |events| && InRun(After(now, events, n).pc)
    ensures HasCredentials(After(now, events, n).disk)
    ensures After(now, events, n).disk.cert.value !in After(now, events, n).activated <==> Exposed(now, events, n)
  {
    RunFilesAfter(now, events, n);
    UnmarkedUnactivatedExactly(now, events, n);
  }

  ghost predicate ActiveInRun(s: State) {
    InRun(s.pc) ==> HasCredentials(s.disk) && s.disk.cert.value in s.activated
  }

  // Whatever else fails or crashes: if no removal of the certificate file returns an error,
  // credentials without a marker were on disk when provision/complete succeeded, and the
  // daemon is in Run only with such a certificate.
  lemma OnlyActivatedCertificatesRun(now: int, events: seq<Event>)
    requires IsRun(now, events)
    requires RemoveErr(CertFile) !in events
    ensures AlwaysActiveOrMarked(now, events)
    ensures var s := Exec(now, events).value;
            && ActiveOrMarked(s) && ActiveInRun(s)
            && (StateOf(s.proc.completeFailed, s.disk, s.now) == Provisioned ==>
                  s.disk.cert.value in s.activated)
  {
    ActivationExactly(now, events);
    assert events[..|events|] == events;
    assert ActiveOrMarked(After(now, events, |events|));
    RunFilesAfter(now, events, |events|);
  }

  // ---------- An id that outlived its certificate ----------

  // The device id is the one the certificate was issued with.
  ghost predicate IdMatches(d: Disk) {
    HasCredentials(d) ==> d.cert.value.subject == d.deviceId.value
  }

  ghost predicate AlwaysIdMatches(now: int, events: seq<Event>)
    requires IsRun(now, events)
  {
    forall k :: 0 <= k <= |events| ==> IdMatches(After(now, events, k).disk)
  }

  // A wipe stopped after the certificate and before the device id.
  ghost predicate Interrupts(s: State, e: Event) {
    s.pc.WipeDeviceId? && (e == Crash || e == RemoveErr(DeviceIdFile))
  }

  // A wipe was cut after the certificate, with the device id still to go.
  ghost predicate WipeCut(now: int, events: seq<Event>, i: nat)
    requires IsRun(now, events)
  {
    && i < |events| && Interrupts(After(now, events, i), events[i])
    && After(now, events, i).disk.deviceId.Some?
  }

  ghost predicate Touches(e: Event, f: File) {
    e == RemoveOk(f) || e == WriteOk(f)
  }

  ghost predicate Untouched(events: seq<Event>, f: File, from: nat, to: nat)
    requires to <= |events|
  {
    forall t :: from < t < to ==> !Touches(events[t], f)
  }

  // The id left by the wipe cut at i is still there at n, beside a certificate stored at j that
  // was issued with another.
  ghost predicate Mispaired(now: int, events: seq<Event>, n: nat, i: nat, j: nat)
    requires IsRun(now, events) && n <= |events|
  {
    && i < j < n && WipeCut(now, events, i) && Untouched(events, DeviceIdFile, i, n)
    && events[j] == WriteOk(CertFile) && Untouched(events, CertFile, j, n)
    && After(now, events, j).pc.StoreCert?
    && After(now, events, j).pc.issued.subject != After(now, events, i).disk.deviceId.value
  }

  ghost predicate Orphaned(s: State) {
    s.disk.deviceId.Some? && s.disk.cert.None? && !s.pc.WipeDeviceId?
  }

  // An id is orphaned by a cut wipe and stays so while nothing touches it.
  lemma OrphanStep(s: State, e: Event)
    requires DiskFits(s) && Apply(s, e).Some? && Orphaned(Apply(s, e).value)
    ensures Apply(s, e).value.disk.deviceId == s.disk.deviceId && !Touches(e, DeviceIdFile)
    ensures Orphaned(s) || Interrupts(s, e)
  {
  }

  lemma {:induction false} OrphanCause(now: int, events: seq<Event>, k: nat) returns (i: nat)
    requires IsRun(now, events) && k <= |events| && Orphaned(After(now, events, k))
    ensures i < k && WipeCut(now, events, i) && Untouched(events, DeviceIdFile, i, k)
    ensures After(now, events, i).disk.deviceId == After(now, events, k).disk.deviceId
  {
    assert events[..0] == [];
    AfterNext(now, events, k - 1);
    FitsAfter(now, events, k - 1);
    OrphanStep(After(now, events, k - 1), events[k - 1]);
    if Interrupts(After(now, events, k - 1), events[k - 1]) {
      i := k - 1;
    } else {
      i := OrphanCause(now, events, k - 1);
    }
  }

  lemma UntouchedStep(s: State, e: Event)
    requires Apply(s, e).Some?
    ensures !Touches(e, DeviceIdFile) ==> Apply(s, e).value.disk.deviceId == s.disk.deviceId
    ensures !Touches(e, CertFile) ==> Apply(s, e).value.disk.cert == s.disk.cert
  {
  }

  lemma {:induction false} IdStays(now: int, events: seq<Event>, i: nat, n: nat)
    requires IsRun(now, events) && i < n <= |events| && Untouched(events, DeviceIdFile, i, n)
    requires !Touches(events[i], DeviceIdFile)
    ensures After(now, events, n).disk.deviceId == After(now, events, i).disk.deviceId
    decreases n
  {
    AfterNext(now, events, n - 1);
    UntouchedStep(After(now, events, n - 1), events[n - 1]);
    if n - 1 > i {
      IdStays(now, events, i, n - 1);
    }
  }

  lemma {:induction false} CertStays(now: int, events: seq<Event>, j: nat, n: nat)
    requires IsRun(now, events) && j < n <= |events| && Untouched(events, CertFile, j, n)
    ensures After(now, events, n).disk.cert == After(now, events, j + 1).disk.cert
    decreases n
  {
    if n > j + 1 {
      AfterNext(now, events, n - 1);
      UntouchedStep(After(now, events, n - 1), events[n - 1]);
      CertStays(now, events, j, n - 1);
    }
  }

  // A wrong pair begins with a certificate stored beside an orphaned id.
  lemma MispairStep(s: State, e: Event)
    requires DiskFits(s) && Apply(s, e).Some? && IdMatches(s.disk) && !IdMatches(Apply(s, e).value.disk)
    ensures s.pc.StoreCert? && e == WriteOk(CertFile) && Orphaned(s) && s.pc.issued.subject != s.disk.deviceId.value
  {
  }

  // A wrong pair stays until one of the two files is touched.
  lemma WrongPairStep(s: State, e: Event)
    requires DiskFits(s) && Apply(s, e).Some? && !IdMatches(s.disk) && !IdMatches(Apply(s, e).value.disk)
    ensures !Touches(e, DeviceIdFile) && !Touches(e, CertFile)
  {
  }

  lemma {:induction false} MispairCause(now: int, events: seq<Event>, n: nat) returns (i: nat, j: nat)
    requires IsRun(now, events) && n <= |events| && !IdMatches(After(now, events, n).disk)
    ensures Mispaired(now, events, n, i, j)
    decreases n
  {
    assert events[..0] == [];
    var s, e := After(now, events, n - 1), events[n - 1];
    AfterNext(now, events, n - 1);
    FitsAfter(now, events, n - 1);
    if IdMatches(s.disk) {
      MispairStep(s, e);
      i := OrphanCause(now, events, n - 1);
      j := n - 1;
    } else {
      WrongPairStep(s, e);
      i, j := MispairCause(now, events, n - 1);
    }
  }

  lemma MispairShows(now: int, events: seq<Event>, n: nat, i: nat, j: nat)
    requires IsRun(now, events) && n <= |events| && Mispaired(now, events, n, i, j)
    ensures !IdMatches(After(now, events, n).disk)
  {
    IdStays(now, events, i, n);
    CertStays(now, events, j, n);
    AfterNext(now, events, j);
  }

  // At every moment of every run: the stored id is not the one issued with the stored
  // certificate exactly when a wipe was cut before the id, nothing has touched the id since,
  // and a certificate issued with another id was stored beside it and is still there.
  lemma WrongPairExactly(now: int, events: seq<Event>, n: nat)
    requires IsRun(now, events) && n <= |events|
    ensures !IdMatches(After(now, events, n).disk) <==> exists i: nat, j: nat :: Mispaired(now, events, n, i, j)
  {
    if !IdMatches(After(now, events, n).disk) {
      var i, j := MispairCause(now, events, n);
    } else if i: nat, j: nat :| Mispaired(now, events, n, i, j) {
      MispairShows(now, events, n, i, j);
    }
  }

  // A certificate stored at j over an id that a wipe cut at i left.
  ghost predicate StoredOver(now: int, events: seq<Event>, i: nat, j: nat)
    requires IsRun(now, events)
  {
    j < |events| && Mispaired(now, events, j + 1, i, j)
  }

  // A whole run pairs rightly exactly when that never happens.
  lemma IdMatchesExactly(now: int, events: seq<Event>)
    requires IsRun(now, events)
    ensures AlwaysIdMatches(now, events) <==> forall i: nat, j: nat :: !StoredOver(now, events, i, j)
  {
    if AlwaysIdMatches(now, events) {
      forall i: nat, j: nat ensures !StoredOver(now, events, i, j) {
        if StoredOver(now, events, i, j) {
          MispairShows(now, events, j + 1, i, j);
        }
      }
    } else {
      var n :| 0 <= n <= |events| && !IdMatches(After(now, events, n).disk);
      var i, j := MispairCause(now, events, n);
      assert StoredOver(now, events, i, j);
    }
  }

  // In Run both files are there, so the daemon connects under another device's id exactly then.
  lemma RunsMispairedExactly(now: int, events: seq<Event>, n: nat)
    requires IsRun(now, events) && n <= |events| && InRun(After(now, events, n).pc)
    ensures HasCredentials(After(now, events, n).disk)
    ensures var d := After(now, events, n).disk;
            d.cert.value.subject != d.deviceId.value <==> exists i: nat, j: nat :: Mispaired(now, events, n, i, j)
  {
    RunFilesAfter(now, events, n);
    WrongPairExactly(now, events, n);
  }

  ghost predicate WipesUninterrupted(now: int, events: seq<Event>)
    requires IsRun(now, events)
  {
    forall k :: 0 <= k < |events| ==> !Interrupts(After(now, events, k), events[k])
  }

  // If no wipe is cut between the certificate and the device id, then at every moment a
  // stored device id is the one issued with the stored certificate.
  lemma DeviceIdBelongsToCertificate(now: int, events: seq<Event>)
    requires IsRun(now, events) && WipesUninterrupted(now, events)
    ensures AlwaysIdMatches(now, events)
  {
    forall i: nat, j: nat ensures !StoredOver(now, events, i, j) {
      assert !WipeCut(now, events, i);
    }
    IdMatchesExactly(now, events);
  }
}
