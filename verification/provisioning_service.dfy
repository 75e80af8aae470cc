/**
 The provisioning service, the keystore and the daemon's state handlers as code that
 updates a disk in place. Each file operation, network answer and clock reading is chosen
 by the environment; the ghost log records it as an event of the provisioning machine, and
 `Valid` says that the log is a run of that machine ending in the board's present state.
 */
module ProvisioningService {
  import opened Common
  import opened ProvisioningMachine
  import opened ProvisioningSafety
  import opened ProvisioningCauses
  import opened ProvisioningReports

  const RETRY_INITIAL_BACKOFF: int := 2 * SECOND
  const RETRY_MAX_BACKOFF: int := 30 * SECOND
  const MAX_CALLS: nat := 24

  datatype Retry = Done | WindowExpired | Interrupted

  datatype Handler = ToCheckInternet | ToProvisioning(runAttemptNow: bool) | ToRun | Exit

  datatype Outcome = Succeeded | GaveUp | Aborted

  // The pause after the k-th call, and the time spent pausing before it.
  ghost function Backoff(k: nat): int {
    if k == 0 then RETRY_INITIAL_BACKOFF else Min(Backoff(k - 1) * 2, RETRY_MAX_BACKOFF)
  }

  ghost function Slept(k: nat): int {
    if k == 0 then 0 else Slept(k - 1) + Backoff(k - 1)
  }

  lemma {:induction false} BackoffClosedForm(k: nat)
    requires k >= 4
    ensures Backoff(k) == 30 * SECOND
    ensures Slept(k) == 30 * SECOND * (k - 3)
  {
    if k == 4 {
      assert Backoff(1) == 4 * SECOND && Backoff(2) == 8 * SECOND && Backoff(3) == 16 * SECOND;
      assert Slept(1) == 2 * SECOND && Slept(2) == 6 * SECOND && Slept(3) == 14 * SECOND;
    } else {
      BackoffClosedForm(k - 1);
    }
  }

  // Pauses of 2, 4, 8, 16 and then 30 seconds each; those that fit into one window are fewer
  // than 23.
  lemma PausesFitWindow(k: nat)
    ensures Slept(k) == SECOND * if k == 0 then 0 else if k == 1 then 2 else if k == 2 then 6
                                 else if k == 3 then 14 else 30 * (k - 3)
    ensures Slept(k) < 600 * SECOND <==> k < 23
  {
    if k >= 4 {
      BackoffClosedForm(k);
    } else {
      assert Backoff(1) == 4 * SECOND && Backoff(2) == 8 * SECOND;
      assert Slept(1) == 2 * SECOND && Slept(2) == 6 * SECOND && Slept(3) == 14 * SECOND;
    }
  }

  lemma CallsLeft(k: nat)
    requires Slept(k) < WINDOW
    ensures k < MAX_CALLS - 1
  {
    PausesFitWindow(k);
  }

  // A disk after the first `gone` of the three credential files were removed.
  function Wiped(d: Disk, gone: nat): Disk {
    if gone == 0 then d
    else if gone == 1 then d.(cert := None)
    else if gone == 2 then d.(cert := None, deviceId := None)
    else d.(cert := None, deviceId := None, organizationId := None)
  }

  // The credential files after a wipe that may have failed, whatever became of the marker.
  predicate WipedFrom(d: Disk, before: Disk) {
    && d.(marker := before.marker) in {before, Wiped(before, 1), Wiped(before, 2), Wiped(before, 3)}
    && d.marker in {None, before.marker}
  }

  // Where a prelude stopped.
  datatype Prelude = MarkerUnwritten | WipeStopped(gone: nat) | OrganizationUnwritten | Emptied

  function LeftBy(d: Disk, now: int, org: string, p: Prelude, rolledBack: bool): Disk {
    var marker := if rolledBack then None else Some(now);
    match p
    case MarkerUnwritten => d
    case WipeStopped(gone) => Wiped(d, gone).(marker := marker)
    case OrganizationUnwritten => Wiped(d, 3).(marker := marker)
    case Emptied => Disk(Some(now), None, None, if org == "" then None else Some(org), d.cloudKey)
  }

  class Board {
    var disk: Disk
    var now: int
    var completeFailed: bool
    var cloudUp: bool
    var attached: bool
    var snapshot: DaemonState

    ghost var pc: Pc
    ghost var activated: set<Certificate>
    ghost var owed: Option<nat>
    ghost var accepted: seq<nat>
    ghost var replies: seq<nat>
    ghost var trace: seq<State>
    ghost var log: seq<Event>

    ghost function Process(): ProvisioningMachine.Process reads this {
      ProvisioningMachine.Process(completeFailed, cloudUp, attached, snapshot, owed, accepted, replies)
    }

    ghost function Abs(): State reads this {
      State(pc, disk, now, activated, Process())
    }

    ghost predicate Logged() reads this {
      RunOf(trace, log)
    }

    ghost predicate Valid() reads this {
      Logged() && trace[|log|] == Abs()
    }

    constructor (t: int)
      ensures Valid() && log == [] && Abs() == Init(t)
    {
      disk, now := EMPTY_DISK, t;
      completeFailed, cloudUp, attached, snapshot := false, false, false, CheckInternetState;
      pc, activated, owed, accepted, replies := Down, {}, None, [], [];
      trace, log := [Init(t)], [];
    }

    // Log what has just been done; the fields must already agree with the machine.
    ghost method Note(e: Event)
      requires Logged() && Apply(trace[|log|], e).Some?
      requires var s := Apply(trace[|log|], e).value;
               && s.disk == disk && s.now == now && s.proc.completeFailed == completeFailed
               && s.proc.cloudUp == cloudUp && s.proc.attached == attached && s.proc.snapshot == snapshot
      modifies this`pc, this`activated, this`owed, this`accepted, this`replies, this`trace, this`log
      ensures Valid() && Abs() == Apply(old(trace[|log|]), e).value
      ensures log == old(log) + [e]
    {
      var s := Apply(trace[|log|], e).value;
      pc, activated, owed, accepted, replies :=
        s.pc, s.activated, s.proc.owed, s.proc.accepted, s.proc.replies;
      trace, log := trace + [s], log + [e];
    }

    // What every run keeps, read off the present state.
    lemma Kept()
      requires Valid()
      ensures disk.marker.Some? ==> disk.marker.value <= now
      ensures KeyMatches(disk)
    {
      PathIsRun(trace[0].now, trace, log);
      RunFits(trace[0].now, log);
    }

    lemma Reported()
      requires Valid()
      ensures IsRun(trace[0].now, log)
      ensures StateOf(completeFailed, disk, now) == Provisioned && disk.cert.value !in activated
              <==> ExposedUnnoticed(trace[0].now, log, |log|)
      ensures StateOf(completeFailed, disk, now) == Provisioned && RemoveErr(CertFile) !in log ==>
                disk.cert.value in activated
    {
      PathIsRun(trace[0].now, trace, log);
      assert log[..|log|] == log;
      ReportsUnactivatedExactly(trace[0].now, log, |log|);
    }

    // Outside Run the cloud FSM has returned and is detached.
    lemma CloudIsGone(next: Handler)
      requires Valid() && Fits(next) && !next.ToRun?
      ensures !cloudUp && !attached
    {
      PathIsRun(trace[0].now, trace, log);
      RunFits(trace[0].now, log);
    }

    // ---------- Environment ----------

    // The context was cancelled where the code waits: the process ends.
    method Stop()
      requires Valid() && (pc.CheckInternet? || pc.Parked? || pc.SubmitCsr? || pc.Complete?)
      modifies this
      ensures Valid() && old(log) <= log && Abs() == Halt(old(Abs()))
    {
      End();
      Note(Cancelled);
    }

    // Time passes, at least `atLeast` of it.
    method Elapse(atLeast: int)
      requires Valid() && atLeast >= 0
      modifies this
      ensures Valid() && Abs() == old(Abs()).(now := now) && now >= old(now) + atLeast
      ensures old(log) <= log
    {
      var d: int :| d >= 0;
      now := now + atLeast + d;
      Note(Tick(now));
    }

    // One os.Remove; a missing file is no error.
    method Remove(f: File) returns (failed: bool)
      requires Valid() && ApplyRemove(Abs(), f).Some? && !pc.ClearExpired?
      modifies this
      ensures Valid() && old(log) <= log
      ensures Some(Abs()) == if failed then ApplyRemoveErr(old(Abs()), f) else ApplyRemove(old(Abs()), f)
    {
      failed := *;
      if failed {
        Note(RemoveErr(f));
      } else {
        match f {
          case MarkerFile => disk := disk.(marker := None);
          case CertFile => disk := disk.(cert := None);
          case DeviceIdFile => disk := disk.(deviceId := None);
          case OrganizationFile => disk := disk.(organizationId := None);
          case KeyFile => disk := disk.(cloudKey := None);
        }
        Note(RemoveOk(f));
      }
    }

    // ---------- Keystore ----------

    // New: the cloud key is generated once, when it is missing.
    method New() returns (failed: bool)
      requires Valid() && pc.BootKey?
      modifies this
      ensures Valid() && old(log) <= log
      ensures failed ==> pc.Down? && disk == old(disk)
      ensures !failed ==> pc.CheckInternet? && disk.cloudKey.Some?
      ensures disk == old(disk).(cloudKey := disk.cloudKey)
      ensures old(disk.cloudKey).Some? ==> disk == old(disk)
    {
      var denied: bool := *;
      if denied {
        End();
        Note(Refused);
        return true;
      }
      if disk.cloudKey.Some? {
        Note(Proceed);
        return false;
      }
      failed := *;
      if failed {
        End();
        Note(WriteErr(KeyFile));
      } else {
        var key: nat :| true;
        disk := disk.(cloudKey := Some(key));
        Note(NewKey(key));
      }
    }

    method StoreDeviceCert(c: Certificate) returns (failed: bool)
      requires Valid() && pc.StoreCert? && pc.issued == c
      modifies this
      ensures Valid() && old(log) <= log
      ensures failed ==> Abs() == old(Abs()).(pc := Parked)
      ensures !failed ==> Abs() == old(Abs()).(pc := StoreDeviceId(old(pc.deadline), c.subject),
                                   disk := old(disk).(cert := Some(c)))
    {
      failed := *;
      if failed {
        Note(WriteErr(CertFile));
      } else {
        disk := disk.(cert := Some(c));
        Note(WriteOk(CertFile));
      }
    }

    method StoreDeviceIdFile(id: string) returns (failed: bool)
      requires Valid() && pc.StoreDeviceId? && pc.id == id
      modifies this
      ensures Valid() && old(log) <= log
      ensures failed ==> Abs() == old(Abs()).(pc := Parked)
      ensures !failed ==> Abs() == old(Abs()).(pc := Complete(old(pc.deadline)),
                                   disk := old(disk).(deviceId := Some(id)))
    {
      failed := *;
      if failed {
        Note(WriteErr(DeviceIdFile));
      } else {
        disk := disk.(deviceId := Some(id));
        Note(WriteOk(DeviceIdFile));
      }
    }

    method StoreOrganizationId(org: string) returns (failed: bool)
      requires Valid() && pc == StoreOrganization(org)
      modifies this
      ensures Valid() && old(log) <= log
      ensures failed ==> Abs() == old(Abs()).(pc := Rollback)
      ensures !failed ==> Abs() == old(Abs()).(pc := Reply(true), disk := old(disk).(organizationId := Some(org)))
    {
      failed := *;
      if failed {
        Note(WriteErr(OrganizationFile));
      } else {
        disk := disk.(organizationId := Some(org));
        Note(WriteOk(OrganizationFile));
      }
    }

    ghost function WipePc(i: nat, w: Wipe): Pc {
      if i == 0 then WipeCert(w) else if i == 1 then WipeDeviceId(w)
      else if i == 2 then WipeOrganization(w) else AfterWipe(w)
    }

    // All three credential files go, in this order, or the first failure stops the wipe.
    method WipeCloudCredentials() returns (failed: bool, ghost gone: nat)
      requires Valid() && pc.WipeCert?
      modifies this
      ensures Valid() && old(log) <= log && gone <= 3 && (failed <==> gone < 3)
      ensures Abs() == old(Abs()).(disk := Wiped(old(disk), gone),
                                   pc := if failed then AfterFailedWipe(old(pc.wipe)) else AfterWipe(old(pc.wipe)))
    {
      ghost var w := pc.wipe;
      var files := [CertFile, DeviceIdFile, OrganizationFile];
      gone := 0;
      for i := 0 to 3
        invariant Valid() && old(log) <= log && gone == i
        invariant Abs() == old(Abs()).(pc := WipePc(i, w), disk := Wiped(old(disk), i))
      {
        failed := Remove(files[i]);
        if failed {
          return;
        }
        gone := gone + 1;
      }
      failed := false;
    }

    // The old key is gone before the new one is written.
    method RotateCloudKey() returns (failed: bool)
      requires Valid() && pc.RemoveKey?
      modifies this
      ensures Valid() && old(log) <= log
      ensures Abs() == old(Abs()).(pc := pc, disk := old(disk).(cloudKey := disk.cloudKey))
      ensures pc == if failed then Parked else BuildCsr(old(pc.deadline))
      ensures !failed ==> disk.cloudKey.Some?
    {
      failed := Remove(KeyFile);
      if failed {
        return;
      }
      failed := *;
      if failed {
        Note(WriteErr(KeyFile));
      } else {
        var key: nat :| true;
        disk := disk.(cloudKey := Some(key));
        Note(NewKey(key));
      }
    }

    // The process ends: memory is lost.
    method End()
      modifies this`completeFailed, this`cloudUp, this`attached, this`snapshot
      ensures !completeFailed && !cloudUp && !attached && snapshot == CheckInternetState
    {
      completeFailed, cloudUp, attached, snapshot := false, false, false, CheckInternetState;
    }

    // ---------- Provisioning service ----------

    // What GET /v1/status and the daemon FSM are told.
    method GetState() returns (st: ProvisioningState)
      requires Valid()
      ensures st == StateOf(completeFailed, disk, now)
      ensures st == Provisioned && RemoveErr(CertFile) !in log ==> disk.cert.value in activated
      ensures IsRun(trace[0].now, log)
      ensures st == Provisioned && disk.cert.value !in activated
              <==> ExposedUnnoticed(trace[0].now, log, |log|)
      ensures Answers(st)
    {
      if completeFailed {
        st := Failed;
      } else if disk.marker.Some? {
        st := if now < disk.marker.value + WINDOW then InFlight else Failed;
      } else if disk.cert.Some? && disk.deviceId.Some? {
        st := Provisioned;
      } else {
        st := Unprovisioned;
      }
      Reported();
      ReportedExactly(trace, log, |log|);
      MarkerAge(trace, log, |log|);
    }

    // Error: this process gave an activation up and no request came since, or the marker is ten
    // minutes old. Provisioning: neither, and there is a marker. Otherwise the files decide.
    ghost predicate Answers(st: ProvisioningState)
      reads this
      requires Valid()
    {
      var failed := Remembers(trace, log, |log|) || (disk.marker.Some? && disk.marker.value + 600_000_000_000 <= now);
      && (st.Failed? <==> failed)
      && (st.InFlight? <==> !failed && disk.marker.Some?)
      && (st.Provisioned? <==> !failed && disk.marker.None? && disk.cert.Some? && disk.deviceId.Some?)
      && (st.Unprovisioned? <==> !failed && disk.marker.None? && (disk.cert.None? || disk.deviceId.None?))
    }

    // The synchronous prelude. A remembered failure is forgotten. On success the board is emptied
    // under a fresh marker; after a failure past the marker, it is rolled back if its removal
    // succeeds.
    method BeginProvisioning(org: string) returns (failed: bool, ghost stopped: Prelude, ghost rolledBack: bool)
      requires Valid() && pc == BeginPrelude(org)
      modifies this
      ensures Valid() && old(log) <= log && pc == Reply(!failed)
      ensures failed <==> !stopped.Emptied?
      ensures stopped.WipeStopped? ==> stopped.gone < 3
      ensures Abs() == old(Abs()).(pc := pc, disk := LeftBy(old(disk), now, org, stopped, rolledBack),
                                   proc := old(Process()).(completeFailed := false))
    {
      ForgetFailure(org);
      stopped, rolledBack := MarkerUnwritten, false;
      failed := WriteMarkerFile(org);
      if failed {
        return;
      }
      failed, stopped, rolledBack := EmptyOrRollBack(org);
    }

    method EmptyOrRollBack(org: string) returns (failed: bool, ghost stopped: Prelude, ghost rolledBack: bool)
      requires Valid() && pc == WipeCert(ForPrelude(org)) && disk.marker == Some(now)
      modifies this
      ensures Valid() && old(log) <= log && !stopped.MarkerUnwritten?
      ensures failed <==> !stopped.Emptied?
      ensures stopped.WipeStopped? ==> stopped.gone < 3
      ensures Abs() == old(Abs()).(pc := Reply(!failed), disk := LeftBy(old(disk), now, org, stopped, rolledBack))
    {
      rolledBack := false;
      failed, stopped := EmptyBoard(org);
      if failed {
        var kept := Remove(MarkerFile);
        rolledBack := !kept;
      }
    }

    // setCompleteFailure(nil)
    method ForgetFailure(org: string)
      requires Valid() && pc == BeginPrelude(org)
      modifies this
      ensures Valid() && old(log) <= log
      ensures Abs() == old(Abs()).(pc := WriteMarker(org), proc := old(Process()).(completeFailed := false))
    {
      completeFailed := false;
      Note(Proceed);
    }

    method WriteMarkerFile(org: string) returns (failed: bool)
      requires Valid() && pc == WriteMarker(org)
      modifies this
      ensures Valid() && old(log) <= log
      ensures failed ==> Abs() == old(Abs()).(pc := Reply(false))
      ensures !failed ==> Abs() == old(Abs()).(pc := WipeCert(ForPrelude(org)), disk := old(disk).(marker := Some(now)))
    {
      failed := *;
      if failed {
        Note(WriteErr(MarkerFile));
      } else {
        disk := disk.(marker := Some(now));
        Note(WriteOk(MarkerFile));
      }
    }

    // The part of the prelude that a failure rolls back.
    method EmptyBoard(org: string) returns (failed: bool, ghost stopped: Prelude)
      requires Valid() && pc == WipeCert(ForPrelude(org)) && disk.marker == Some(now)
      modifies this
      ensures Valid() && old(log) <= log && !stopped.MarkerUnwritten?
      ensures failed <==> !stopped.Emptied?
      ensures stopped.WipeStopped? ==> stopped.gone < 3
      ensures Abs() == old(Abs()).(pc := if failed then Rollback else Reply(true),
                                   disk := LeftBy(old(disk), now, org, stopped, false))
    {
      ghost var gone;
      failed, gone := WipeCloudCredentials();
      stopped := if failed then WipeStopped(gone) else Emptied;
      if !failed && org != "" {
        failed := StoreOrganizationId(org);
        stopped := if failed then OrganizationUnwritten else Emptied;
      }
    }

    // The API answered the CSR with a certificate for its key.
    method Issued(deadline: int, csrKey: nat) returns (c: Certificate)
      requires Valid() && pc == SubmitCsr(deadline, csrKey)
      modifies this
      ensures Valid() && old(log) <= log && c.key == csrKey
      ensures Abs() == old(Abs()).(pc := StoreCert(deadline, c))
    {
      var subject: string, serial: nat :| true;
      Note(Issue(subject, serial));
      c := Certificate(csrKey, subject, serial);
    }

    method Activated()
      requires Valid() && pc.Complete? && disk.cert.Some?
      modifies this
      ensures Valid() && old(log) <= log
      ensures Abs() == old(Abs()).(pc := ClearDone, activated := old(activated) + {old(disk.cert.value)})
    {
      Note(CompleteOk);
    }

    // No success was heard of, although the call may have been carried out.
    method AnswerMissed()
      requires Valid() && pc.Complete? && disk.cert.Some?
      modifies this
      ensures Valid() && old(log) <= log
      ensures Abs() == old(Abs()).(activated := activated)
      ensures activated in {old(activated), old(activated) + {disk.cert.value}}
    {
      var lost: bool := *;
      if lost {
        Note(CompleteLost);
      }
    }

    method Expire()
      requires Valid() && (pc.SubmitCsr? || pc.Complete?) && pc.deadline <= now
      modifies this
      ensures Valid() && old(log) <= log
      ensures Abs() == old(Abs()).(pc := if old(pc).SubmitCsr? then Parked else WipeCert(ForExpiry))
    {
      Note(Expired);
    }

    // Submit the CSR until it is answered, the window closes or the process is stopped.
    method SubmitCsrWithRetry(deadline: int, csrKey: nat) returns (r: Retry, issued: Certificate, calls: nat)
      requires Valid() && pc == SubmitCsr(deadline, csrKey) && deadline - WINDOW <= now
      modifies this
      ensures Valid() && old(log) <= log && disk == old(disk) && activated == old(activated)
      ensures r.Done? ==> pc == StoreCert(deadline, issued)
      ensures r.WindowExpired? ==> pc.Parked? && deadline <= now
      ensures r.Interrupted? ==> pc.Down?
      ensures 1 <= calls <= MAX_CALLS && old(now) <= now && now >= old(now) + Slept(calls - 1)
    {
      issued := Certificate(0, "", 0);
      var backoff, entered := RETRY_INITIAL_BACKOFF, now;
      calls := 0;
      while true
        invariant Valid() && old(log) <= log && Abs() == old(Abs()).(now := now) && old(now) <= now
        invariant backoff == Backoff(calls) && backoff >= RETRY_INITIAL_BACKOFF
        invariant now >= entered + Slept(calls) && calls < MAX_CALLS
        decreases if deadline > now then deadline - now else 0
      {
        Elapse(0);
        calls := calls + 1;
        var answered: bool, cancelled: bool := *, *;
        if answered {
          issued := Issued(deadline, csrKey);
          return Done, issued, calls;
        }
        if cancelled {
          Stop();
          return Interrupted, issued, calls;
        }
        if deadline <= now {
          Expire();
          return WindowExpired, issued, calls;
        }
        CallsLeft(calls - 1);
        Elapse(backoff);
        backoff := Min(backoff * 2, RETRY_MAX_BACKOFF);
      }
    }

    // Ask for activation until it succeeds, the window closes or the process is stopped.
    method CompleteWithRetry(deadline: int) returns (r: Retry, calls: nat)
      requires Valid() && pc == Complete(deadline) && disk.cert.Some? && deadline - WINDOW <= now
      modifies this
      ensures Valid() && old(log) <= log && disk == old(disk)
      ensures r.Done? ==> pc.ClearDone? && disk.cert.value in activated
      ensures r.WindowExpired? ==> pc == WipeCert(ForExpiry) && deadline <= now
      ensures r.Interrupted? ==> pc.Down?
      ensures !r.Interrupted? ==> Abs() == old(Abs()).(pc := pc, now := now, activated := activated)
      ensures 1 <= calls <= MAX_CALLS && old(now) <= now && now >= old(now) + Slept(calls - 1)
    {
      var backoff, entered := RETRY_INITIAL_BACKOFF, now;
      calls := 0;
      while true
        invariant Valid() && old(log) <= log && old(now) <= now
        invariant Abs() == old(Abs()).(now := now, activated := activated)
        invariant backoff == Backoff(calls) && backoff >= RETRY_INITIAL_BACKOFF
        invariant now >= entered + Slept(calls) && calls < MAX_CALLS
        decreases if deadline > now then deadline - now else 0
      {
        Elapse(0);
        calls := calls + 1;
        var accepted: bool, cancelled: bool := *, *;
        if accepted {
          Activated();
          return Done, calls;
        }
        AnswerMissed();
        if cancelled {
          Stop();
          return Interrupted, calls;
        }
        if deadline <= now {
          Expire();
          return WindowExpired, calls;
        }
        CallsLeft(calls - 1);
        Elapse(backoff);
        backoff := Min(backoff * 2, RETRY_MAX_BACKOFF);
      }
    }

    // The window has closed on an unactivated certificate: wipe, clear the marker, remember.
    method Discard()
      requires Valid() && pc == WipeCert(ForExpiry)
      modifies this
      ensures Valid() && old(log) <= log && pc.Parked? && completeFailed && now == old(now)
      ensures WipedFrom(disk, old(disk))
    {
      ghost var gone;
      var failed;
      failed, gone := WipeCloudCredentials();
      var kept: bool := *;
      completeFailed := true;
      if kept {
        Note(RemoveErr(MarkerFile));
      } else {
        disk := disk.(marker := None);
        Note(RemoveOk(MarkerFile));
      }
    }

    // Activate the stored certificate and decide what the attempt leaves behind: everything,
    // minus the marker, on success; nothing once the window has closed; all of it otherwise.
    method CompletePhase(deadline: int) returns (outcome: Outcome)
      requires Valid() && pc == Complete(deadline) && HasCredentials(disk) && deadline - WINDOW <= now
      modifies this
      ensures Valid() && old(log) <= log
      ensures outcome.Succeeded? ==>
                && pc.AttemptDone? && disk == old(disk).(marker := disk.marker)
                && disk.cert.value in activated
      ensures outcome.GaveUp? ==> pc.Parked? && completeFailed && deadline <= now && WipedFrom(disk, old(disk))
      ensures outcome.Aborted? ==> pc.Down? && disk == old(disk)
    {
      var r, calls := CompleteWithRetry(deadline);
      match r {
        case Done =>
          var _ := Remove(MarkerFile);
          outcome := Succeeded;
        case WindowExpired =>
          Discard();
          outcome := GaveUp;
        case Interrupted =>
          outcome := Aborted;
      }
    }

    // Rotate the key, have a certificate issued for it and store both credentials.
    method IssuePhase(deadline: int) returns (outcome: Outcome)
      requires Valid() && pc == RemoveKey(deadline) && deadline - WINDOW <= now
      modifies this
      ensures Valid() && old(log) <= log && old(now) <= now
      ensures outcome.Succeeded? ==> pc == Complete(deadline) && HasCredentials(disk)
      ensures outcome.Succeeded? ==> disk.cert.value.subject == disk.deviceId.value
      ensures outcome.GaveUp? ==> pc.Parked?
      ensures outcome.Aborted? ==> pc.Down?
    {
      var failed := RotateCloudKey();
      if failed {
        return GaveUp;
      }
      var refused: bool := *;
      if refused {
        Note(Refused);
        return GaveUp;
      }
      var csrKey := disk.cloudKey.value;
      Note(Proceed);
      var r, issued, calls := SubmitCsrWithRetry(deadline, csrKey);
      if !r.Done? {
        return if r.WindowExpired? then GaveUp else Aborted;
      }
      failed := StoreDeviceCert(issued);
      if failed {
        return GaveUp;
      }
      failed := StoreDeviceIdFile(issued.subject);
      outcome := if failed then GaveUp else Succeeded;
    }

    // The asynchronous attempt. It resumes from the activation when credentials are already
    // on disk, and reports success only for an activated certificate under this key.
    method RunAttempt() returns (outcome: Outcome)
      requires Valid() && pc.AttemptStart?
      modifies this
      ensures Valid() && old(log) <= log
      ensures outcome.Succeeded? ==>
                && pc.AttemptDone? && HasCredentials(disk) && disk.cert.value in activated
                && disk.cloudKey == Some(disk.cert.value.key)
      ensures outcome.GaveUp? ==> pc.Parked?
      ensures outcome.Aborted? ==> pc.Down?
      ensures HasCredentials(old(disk)) ==>
                match outcome
                case Succeeded => disk == old(disk).(marker := disk.marker)
                case Aborted => disk == old(disk)
                case GaveUp =>
                  || disk == old(disk)
                  || (WindowClosed(old(disk), now) && completeFailed && WipedFrom(disk, old(disk)))
    {
      Kept();
      if disk.marker.None? {
        Note(Proceed);
        return GaveUp;
      }
      var deadline := disk.marker.value + WINDOW;
      if disk.cert.Some? && disk.deviceId.Some? {
        var refused: bool := *;
        if refused {
          Note(Refused);
          return GaveUp;
        }
        Note(Proceed);
      } else {
        Note(Proceed);
        outcome := IssuePhase(deadline);
        if !outcome.Succeeded? {
          return;
        }
      }
      outcome := CompletePhase(deadline);
      Kept();
    }

    // ---------- Daemon FSM ----------

    // Internet is up: the next handler follows from the disk alone.
    method PickPostInternetState() returns (next: Handler)
      requires Valid() && pc.CheckInternet?
      modifies this
      ensures Valid() && old(log) <= log && disk == old(disk) && Fits(next)
      ensures next == match StateOf(old(completeFailed), old(disk), old(now))
                      case InFlight => ToProvisioning(true)
                      case Provisioned => ToRun
                      case _ => ToProvisioning(false)
      ensures next.ToRun? <==> !old(completeFailed) && disk.marker.None? && disk.cert.Some? && disk.deviceId.Some?
      ensures next == ToProvisioning(true)
              <==> !old(completeFailed) && disk.marker.Some? && old(now) < disk.marker.value + 600_000_000_000
      ensures next.ToRun? && RemoveErr(CertFile) !in log ==> disk.cert.Some? && disk.cert.value in activated
    {
      var st := GetState();
      match st {
        case InFlight => next := ToProvisioning(true);
        case Provisioned => next := ToRun;
        case _ => next := ToProvisioning(false);
      }
      snapshot := if next.ToRun? then RunState else ProvisioningStage;
      Note(Proceed);
    }

    // Where the goroutine stands when the given handler is entered.
    ghost predicate Fits(next: Handler) reads this {
      match next
      case ToCheckInternet => pc.CheckInternet?
      case ToProvisioning(runNow) => pc == if runNow then AttemptStart else Parked
      case ToRun => pc.EnterRun?
      case Exit => pc.Down?
    }

    // Run the prelude and answer the caller with its result, whatever it is.
    method BeginReprovision(org: string) returns (ok: bool)
      requires Valid() && pc == BeginPrelude(org) && owed.Some?
      modifies this
      ensures Valid() && old(log) <= log && Fits(ToProvisioning(ok))
      ensures replies == old(replies) + [old(owed.value)] && owed.None? && accepted == old(accepted)
      ensures ok ==> disk == Disk(Some(now), None, None,
                                  if org == "" then None else Some(org), old(disk.cloudKey))
      ensures cloudUp == old(cloudUp) && attached == old(attached) && !completeFailed
    {
      ghost var stopped, rolledBack;
      var failed;
      failed, stopped, rolledBack := BeginProvisioning(org);
      snapshot := ProvisioningStage;
      Note(Proceed);
      ok := !failed;
    }

    method EnterRunState()
      requires Valid() && pc.AttemptDone?
      modifies this
      ensures Valid() && old(log) <= log && disk == old(disk) && activated == old(activated) && pc.EnterRun?
    {
      snapshot := RunState;
      Note(Proceed);
    }

    // A parked daemon accepts a request.
    method TakeCommand(id: nat, org: string)
      requires Valid() && pc.Parked?
      modifies this
      ensures Valid() && old(log) <= log && disk == old(disk)
      ensures pc == BeginPrelude(org) && owed == Some(id) && accepted == old(accepted) + [id]
      ensures completeFailed == old(completeFailed)
    {
      Note(Command(id, org));
    }

    // Provisioning: run an attempt if one is due, then wait for commands.
    method RunProvisioning(runAttemptNow: bool, commands: seq<(nat, string)>)
      returns (next: Handler, rest: seq<(nat, string)>)
      requires Valid() && Fits(ToProvisioning(runAttemptNow))
      modifies this
      ensures Valid() && old(log) <= log && Fits(next) && (next.ToRun? || next.Exit?)
      ensures next.ToRun? ==> HasCredentials(disk) && disk.cert.value in activated
      ensures |rest| <= |commands|
    {
      rest := commands;
      var runNow := runAttemptNow;
      while true
        invariant Valid() && old(log) <= log && Fits(ToProvisioning(runNow)) && |rest| <= |commands|
        decreases |rest|
      {
        if runNow {
          var outcome := RunAttempt();
          match outcome {
            case Succeeded =>
              EnterRunState();
              return ToRun, rest;
            case Aborted => return Exit, rest;
            case GaveUp =>
          }
        }
        if rest == [] {
          Stop();
          return Exit, rest;
        }
        var (id, org) := rest[0];
        rest := rest[1..];
        TakeCommand(id, org);
        runNow := BeginReprovision(org);
      }
    }

    method StartCloud()
      requires Valid() && pc.EnterRun? && disk.deviceId.Some?
      modifies this
      ensures Valid() && old(log) <= log && disk == old(disk) && pc.Running? && cloudUp && replies == old(replies)
    {
      attached, cloudUp := true, true;
      Note(Proceed);
    }

    // cancelCloud, on a request or on shutdown.
    method CancelCloud(request: Option<(nat, string)>)
      requires Valid() && pc.Running? && cloudUp
      modifies this
      ensures Valid() && old(log) <= log && disk == old(disk) && cloudUp && replies == old(replies)
      ensures request.None? ==> pc == Stopping(None)
      ensures request.Some? ==> pc == Stopping(Some(request.value.1)) && owed == Some(request.value.0)
    {
      if request.None? {
        Note(Cancelled);
      } else {
        Note(Command(request.value.0, request.value.1));
      }
    }

    // <-f.Done()
    method AwaitCloud()
      requires Valid() && pc.Stopping?
      modifies this
      ensures Valid() && old(log) <= log && disk == old(disk) && owed == old(owed)
      ensures pc == Detaching(old(pc.next)) && !cloudUp && replies == old(replies)
    {
      cloudUp := false;
      Note(CloudExits);
    }

    method DetachCloud(next: Option<string>)
      requires Valid() && pc == Detaching(next) && !cloudUp
      modifies this
      ensures Valid() && old(log) <= log && disk == old(disk)
      ensures next.None? ==> pc.Down?
      ensures next.Some? ==> pc == BeginPrelude(next.value) && owed == old(owed) && replies == old(replies)
    {
      if next.Some? {
        attached := false;
      } else {
        End();
      }
      Note(Proceed);
    }

    // cloud.New failed: fall back to the internet check.
    method CloudUnavailable()
      requires Valid() && pc.EnterRun?
      modifies this
      ensures Valid() && old(log) <= log && disk == old(disk) && pc.CheckInternet?
    {
      snapshot := CheckInternetState;
      Note(Refused);
    }

    // Supervise the cloud FSM until a request or a shutdown; it has returned and is detached
    // before this returns.
    method Supervise(request: Option<(nat, string)>)
      requires Valid() && pc.EnterRun? && disk.deviceId.Some?
      modifies this
      ensures Valid() && old(log) <= log && disk == old(disk)
      ensures request.None? ==> pc.Down?
      ensures request.Some? ==>
                pc == BeginPrelude(request.value.1) && owed == Some(request.value.0) && replies == old(replies)
    {
      StartCloud();
      CancelCloud(request);
      AwaitCloud();
      DetachCloud(if request.None? then None else Some(request.value.1));
    }

    // Run: the cloud FSM is started, and stopped before anything touches the disk.
    method RunRun(commands: seq<(nat, string)>) returns (next: Handler, rest: seq<(nat, string)>)
      requires Valid() && pc.EnterRun?
      modifies this
      ensures Valid() && old(log) <= log && Fits(next) && !next.ToRun?
      ensures next.ToProvisioning? || disk == old(disk)
      ensures next.ToProvisioning? ==>
                commands != [] && rest == commands[1..] && replies == old(replies) + [commands[0].0]
      ensures next.Exit? ==> commands == []
      ensures !cloudUp && !attached && |rest| <= |commands|
    {
      rest := commands;
      var unreadable: bool := *;
      if unreadable || disk.deviceId.None? {
        CloudUnavailable();
        CloudIsGone(ToCheckInternet);
        return ToCheckInternet, rest;
      }
      if rest == [] {
        Supervise(None);
        CloudIsGone(Exit);
        return Exit, rest;
      }
      var (id, org) := rest[0];
      rest := rest[1..];
      Supervise(Some((id, org)));
      var ok := BeginReprovision(org);
      next := ToProvisioning(ok);
      CloudIsGone(next);
    }

    // The handlers chained, for a number of rounds the environment chooses.
    method Run(rounds: nat, commands: seq<(nat, string)>)
      requires Valid() && pc.CheckInternet?
      modifies this
      ensures Valid() && old(log) <= log
      ensures KeyMatches(disk)
      ensures RemoveErr(CertFile) !in log ==> ActiveOrMarked(Abs()) && ActiveInRun(Abs())
    {
      var next, rest := ToCheckInternet, commands;
      for i := 0 to rounds
        invariant Valid() && old(log) <= log && Fits(next)
      {
        match next {
          case ToCheckInternet => next := PickPostInternetState();
          case ToProvisioning(runNow) => next, rest := RunProvisioning(runNow, rest);
          case ToRun => next, rest := RunRun(rest);
          case Exit => break;
        }
      }
      Kept();
      PathIsRun(trace[0].now, trace, log);
      if RemoveErr(CertFile) !in log {
        OnlyActivatedCertificatesRun(trace[0].now, log);
      }
    }
  }
}
