/** Nothing is left behind, and nothing is refused, but for a file operation that failed. */
module ProvisioningCleanUp {
  import opened Common
  import opened ProvisioningMachine
  import opened ProvisioningSafety
  import opened ProvisioningCauses
  import opened ProvisioningPreludes
  import opened ProvisioningReports

  // ---------- Giving up ----------

  // What a discard that began at i has left so far, and why.
  ghost predicate LeftBehind(d: Disk, events: seq<Event>, i: nat, k: nat)
    requires k <= |events|
  {
    && (d.cert.Some? ==> Saw(events, i, k, RemoveErr(CertFile)))
    && (d.deviceId.Some? ==> Saw(events, i, k, RemoveErr(CertFile)) || Saw(events, i, k, RemoveErr(DeviceIdFile)))
    && (d.organizationId.Some? ==>
          || Saw(events, i, k, RemoveErr(CertFile)) || Saw(events, i, k, RemoveErr(DeviceIdFile))
          || Saw(events, i, k, RemoveErr(OrganizationFile)))
  }

  ghost predicate DiscardedSoFar(s: State, events: seq<Event>, i: nat, k: nat)
    requires k <= |events|
  {
    match s.pc
    case WipeCert(_) => true
    case WipeDeviceId(_) => s.disk.cert.None?
    case WipeOrganization(_) => s.disk.cert.None? && s.disk.deviceId.None?
    case _ => LeftBehind(s.disk, events, i, k)
  }

  lemma LeftBehindNext(d: Disk, events: seq<Event>, i: nat, k: nat)
    requires i < k < |events| && LeftBehind(d, events, i, k)
    ensures LeftBehind(d, events, i, k + 1)
  {
    SawNext(events, i, k, RemoveErr(CertFile));
    SawNext(events, i, k, RemoveErr(DeviceIdFile));
    SawNext(events, i, k, RemoveErr(OrganizationFile));
  }

  lemma DiscardStep(s: State, events: seq<Event>, i: nat, k: nat)
    requires i < k < |events| && Expiring(s.pc) && Discarding(events[k]) && Apply(s, events[k]).Some?
    requires DiscardedSoFar(s, events, i, k)
    ensures DiscardedSoFar(Apply(s, events[k]).value, events, i, k + 1)
  {
    SawNext(events, i, k, RemoveErr(CertFile));
    SawNext(events, i, k, RemoveErr(DeviceIdFile));
    SawNext(events, i, k, RemoveErr(OrganizationFile));
  }

  lemma {:induction false} Discarded(states: seq<State>, events: seq<Event>, i: nat, k: nat)
    requires RunOf(states, events) && i < k <= |events| && states[i].pc.Complete? && events[i] == Expired
    requires forall t :: i < t < k ==> Discarding(events[t])
    ensures DiscardedSoFar(states[k], events, i, k) && Expiring(states[k].pc)
    decreases k
  {
    assert Apply(states[k - 1], events[k - 1]) == Some(states[k]);
    ExpiringAfter(states, events, i, k);
    if k > i + 1 {
      Discarded(states, events, i, k - 1);
      DiscardStep(states[k - 1], events, i, k - 1);
    }
  }

  // An attempt given up at j leaves a file only where a removal failed, and the marker only if
  // its own removal did.
  lemma GivingUpLeavesNothing(states: seq<State>, events: seq<Event>, i: nat, j: nat)
    requires RunOf(states, events) && GaveUp(states, events, i, j)
    ensures LeftBehind(states[j + 1].disk, events, i, j)
    ensures states[j + 1].disk.marker.Some? <==> events[j] == RemoveErr(MarkerFile)
    ensures states[j + 1].pc.Parked? && states[j + 1].proc.completeFailed
  {
    Discarded(states, events, i, j);
    RunOfFits(states, events, j);
    assert Apply(states[j], events[j]) == Some(states[j + 1]);
  }

  // ---------- In Run ----------

  // The removal of the marker after an activation failed at j, and the marker is untouched since.
  ghost predicate ClearingFailed(states: seq<State>, events: seq<Event>, j: nat, n: nat)
    requires |states| == |events| + 1 && n <= |events|
  {
    && j < n && events[j] == RemoveErr(MarkerFile) && states[j].pc.ClearDone?
    && Untouched(events, MarkerFile, j, n)
  }

  ghost predicate Activated(pc: Pc) {
    pc.AttemptDone? || InRun(pc)
  }

  lemma MarkerInRunStep(s: State, e: Event)
    requires Apply(s, e).Some? && Activated(Apply(s, e).value.pc) && Apply(s, e).value.disk.marker.Some?
    ensures !Touches(e, MarkerFile) && s.disk.marker.Some?
    ensures Activated(s.pc) || (s.pc.ClearDone? && e == RemoveErr(MarkerFile))
  {
  }

  lemma {:induction false} MarkerInRunCause(states: seq<State>, events: seq<Event>, n: nat) returns (j: nat)
    requires RunOf(states, events) && n <= |events| && Activated(states[n].pc) && states[n].disk.marker.Some?
    ensures ClearingFailed(states, events, j, n)
  {
    assert Apply(states[n - 1], events[n - 1]) == Some(states[n]);
    MarkerInRunStep(states[n - 1], events[n - 1]);
    if Activated(states[n - 1].pc) {
      j := MarkerInRunCause(states, events, n - 1);
    } else {
      j := n - 1;
    }
  }

  // In Run a marker stands exactly when the clearing of a finished attempt failed.
  lemma MarkerInRunExactly(states: seq<State>, events: seq<Event>, n: nat)
    requires RunOf(states, events) && n <= |events| && InRun(states[n].pc)
    ensures states[n].disk.marker.Some? <==> exists j: nat :: ClearingFailed(states, events, j, n)
  {
    if states[n].disk.marker.Some? {
      var j := MarkerInRunCause(states, events, n);
    } else if j: nat :| ClearingFailed(states, events, j, n) {
      RunOfFits(states, events, j);
      assert Apply(states[j], events[j]) == Some(states[j + 1]);
      MarkerKept(states, events, j, n);
    }
  }

  lemma {:induction false} MarkerKept(states: seq<State>, events: seq<Event>, j: nat, n: nat)
    requires RunOf(states, events) && j < n <= |events| && Untouched(events, MarkerFile, j, n)
    ensures states[n].disk.marker == states[j + 1].disk.marker
    decreases n
  {
    if n > j + 1 {
      assert Apply(states[n - 1], events[n - 1]) == Some(states[n]);
      MarkerStep(states[n - 1], events[n - 1]);
      MarkerKept(states, events, j, n - 1);
    }
  }

  ghost predicate Disturbs(e: Event) {
    e == Crash || e == Refused || e.Command? || e == Cancelled
  }

  lemma OnTheWayStep(s: State, e: Event)
    requires Apply(s, e).Some? && !Disturbs(e)
    ensures e == CompleteOk ==> Apply(s, e).value.pc.ClearDone?
    ensures s.pc.ClearDone? || s.pc.AttemptDone? || s.pc.EnterRun? || s.pc.Running? ==>
              var pc := Apply(s, e).value.pc; pc.ClearDone? || pc.AttemptDone? || pc.EnterRun? || pc.Running?
  {
  }

  // After an activation the daemon goes on to Run, unless it is stopped, cannot read its files
  // or takes a request.
  lemma {:induction false} ActivationLeadsToRun(states: seq<State>, events: seq<Event>, j: nat, n: nat)
    requires RunOf(states, events) && j < n <= |events| && events[j] == CompleteOk
    requires forall t :: j < t < n ==> !Disturbs(events[t])
    ensures var pc := states[n].pc; pc.ClearDone? || pc.AttemptDone? || pc.EnterRun? || pc.Running?
    decreases n
  {
    assert Apply(states[n - 1], events[n - 1]) == Some(states[n]);
    OnTheWayStep(states[n - 1], events[n - 1]);
    if n > j + 1 {
      ActivationLeadsToRun(states, events, j, n - 1);
    }
  }

  // ---------- Refusing ----------

  ghost predicate Failure(e: Event) {
    e.WriteErr? || e.RemoveErr?
  }

  ghost predicate FailedSince(events: seq<Event>, c: nat, n: nat)
    requires n <= |events|
  {
    exists t :: c < t < n && Failure(events[t])
  }

  // The organization a request in progress is for.
  ghost predicate Asks(pc: Pc, org: string) {
    match pc
    case Stopping(next) => next == Some(org)
    case Detaching(next) => next == Some(org)
    case BeginPrelude(o) => o == org
    case WriteMarker(o) => o == org
    case WipeCert(w) => w == ForPrelude(org)
    case WipeDeviceId(w) => w == ForPrelude(org)
    case WipeOrganization(w) => w == ForPrelude(org)
    case StoreOrganization(o) => o == org != ""
    case _ => false
  }

  ghost predicate ServedSoFar(s: State, org: string, failed: bool) {
    || (Asks(s.pc, org) && !failed && (s.pc.StoreOrganization? ==> s.disk.organizationId.None?))
    || (s.pc == Reply(true) && !failed && s.disk.organizationId == if org == "" then None else Some(org))
    || ((s.pc.Rollback? || s.pc == Reply(false)) && failed)
  }

  lemma ServedStep(s: State, e: Event, org: string, failed: bool)
    requires DaemonFits(s) && Apply(s, e).Some? && s.proc.owed.Some? && Apply(s, e).value.proc.owed.Some?
    requires ServedSoFar(s, org, failed)
    ensures ServedSoFar(Apply(s, e).value, org, failed || Failure(e))
  {
  }

  lemma ServedFirst(s: State, e: Event)
    requires Apply(s, e).Some? && e.Command?
    ensures ServedSoFar(Apply(s, e).value, e.org, false)
  {
  }

  lemma FailedNext(events: seq<Event>, c: nat, n: nat)
    requires c < n < |events|
    ensures FailedSince(events, c, n + 1) <==> FailedSince(events, c, n) || Failure(events[n])
  {
    if FailedSince(events, c, n) {
      var t :| c < t < n && Failure(events[t]);
      assert c < t < n + 1;
    }
  }

  lemma {:induction false} Served(states: seq<State>, events: seq<Event>, c: nat, n: nat)
    requires RunOf(states, events) && n <= |events| && Serving(states, events, c, n)
    ensures ServedSoFar(states[n], events[c].org, FailedSince(events, c, n))
    decreases n
  {
    assert Apply(states[n - 1], events[n - 1]) == Some(states[n]);
    if n == c + 1 {
      ServedFirst(states[c], events[c]);
      assert !FailedSince(events, c, n);
    } else {
      Served(states, events, c, n - 1);
      RunOfFits(states, events, n - 1);
      ServedStep(states[n - 1], events[n - 1], events[c].org, FailedSince(events, c, n - 1));
      FailedNext(events, c, n - 1);
    }
  }

  // A request is refused exactly when a file operation of its own failed; a request granted has
  // emptied the board under a marker and recorded the organization it named.
  lemma RefusedExactly(states: seq<State>, events: seq<Event>, c: nat, n: nat)
    requires RunOf(states, events) && n <= |events| && Serving(states, events, c, n) && states[n].pc.Reply?
    ensures !states[n].pc.ok <==> FailedSince(events, c, n)
    ensures states[n].pc.ok ==>
              var d, org := states[n].disk, events[c].org;
              && d.marker.Some? && d.cert.None? && d.deviceId.None?
              && d.organizationId == if org == "" then None else Some(org)
  {
    Served(states, events, c, n);
    RunOfFits(states, events, n);
  }

  // A refused request has tried to take its marker back.
  lemma RefusalTakesMarkerBack(states: seq<State>, events: seq<Event>, c: nat, n: nat)
    requires RunOf(states, events) && n <= |events| && Serving(states, events, c, n) && states[n].pc == Reply(false)
    ensures Saw(events, c, n, WriteOk(MarkerFile)) ==>
              Saw(events, c, n, RemoveOk(MarkerFile)) || Saw(events, c, n, RemoveErr(MarkerFile))
  {
    MarkerTaken(states, events, c, n);
  }

  lemma {:induction false} MarkerTaken(states: seq<State>, events: seq<Event>, c: nat, n: nat)
    requires RunOf(states, events) && n <= |events| && Serving(states, events, c, n)
    ensures BeforeMarker(states[n].pc) ==> !Saw(events, c, n, WriteOk(MarkerFile))
    ensures states[n].pc == Reply(false) && Saw(events, c, n, WriteOk(MarkerFile)) ==>
              Saw(events, c, n, RemoveOk(MarkerFile)) || Saw(events, c, n, RemoveErr(MarkerFile))
    decreases n
  {
    var s, e := states[n - 1], events[n - 1];
    assert Apply(s, e) == Some(states[n]);
    if n > c + 1 {
      MarkerTaken(states, events, c, n - 1);
      RunOfFits(states, events, n - 1);
      SawNext(events, c, n - 1, WriteOk(MarkerFile));
      SawNext(events, c, n - 1, RemoveOk(MarkerFile));
      SawNext(events, c, n - 1, RemoveErr(MarkerFile));
      TakenStep(s, e);
    }
  }

  lemma TakenStep(s: State, e: Event)
    requires DaemonFits(s) && Apply(s, e).Some? && s.proc.owed.Some? && Apply(s, e).value.proc.owed.Some?
    ensures BeforeMarker(Apply(s, e).value.pc) ==> BeforeMarker(s.pc) && e != WriteOk(MarkerFile)
    ensures Apply(s, e).value.pc == Reply(false) ==>
              || s.pc == Reply(false) || e in {RemoveOk(MarkerFile), RemoveErr(MarkerFile)}
              || (s.pc.WriteMarker? && e == WriteErr(MarkerFile))
    ensures Apply(s, e).value.pc == Reply(false) ==> e != WriteOk(MarkerFile)
  {
  }
}
