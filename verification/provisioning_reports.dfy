/** What the service reports of itself, read off the events of its run. */
module ProvisioningReports {
  import opened Common
  import opened ProvisioningMachine
  import opened ProvisioningSafety
  import opened ProvisioningCauses

  // ---------- A remembered failure ----------

  ghost predicate Discarding(e: Event) {
    e.Tick? || e in {RemoveOk(CertFile), RemoveErr(CertFile), RemoveOk(DeviceIdFile), RemoveErr(DeviceIdFile),
                     RemoveOk(OrganizationFile), RemoveErr(OrganizationFile)}
  }

  // An activation ran out of its window at i, the credentials were discarded, and with the
  // removal of the marker, at j, the attempt was given up.
  ghost predicate GaveUp(states: seq<State>, events: seq<Event>, i: nat, j: nat)
    requires |states| == |events| + 1
  {
    && i < j < |events| && states[i].pc.Complete? && events[i] == Expired
    && (events[j] == RemoveOk(MarkerFile) || events[j] == RemoveErr(MarkerFile))
    && forall t :: i < t < j ==> Discarding(events[t])
  }

  // The process ended, or a request entered the prelude.
  ghost predicate Superseded(s: State, e: Event) {
    || e == Crash || (e == Proceed && s.pc.BeginPrelude?)
    || (e.Cancelled? && !s.pc.Running?) || (e == Proceed && s.pc == Detaching(None))
    || (s.pc.BootKey? && (e == Refused || e == WriteErr(KeyFile)))
  }

  ghost predicate Remembers(states: seq<State>, events: seq<Event>, n: nat)
    requires |states| == |events| + 1 && n <= |events|
  {
    exists i: nat, j: nat :: GaveUp(states, events, i, j) && j < n && NotSuperseded(states, events, j, n)
  }

  ghost predicate NotSuperseded(states: seq<State>, events: seq<Event>, j: nat, n: nat)
    requires |states| == |events| + 1 && n <= |events|
  {
    forall t :: j < t < n ==> !Superseded(states[t], events[t])
  }

  ghost predicate Expiring(pc: Pc) {
    || pc.ClearExpired?
    || ((pc.WipeCert? || pc.WipeDeviceId? || pc.WipeOrganization?) && pc.wipe.ForExpiry?)
  }

  lemma IntoExpiring(s: State, e: Event)
    requires Apply(s, e).Some? && Expiring(Apply(s, e).value.pc)
    ensures (s.pc.Complete? && e == Expired) || (Expiring(s.pc) && Discarding(e))
  {
  }

  lemma StaysExpiring(s: State, e: Event)
    requires Apply(s, e).Some?
    ensures s.pc.Complete? && e == Expired ==> Expiring(Apply(s, e).value.pc)
    ensures Expiring(s.pc) && Discarding(e) ==> Expiring(Apply(s, e).value.pc)
  {
  }

  lemma {:induction false} ExpiringCause(states: seq<State>, events: seq<Event>, k: nat) returns (i: nat)
    requires RunOf(states, events) && k <= |events| && Expiring(states[k].pc)
    ensures i < k && states[i].pc.Complete? && events[i] == Expired && forall t :: i < t < k ==> Discarding(events[t])
  {
    assert Apply(states[k - 1], events[k - 1]) == Some(states[k]);
    IntoExpiring(states[k - 1], events[k - 1]);
    if events[k - 1] == Expired {
      i := k - 1;
    } else {
      i := ExpiringCause(states, events, k - 1);
    }
  }

  lemma {:induction false} ExpiringAfter(states: seq<State>, events: seq<Event>, i: nat, k: nat)
    requires RunOf(states, events) && i < k <= |events| && states[i].pc.Complete? && events[i] == Expired
    requires forall t :: i < t < k ==> Discarding(events[t])
    ensures Expiring(states[k].pc)
    decreases k
  {
    assert Apply(states[k - 1], events[k - 1]) == Some(states[k]);
    StaysExpiring(states[k - 1], events[k - 1]);
    if k > i + 1 {
      ExpiringAfter(states, events, i, k - 1);
    }
  }

  // One step of the flag.
  ghost predicate GivesUp(s: State, e: Event) {
    Expiring(s.pc) && (e == RemoveOk(MarkerFile) || e == RemoveErr(MarkerFile))
  }

  lemma FlagStep(s: State, e: Event)
    requires DaemonFits(s) && Apply(s, e).Some?
    ensures Apply(s, e).value.proc.completeFailed
            <==> GivesUp(s, e) || (s.proc.completeFailed && !Superseded(s, e))
  {
  }

  lemma {:induction false} RememberedSince(states: seq<State>, events: seq<Event>, n: nat)
    requires RunOf(states, events) && n <= |events|
    ensures states[n].proc.completeFailed ==>
              exists j: nat :: j < n && GivesUp(states[j], events[j]) && NotSuperseded(states, events, j, n)
  {
    if n > 0 && states[n].proc.completeFailed {
      var s, e := states[n - 1], events[n - 1];
      assert Apply(s, e) == Some(states[n]);
      RunOfFits(states, events, n - 1);
      FlagStep(s, e);
      if GivesUp(s, e) {
        assert NotSuperseded(states, events, n - 1, n);
      } else {
        RememberedSince(states, events, n - 1);
        var j: nat :| j < n - 1 && GivesUp(states[j], events[j]) && NotSuperseded(states, events, j, n - 1);
        assert NotSuperseded(states, events, j, n);
      }
    }
  }

  lemma {:induction false} StaysRemembered(states: seq<State>, events: seq<Event>, j: nat, n: nat)
    requires RunOf(states, events) && j < n <= |events| && GivesUp(states[j], events[j])
    requires NotSuperseded(states, events, j, n)
    ensures states[n].proc.completeFailed
    decreases n
  {
    var s, e := states[n - 1], events[n - 1];
    assert Apply(s, e) == Some(states[n]);
    RunOfFits(states, events, n - 1);
    FlagStep(s, e);
    if n - 1 > j {
      StaysRemembered(states, events, j, n - 1);
    }
  }

  // A failure is remembered exactly when this process gave an activation up and no request has
  // entered the prelude since.
  lemma RemembersExactly(states: seq<State>, events: seq<Event>, n: nat)
    requires RunOf(states, events) && n <= |events|
    ensures states[n].proc.completeFailed <==> Remembers(states, events, n)
  {
    if states[n].proc.completeFailed {
      RememberedSince(states, events, n);
      var j: nat :| j < n && GivesUp(states[j], events[j]) && NotSuperseded(states, events, j, n);
      var i := ExpiringCause(states, events, j);
      assert GaveUp(states, events, i, j);
    } else if Remembers(states, events, n) {
      var i: nat, j: nat :| GaveUp(states, events, i, j) && j < n && NotSuperseded(states, events, j, n);
      ExpiringAfter(states, events, i, j);
      StaysRemembered(states, events, j, n);
    }
  }

  // ---------- The marker ----------

  ghost predicate MarkedAt(states: seq<State>, events: seq<Event>, w: nat, n: nat)
    requires |states| == |events| + 1 && n <= |events|
  {
    w < n && events[w] == WriteOk(MarkerFile) && Untouched(events, MarkerFile, w, n)
  }

  lemma MarkerStep(s: State, e: Event)
    requires Apply(s, e).Some?
    ensures Apply(s, e).value.disk.marker
            == if e == WriteOk(MarkerFile) then Some(s.now) else if e == RemoveOk(MarkerFile) then None else s.disk.marker
  {
  }

  // The marker is the time of the last request that wrote one, until it is removed.
  lemma {:induction false} MarkerExactly(states: seq<State>, events: seq<Event>, t: int, n: nat)
    requires RunOf(states, events) && n <= |events|
    ensures states[n].disk.marker == Some(t)
            <==> exists w: nat :: MarkedAt(states, events, w, n) && states[w].now == t
  {
    if n > 0 {
      var s, e := states[n - 1], events[n - 1];
      assert Apply(s, e) == Some(states[n]);
      MarkerStep(s, e);
      MarkerExactly(states, events, t, n - 1);
      if e == WriteOk(MarkerFile) {
        assert MarkedAt(states, events, n - 1, n);
        assert forall w: nat :: MarkedAt(states, events, w, n) ==> w == n - 1 by {
          assert Touches(e, MarkerFile);
        }
      } else {
        MarkedNext(states, events, t, n - 1);
      }
    }
  }

  lemma MarkedNext(states: seq<State>, events: seq<Event>, t: int, n: nat)
    requires |states| == |events| + 1 && n < |events| && events[n] != WriteOk(MarkerFile)
    ensures (exists w: nat :: MarkedAt(states, events, w, n + 1) && states[w].now == t)
            <==> events[n] != RemoveOk(MarkerFile) && exists w: nat :: MarkedAt(states, events, w, n) && states[w].now == t
  {
    if w: nat :| MarkedAt(states, events, w, n + 1) && states[w].now == t {
      assert w < n && !Touches(events[n], MarkerFile);
      assert MarkedAt(states, events, w, n);
    }
    if w: nat :| events[n] != RemoveOk(MarkerFile) && MarkedAt(states, events, w, n) && states[w].now == t {
      assert MarkedAt(states, events, w, n + 1);
    }
  }

  // ---------- The four answers ----------

  // A request wrote the marker that stands, ten minutes ago or more.
  ghost predicate Overdue(states: seq<State>, events: seq<Event>, n: nat)
    requires |states| == |events| + 1 && n <= |events|
  {
    exists w: nat :: MarkedAt(states, events, w, n) && states[w].now + 600_000_000_000 <= states[n].now
  }

  ghost predicate Underway(states: seq<State>, events: seq<Event>, n: nat)
    requires |states| == |events| + 1 && n <= |events|
  {
    exists w: nat :: MarkedAt(states, events, w, n) && states[n].now < states[w].now + 600_000_000_000
  }

  lemma MarkerAge(states: seq<State>, events: seq<Event>, n: nat)
    requires RunOf(states, events) && n <= |events|
    ensures var m, now := states[n].disk.marker, states[n].now;
            && (Overdue(states, events, n) <==> m.Some? && m.value + 600_000_000_000 <= now)
            && (Underway(states, events, n) <==> m.Some? && now < m.value + 600_000_000_000)
  {
    var m := states[n].disk.marker;
    if m.Some? {
      MarkerExactly(states, events, m.value, n);
    }
    forall w: nat | MarkedAt(states, events, w, n) ensures m == Some(states[w].now) {
      MarkerExactly(states, events, states[w].now, n);
    }
  }

  // What is reported at every moment of every run. Error: this process gave an activation up and
  // no request came since, or the attempt in flight is overdue. Provisioning: neither, and an
  // attempt is under way. Otherwise the two credential files decide.
  lemma ReportedExactly(states: seq<State>, events: seq<Event>, n: nat)
    requires RunOf(states, events) && n <= |events|
    ensures var s := states[n];
            var reported := StateOf(s.proc.completeFailed, s.disk, s.now);
            var failed, running := Remembers(states, events, n) || Overdue(states, events, n), Underway(states, events, n);
            && (reported.Failed? <==> failed)
            && (reported.InFlight? <==> !failed && running)
            && (reported.Provisioned? <==> !failed && !running && s.disk.cert.Some? && s.disk.deviceId.Some?)
            && (reported.Unprovisioned? <==> !failed && !running && (s.disk.cert.None? || s.disk.deviceId.None?))
  {
    RemembersExactly(states, events, n);
    MarkerAge(states, events, n);
  }
}
