/** When a certificate that the cloud has activated is discarded by the end of a window. */
module ProvisioningLosses {
  import opened Common
  import opened ProvisioningMachine
  import opened ProvisioningSafety
  import opened ProvisioningCauses

  // The cloud carried out provision/complete, whether or not its answer arrived.
  ghost predicate Activation(e: Event) {
    e == CompleteOk || e == CompleteLost
  }

  // A marker is left over a stored certificate: an answer is lost, the marker of a finished
  // attempt is not removed, or a request is cut between its marker and its first removal or
  // cannot take its marker back.
  ghost predicate LeavesMarker(s: State, e: Event) {
    || e == CompleteLost
    || ((s.pc.ClearDone? || s.pc.Rollback?) && (e == Crash || e == RemoveErr(MarkerFile)))
    || (s.pc.WipeCert? && s.pc.wipe.ForPrelude? && e == Crash)
  }

  // Neither the end of an attempt nor a request is about to take the marker or the certificate.
  ghost predicate Standing(s: State) {
    && s.disk.marker.Some? && s.disk.cert.Some?
    && !s.pc.ClearDone? && !s.pc.Rollback? && !(s.pc.WipeCert? && s.pc.wipe.ForPrelude?)
  }

  lemma StandingStep(s: State, e: Event)
    requires Apply(s, e).Some? && Standing(Apply(s, e).value) && !Touches(e, CertFile)
    ensures !Touches(e, MarkerFile) && (Standing(s) || LeavesMarker(s, e))
  {
  }

  lemma ActivationStep(s: State, e: Event)
    requires Apply(s, e).Some? && Activation(e) && Standing(Apply(s, e).value)
    ensures LeavesMarker(s, e)
  {
  }

  lemma {:induction false} MarkerCause(states: seq<State>, events: seq<Event>, a: nat, k: nat) returns (i: nat)
    requires RunOf(states, events) && a < k <= |events| && Standing(states[k])
    requires Activation(events[a]) && Untouched(events, CertFile, a, k)
    ensures a <= i < k && LeavesMarker(states[i], events[i]) && Untouched(events, MarkerFile, i, k)
    decreases k
  {
    var s, e := states[k - 1], events[k - 1];
    assert Apply(s, e) == Some(states[k]);
    if k == a + 1 {
      i := a;
      ActivationStep(s, e);
    } else {
      StandingStep(s, e);
      if LeavesMarker(s, e) {
        i := k - 1;
      } else {
        i := MarkerCause(states, events, a, k - 1);
      }
    }
  }

  lemma LeavingStep(s: State, e: Event)
    requires DiskFits(s) && Apply(s, e).Some? && LeavesMarker(s, e)
    ensures Apply(s, e).value.disk.marker.Some?
  {
  }

  lemma MarkerUntouched(s: State, e: Event)
    requires Apply(s, e).Some? && !Touches(e, MarkerFile)
    ensures Apply(s, e).value.disk.marker == s.disk.marker
  {
  }

  lemma {:induction false} MarkerStays(states: seq<State>, events: seq<Event>, i: nat, k: nat)
    requires RunOf(states, events) && i < k <= |events|
    requires LeavesMarker(states[i], events[i]) && Untouched(events, MarkerFile, i, k)
    ensures states[k].disk.marker.Some?
    decreases k
  {
    var s, e := states[k - 1], events[k - 1];
    assert Apply(s, e) == Some(states[k]);
    if k == i + 1 {
      RunOfFits(states, events, i);
      LeavingStep(s, e);
    } else {
      MarkerStays(states, events, i, k - 1);
      MarkerUntouched(s, e);
    }
  }

  // The certificate activated at a is still there.
  lemma {:induction false} CertificateStays(states: seq<State>, events: seq<Event>, a: nat, k: nat)
    requires RunOf(states, events) && a < k <= |events| && Activation(events[a]) && Untouched(events, CertFile, a, k)
    ensures states[k].disk.cert.Some? && states[k].disk.cert == states[a].disk.cert
    decreases k
  {
    assert Apply(states[k - 1], events[k - 1]) == Some(states[k]);
    UntouchedStep(states[k - 1], events[k - 1]);
    if k > a + 1 {
      CertificateStays(states, events, a, k - 1);
    }
  }

  // A marker left at i still stands at k.
  ghost predicate MarkerLeft(states: seq<State>, events: seq<Event>, i: nat, k: nat)
    requires |states| == |events| + 1 && k <= |events|
  {
    i < k && LeavesMarker(states[i], events[i]) && Untouched(events, MarkerFile, i, k)
  }

  // An attempt resumes over a certificate already activated, at a, exactly when a marker was
  // left over it: by a lost answer, by the end of the activating attempt, or by a request that
  // did not get as far as its first removal.
  lemma ResumesActivatedExactly(states: seq<State>, events: seq<Event>, a: nat, k: nat)
    requires RunOf(states, events) && a < k <= |events| && states[k].pc.AttemptStart?
    requires Activation(events[a]) && Untouched(events, CertFile, a, k)
    ensures states[k].disk.marker.Some? <==> exists i: nat :: a <= i && MarkerLeft(states, events, i, k)
  {
    CertificateStays(states, events, a, k);
    if states[k].disk.marker.Some? {
      var i := MarkerCause(states, events, a, k);
      assert MarkerLeft(states, events, i, k);
    } else if i: nat :| a <= i && MarkerLeft(states, events, i, k) {
      MarkerStays(states, events, i, k);
    }
  }

  lemma ExpiryStep(s: State, e: Event)
    requires Apply(s, e).Some? && Apply(s, e).value.pc == WipeCert(ForExpiry)
    ensures (e.Tick? && s.pc == WipeCert(ForExpiry)) || (e == Expired && s.pc.Complete?)
  {
  }

  lemma {:induction false} ExpiryCause(states: seq<State>, events: seq<Event>, k: nat) returns (j: nat)
    requires RunOf(states, events) && k <= |events| && states[k].pc == WipeCert(ForExpiry)
    ensures j < k && events[j] == Expired && states[j].pc.Complete? && OnlyTicks(events, j + 1, k)
  {
    assert Apply(states[k - 1], events[k - 1]) == Some(states[k]);
    ExpiryStep(states[k - 1], events[k - 1]);
    if events[k - 1] == Expired {
      j := k - 1;
    } else {
      j := ExpiryCause(states, events, k - 1);
    }
  }

  lemma {:induction false} ExpiryLeads(states: seq<State>, events: seq<Event>, j: nat, k: nat)
    requires RunOf(states, events) && j < k <= |events|
    requires events[j] == Expired && states[j].pc.Complete? && OnlyTicks(events, j + 1, k)
    ensures states[k].pc == WipeCert(ForExpiry)
    decreases k
  {
    assert Apply(states[k - 1], events[k - 1]) == Some(states[k]);
    if k > j + 1 {
      ExpiryLeads(states, events, j, k - 1);
    }
  }

  // Event n removes the certificate, and no request asked for it.
  ghost predicate Discards(states: seq<State>, events: seq<Event>, n: nat)
    requires |states| == |events| + 1 && n < |events|
  {
    events[n] == RemoveOk(CertFile) && states[n].pc == WipeCert(ForExpiry)
  }

  // The window closed at j on an attempt under the marker left at i, and the next thing to
  // happen was the removal of the certificate.
  ghost predicate WindowClosedOver(states: seq<State>, events: seq<Event>, i: nat, j: nat, n: nat)
    requires |states| == |events| + 1 && n < |events|
  {
    && i < j < n && MarkerLeft(states, events, i, n)
    && events[j] == Expired && states[j].pc.Complete? && OnlyTicks(events, j + 1, n)
    && events[n] == RemoveOk(CertFile)
  }

  // A certificate activated at a is discarded at n exactly when a marker was left over it and
  // the window closed on an attempt under that marker.
  lemma ActivatedDiscardedExactly(states: seq<State>, events: seq<Event>, a: nat, n: nat)
    requires RunOf(states, events) && a < n < |events|
    requires Activation(events[a]) && Untouched(events, CertFile, a, n)
    ensures Discards(states, events, n) <==> exists i: nat, j: nat :: a <= i && WindowClosedOver(states, events, i, j, n)
  {
    if Discards(states, events, n) {
      RunOfFits(states, events, n);
      CertificateStays(states, events, a, n);
      var j := ExpiryCause(states, events, n);
      var i := MarkerCause(states, events, a, n);
      assert WindowClosedOver(states, events, i, j, n);
    } else if i: nat, j: nat :| a <= i && WindowClosedOver(states, events, i, j, n) {
      ExpiryLeads(states, events, j, n);
    }
  }

  // Without a lost answer, a crash or a marker that could not be removed it never happens.
  lemma ActivatedSurvives(states: seq<State>, events: seq<Event>, a: nat, n: nat)
    requires RunOf(states, events) && a < n < |events| && Activation(events[a]) && Untouched(events, CertFile, a, n)
    requires CompleteLost !in events && Crash !in events && RemoveErr(MarkerFile) !in events
    ensures !Discards(states, events, n)
  {
    ActivatedDiscardedExactly(states, events, a, n);
  }

  // ---------- Key rotation ----------

  // Between the new key and the certificate for it only the CSR is built, sent and answered.
  ghost predicate Requesting(e: Event) {
    e.Tick? || e == Proceed || e.Issue?
  }

  ghost predicate RotatedFor(states: seq<State>, events: seq<Event>, key: nat, h: nat, i: nat, k: nat)
    requires |states| == |events| + 1 && k <= |events|
  {
    && h < i < k && events[h] == RemoveOk(KeyFile) && events[i] == NewKey(key) && OnlyTicks(events, h + 1, i)
    && forall t :: i < t < k ==> Requesting(events[t])
  }

  ghost predicate HasRequestKey(pc: Pc, d: Disk, key: nat) {
    || (pc.BuildCsr? && d.cloudKey == Some(key)) || (pc.SubmitCsr? && pc.csrKey == key)
    || (pc.StoreCert? && pc.issued.key == key)
  }

  lemma RequestStep(s: State, e: Event, key: nat)
    requires Apply(s, e).Some? && HasRequestKey(Apply(s, e).value.pc, Apply(s, e).value.disk, key)
    ensures (s.pc.WriteKey? && e == NewKey(key)) || (HasRequestKey(s.pc, s.disk, key) && Requesting(e))
  {
  }

  lemma WriteKeyStep(s: State, e: Event)
    requires Apply(s, e).Some? && Apply(s, e).value.pc.WriteKey?
    ensures e == RemoveOk(KeyFile) || (e.Tick? && s.pc.WriteKey?)
  {
  }

  lemma {:induction false} RemovalCause(states: seq<State>, events: seq<Event>, k: nat) returns (h: nat)
    requires RunOf(states, events) && k <= |events| && states[k].pc.WriteKey?
    ensures h < k && events[h] == RemoveOk(KeyFile) && OnlyTicks(events, h + 1, k)
  {
    assert Apply(states[k - 1], events[k - 1]) == Some(states[k]);
    WriteKeyStep(states[k - 1], events[k - 1]);
    if events[k - 1] == RemoveOk(KeyFile) {
      h := k - 1;
    } else {
      h := RemovalCause(states, events, k - 1);
    }
  }

  lemma {:induction false} RotationCause(states: seq<State>, events: seq<Event>, key: nat, k: nat) returns (h: nat, i: nat)
    requires RunOf(states, events) && k <= |events| && HasRequestKey(states[k].pc, states[k].disk, key)
    ensures RotatedFor(states, events, key, h, i, k)
  {
    assert Apply(states[k - 1], events[k - 1]) == Some(states[k]);
    RequestStep(states[k - 1], events[k - 1], key);
    if states[k - 1].pc.WriteKey? {
      i := k - 1;
      h := RemovalCause(states, events, k - 1);
    } else {
      h, i := RotationCause(states, events, key, k - 1);
    }
  }

  // No certificate is stored for an old key: in the same attempt the old key was removed and a
  // new one generated, and the certificate is for that one.
  lemma EveryCertificateHasAFreshKey(states: seq<State>, events: seq<Event>, j: nat) returns (h: nat, i: nat)
    requires RunOf(states, events) && j < |events| && events[j] == WriteOk(CertFile)
    ensures states[j + 1].disk.cert.Some?
    ensures RotatedFor(states, events, states[j + 1].disk.cert.value.key, h, i, j)
  {
    assert Apply(states[j], events[j]) == Some(states[j + 1]);
    h, i := RotationCause(states, events, states[j].pc.issued.key, j);
  }
}
