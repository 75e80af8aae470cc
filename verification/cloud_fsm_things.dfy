/** Which thing the FSM publishes: the last one the cloud assigned, until something takes it away. */
module CloudFsmThings {
  import opened Common
  import opened CloudFsm
  import opened CloudFsmSafety
  import opened Inbound
  import Senml

  // A life of the FSM by its states.
  ghost predicate Life(states: seq<State>, events: seq<Event>) {
    && |states| == |events| + 1 && states[0] == Init(states[0].read)
    && (forall i {:trigger Step(states[i], events[i])} ::
          0 <= i < |events| ==> Step(states[i], events[i]) == Some(states[i + 1]))
  }

  lemma {:induction false} LifeFits(states: seq<State>, events: seq<Event>, k: nat)
    requires Life(states, events) && k <= |events|
    ensures Reachable(states[k]) && Inv(states[k])
  {
    if k == 0 {
      InitReachable(states[0].read);
    } else {
      LifeFits(states, events, k - 1);
      assert Step(states[k - 1], events[k - 1]) == Some(states[k]);
      ReachableStep(states[k - 1], events[k - 1]);
    }
    ReachableFits(states[k]);
  }

  ghost predicate Takes(s: State, e: Event, m: Message) {
    e.Take? && s.queue != [] && s.queue[0] == m
  }

  // The cloud assigns a thing, first or in place of another.
  ghost predicate Assigns(s: State, e: Event, thing: string) {
    thing != "" && Takes(s, e, ThingUpdate(thing)) && (s.stage.AwaitLoop? || s.stage.SteadyLoop?)
  }

  // It is taken away: the FSM reconnects or stops, the cloud detaches it, or in Steady announces
  // another one or none.
  ghost predicate Withdraws(s: State, e: Event, thing: string) {
    || e.Draw? || e.Cancel? || Takes(s, e, ThingDetach)
    || (s.stage.SteadyLoop? && e.Take? && s.queue != [] && s.queue[0].ThingUpdate? && s.queue[0].id != thing)
  }

  lemma AssignedStep(s: State, e: Event, thing: string)
    requires Inv(s) && Step(s, e).Some? && Assigns(s, e, thing)
    ensures Step(s, e).value.snapshot.thing == thing
  {
  }

  lemma KeptStep(s: State, e: Event, thing: string)
    requires Inv(s) && Step(s, e).Some? && thing != "" && s.snapshot.thing == thing && !Withdraws(s, e, thing)
    ensures Step(s, e).value.snapshot.thing == thing
  {
  }

  lemma PublishedStep(s: State, e: Event, thing: string)
    requires Inv(s) && Step(s, e).Some? && thing != "" && Step(s, e).value.snapshot.thing == thing
    ensures Assigns(s, e, thing) || (s.snapshot.thing == thing && !Withdraws(s, e, thing))
  {
  }

  ghost predicate AssignedAt(states: seq<State>, events: seq<Event>, thing: string, i: nat, n: nat)
    requires |states| == |events| + 1 && n <= |events|
  {
    && i < n && Assigns(states[i], events[i], thing)
    && forall k :: i < k < n ==> !Withdraws(states[k], events[k], thing)
  }

  lemma {:induction false} StaysPublished(states: seq<State>, events: seq<Event>, thing: string, i: nat, n: nat)
    requires Life(states, events) && n <= |events| && AssignedAt(states, events, thing, i, n)
    ensures states[n].snapshot.thing == thing
    decreases n
  {
    assert Step(states[n - 1], events[n - 1]) == Some(states[n]);
    LifeFits(states, events, n - 1);
    if n - 1 == i {
      AssignedStep(states[i], events[i], thing);
    } else {
      StaysPublished(states, events, thing, i, n - 1);
      KeptStep(states[n - 1], events[n - 1], thing);
    }
  }

  lemma {:induction false} PublishedCause(states: seq<State>, events: seq<Event>, thing: string, n: nat) returns (i: nat)
    requires Life(states, events) && n <= |events| && thing != "" && states[n].snapshot.thing == thing
    ensures AssignedAt(states, events, thing, i, n)
    decreases n
  {
    assert n > 0;
    assert Step(states[n - 1], events[n - 1]) == Some(states[n]);
    LifeFits(states, events, n - 1);
    PublishedStep(states[n - 1], events[n - 1], thing);
    if Assigns(states[n - 1], events[n - 1], thing) {
      i := n - 1;
    } else {
      i := PublishedCause(states, events, thing, n - 1);
    }
  }

  // At every moment of every life: a thing is published exactly when the cloud assigned it and
  // nothing has withdrawn it since.
  lemma PublishedThingExactly(states: seq<State>, events: seq<Event>, thing: string, n: nat)
    requires Life(states, events) && n <= |events| && thing != ""
    ensures states[n].snapshot.thing == thing <==> exists i: nat :: AssignedAt(states, events, thing, i, n)
  {
    if states[n].snapshot.thing == thing {
      var i := PublishedCause(states, events, thing, n);
    } else if i: nat :| AssignedAt(states, events, thing, i, n) {
      StaysPublished(states, events, thing, i, n);
    }
  }
}
