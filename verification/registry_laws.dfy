/** What subscribers get, written out operation by operation, and what follows for every interleaving. */
module RegistryLaws {
  import opened Common
  import opened Values
  import opened RegistrySpec

  // A write reaches every subscriber of the variable but the app that made it.
  lemma WriteReaches(n: string, v: Value, ts: int, origin: string, name: string, client: string, pending: bool)
    ensures FramesOf(Write(n, v, ts, origin), name, client, pending)
            == if n != name || (origin != "" && client == origin) then []
               else [Frame(name, Some(v), ts, false, Update)]
  {
  }

  ghost predicate Mentions(values: seq<Announcement>, name: string) {
    exists k :: 0 <= k < |values| && values[k].name == name
  }

  // An announcement reaches every subscriber of a variable it mentions, and of one it does not
  // mention only those still waiting, with the verdict that there is no value.
  lemma AnnounceReaches(values: seq<Announcement>, name: string, client: string, pending: bool)
    ensures var frames := FramesOf(Announce(values), name, client, pending);
            if Mentions(values, name)
            then
              && frames != []
              && forall f <- frames :: f.name == name && f.value.Some? && f.lastValue && f.kind == LastValue
            else frames == if pending then [Frame(name, None, 0, false, LastValueMissing)] else []
  {
    HitsAreLastValues(values, name);
  }

  lemma {:induction false} HitsAreLastValues(values: seq<Announcement>, name: string)
    ensures HitFrames(values, name) != [] <==> Mentions(values, name)
    ensures forall f <- HitFrames(values, name) :: f.name == name && f.value.Some? && f.lastValue && f.kind == LastValue
  {
    if values != [] {
      var before := values[..|values| - 1];
      HitsAreLastValues(before, name);
      if Mentions(before, name) {
        var k :| 0 <= k < |before| && before[k].name == name;
        assert values[k].name == name;
      }
    }
  }

  // The values written to a variable by anyone but the client: by the cloud or another app.
  ghost function WrittenByOthers(h: seq<Op>, name: string, client: string): seq<(Value, int)> {
    if h == [] then []
    else
      var op := h[|h| - 1];
      WrittenByOthers(h[..|h| - 1], name, client)
      + if op.Write? && op.name == name && (op.origin == "" || op.origin != client) then [(op.value, op.ts)] else []
  }

  ghost function AnnouncedIn(values: seq<Announcement>, name: string): seq<(Value, int)> {
    if values == [] then []
    else
      var v := values[|values| - 1];
      AnnouncedIn(values[..|values| - 1], name) + if v.name == name then [(v.value, v.ts)] else []
  }

  ghost function AnnouncedOver(h: seq<Op>, name: string): seq<(Value, int)> {
    if h == [] then []
    else
      var op := h[|h| - 1];
      AnnouncedOver(h[..|h| - 1], name) + if op.Announce? then AnnouncedIn(op.values, name) else []
  }

  // The values that frames of one kind carry.
  ghost function ValuesOf(frames: seq<Frame>, kind: Kind): seq<(Value, int)> {
    if frames == [] then []
    else
      var f := frames[|frames| - 1];
      ValuesOf(frames[..|frames| - 1], kind) + if f.kind == kind && f.value.Some? then [(f.value.value, f.ts)] else []
  }

  lemma {:induction false} ValuesConcat(a: seq<Frame>, b: seq<Frame>, kind: Kind)
    ensures ValuesOf(a + b, kind) == ValuesOf(a, kind) + ValuesOf(b, kind)
  {
    if b == [] {
      assert a + b == a;
    } else {
      var n := |b| - 1;
      assert (a + b)[..|a + b| - 1] == a + b[..n];
      ValuesConcat(a, b[..n], kind);
    }
  }

  lemma ValuesOfOne(f: Frame, kind: Kind)
    ensures ValuesOf([f], kind) == if f.kind == kind && f.value.Some? then [(f.value.value, f.ts)] else []
  {
    assert [f][..0] == [];
  }

  lemma {:induction false} HitsAreAnnounced(values: seq<Announcement>, name: string)
    ensures ValuesOf(HitFrames(values, name), LastValue) == AnnouncedIn(values, name)
    ensures ValuesOf(HitFrames(values, name), Update) == []
  {
    if values != [] {
      var before, v := values[..|values| - 1], values[|values| - 1];
      HitsAreAnnounced(before, name);
      if v.name == name {
        var f := Frame(name, Some(v.value), v.ts, true, LastValue);
        ValuesConcat(HitFrames(before, name), [f], LastValue);
        ValuesConcat(HitFrames(before, name), [f], Update);
        ValuesOfOne(f, LastValue);
        ValuesOfOne(f, Update);
      } else {
        assert HitFrames(before, name) + [] == HitFrames(before, name);
      }
    }
  }

  lemma OneOperation(op: Op, name: string, client: string, pending: bool)
    ensures ValuesOf(FramesOf(op, name, client, pending), Update) == WrittenByOthers([op], name, client)
    ensures ValuesOf(FramesOf(op, name, client, pending), LastValue) == AnnouncedOver([op], name)
  {
    assert [op][..0] == [];
    match op
    case Write(n, v, ts, origin) =>
      WriteReaches(n, v, ts, origin, name, client, pending);
      ValuesOfOne(Frame(name, Some(v), ts, false, Update), Update);
      ValuesOfOne(Frame(name, Some(v), ts, false, Update), LastValue);
    case Announce(values) =>
      HitsAreAnnounced(values, name);
      ValuesOfOne(BareFrame(name, LastValueMissing), Update);
      ValuesOfOne(BareFrame(name, LastValueMissing), LastValue);
  }

  // What one more operation owes, by kind.
  lemma OneMore(h: seq<Op>, op: Op, name: string, client: string, pending: bool)
    ensures WrittenByOthers(h + [op], name, client)
            == WrittenByOthers(h, name, client) + WrittenByOthers([op], name, client)
    ensures AnnouncedOver(h + [op], name) == AnnouncedOver(h, name) + AnnouncedOver([op], name)
    ensures Projection(h + [op], name, client, pending)
            == Projection(h, name, client, pending) + FramesOf(op, name, client, PendingAfter(h, pending))
  {
    assert (h + [op])[..|h|] == h && [op][..0] == [];
  }

  lemma ConcatByKind(got: seq<Frame>, frames: seq<Frame>, op: Op, h: seq<Op>, name: string, client: string)
    requires ValuesOf(got, Update) == WrittenByOthers(h, name, client)
    requires ValuesOf(got, LastValue) == AnnouncedOver(h, name)
    requires ValuesOf(frames, Update) == WrittenByOthers([op], name, client)
    requires ValuesOf(frames, LastValue) == AnnouncedOver([op], name)
    ensures ValuesOf(got + frames, Update) == WrittenByOthers(h, name, client) + WrittenByOthers([op], name, client)
    ensures ValuesOf(got + frames, LastValue) == AnnouncedOver(h, name) + AnnouncedOver([op], name)
  {
    ValuesConcat(got, frames, Update);
    ValuesConcat(got, frames, LastValue);
  }

  // The updates owed are the writes of others, and the last values owed what the cloud announced.
  lemma {:induction false} ProjectionByKind(h: seq<Op>, name: string, client: string, pending: bool)
    ensures ValuesOf(Projection(h, name, client, pending), Update) == WrittenByOthers(h, name, client)
    ensures ValuesOf(Projection(h, name, client, pending), LastValue) == AnnouncedOver(h, name)
  {
    if h != [] {
      var before, op := h[..|h| - 1], h[|h| - 1];
      var p := PendingAfter(before, pending);
      ProjectionByKind(before, name, client, pending);
      OneOperation(op, name, client, p);
      ConcatByKind(Projection(before, name, client, pending), FramesOf(op, name, client, p), op, before, name, client);
      OneMore(before, op, name, client, pending);
      assert h == before + [op];
    }
  }

  // A client that made none of these writes.
  ghost predicate Bystander(h: seq<Op>, name: string, client: string) {
    forall k :: 0 <= k < |h| && h[k].Write? && h[k].name == name ==> h[k].origin == "" || h[k].origin != client
  }

  lemma {:induction false} BystanderOwnsNothing(h: seq<Op>, name: string, client: string)
    requires Bystander(h, name, client)
    ensures !LastStoreIsOwn(h, name, client)
  {
    if h != [] {
      BystanderOwnsNothing(h[..|h| - 1], name, client);
    }
  }
}

/** The same for every interleaving of the registry's goroutines. */
module RegistryAgreement {
  import opened Common
  import opened Values
  import opened RegistrySpec
  import opened RegistryMachine
  import opened RegistrySafety
  import opened RegistryLaws

  // Written out by kind: the updates given are the writes to the variable by the cloud and by
  // other apps, in order, and the last values given are those the cloud announced for it.
  lemma OthersWritesArrive(s: State, i: nat)
    requires Reachable(s) && i < |s.subs|
    ensures InSpan(s.subs[i], s.history)
    ensures var sub := s.subs[i];
            var given := sub.delivered + Hand(sub.pump) + sub.queue + For(Todo(s.lock), i);
            var life := s.history[sub.since..End(sub, s.history)];
            && ValuesOf(given, Update) == WrittenByOthers(life, sub.name, sub.client)
            && ValuesOf(given, LastValue) == AnnouncedOver(life, sub.name)
  {
    DeliveryIsTheProjection(s, i);
    var sub := s.subs[i];
    ProjectionByKind(s.history[sub.since..End(sub, s.history)], sub.name, sub.client, Owes(sub, s.history));
  }

  // An app that has not written the variable since it subscribed ends up with the board's value.
  lemma DrainedBystanderAgrees(s: State, i: nat)
    requires Reachable(s) && i < |s.subs| && s.lock.Free?
    requires s.subs[i].until.None? && s.subs[i].queue == [] && Hand(s.subs[i].pump) == []
    requires s.subs[i].since <= |s.history|
    requires Bystander(s.history[s.subs[i].since..], s.subs[i].name, s.subs[i].client)
    ensures var sub := s.subs[i];
            var held := Carried([sub.first] + sub.delivered);
            if sub.name in s.vars && s.vars[sub.name].ts != 0 && s.vars[sub.name].value.Some?
            then held == Some((s.vars[sub.name].value.value, s.vars[sub.name].ts)) else held.None?
  {
    var sub := s.subs[i];
    BystanderOwnsNothing(s.history[sub.since..], sub.name, sub.client);
    DrainedSubscriberAgrees(s, i);
  }
}
