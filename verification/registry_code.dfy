/**
 The registry as code: variables and listeners in maps, subscriptions as objects with their
 own queues, each operation a critical section. What an operation adds to a queue is tied to
 `FramesOf`, the same function the machine's histories are projected with.
 */
module RegistryCode {
  import opened Common
  import opened Values
  import opened RegistrySpec
  import opened Names
  import RegistryLaws
  import RegistryMachine
  import RegistrySafety

  datatype Variable = Variable(name: string, value: Option<Value>, ts: int)

  function NameOf(v: Variable): string {
    v.name
  }

  // What other goroutines do to a subscription while its pump runs.
  datatype Action = Put(frame: Frame) | Close

  datatype PumpEnd = Waiting | Returned

  ghost function Puts(actions: seq<Action>): seq<Frame> {
    if actions == [] then []
    else (if actions[0].Put? then [actions[0].frame] else []) + Puts(actions[1..])
  }

  lemma Performed(queue: seq<Frame>, others: seq<Action>)
    requires others != []
    ensures queue + Puts(others)
            == (match others[0] case Put(f) => queue + [f] case Close => queue) + Puts(others[1..])
  {
  }

  lemma Taken(done: seq<Frame>, queue: seq<Frame>, coming: seq<Frame>)
    requires queue != []
    ensures done + (queue + coming) == done + ([queue[0]] + (queue[1..] + coming))
    ensures done + (queue + coming) == (done + [queue[0]]) + (queue[1..] + coming)
  {
    assert queue == [queue[0]] + queue[1..];
  }

  class Subscription {
    const name: string
    const client: string
    var queue: seq<Frame>
    var wake: bool
    var closed: bool
    var pending: bool
    ghost const since: nat                  // operations before it
    ghost const steady: bool                // what its creator believed about the cloud
    ghost var first: Frame                  // what Subscribe answered
    ghost var delivered: seq<Frame>

    constructor (name: string, client: string, ghost since: nat, ghost steady: bool)
      ensures this.name == name && this.client == client && this.since == since && this.steady == steady
      ensures queue == [] && delivered == [] && !wake && !closed && !pending
    {
      this.name, this.client, this.since, this.steady := name, client, since, steady;
      queue, wake, closed, pending := [], false, false, false;
      first, delivered := BareFrame(name, ThingUnavailable), [];
    }

    method Enqueue(f: Frame)
      modifies this`queue, this`wake
      ensures queue == old(queue) + [f] && wake
    {
      queue := queue + [f];
      wake := true;
    }

    method Perform(others: seq<Action>) returns (rest: seq<Action>)
      requires others != []
      modifies this`queue, this`wake, this`closed
      ensures rest == others[1..] && queue + Puts(rest) == old(queue) + Puts(others)
      ensures closed == (old(closed) || others[0].Close?)
    {
      Performed(queue, others);
      match others[0] {
        case Put(f) => Enqueue(f);
        case Close => Stop();
      }
      rest := others[1..];
    }

    // Before the pump's next step, any number of them.
    method Meanwhile(others: seq<Action>) returns (rest: seq<Action>)
      modifies this`queue, this`wake, this`closed
      ensures queue + Puts(rest) == old(queue) + Puts(others) && |rest| <= |others|
      ensures |rest| == |others| ==> queue == old(queue) && wake == old(wake)
      ensures closed ==> old(closed) || Close in others
      ensures forall a <- rest :: a in others
    {
      rest := others;
      var more: bool := *;
      while more && rest != []
        invariant queue + Puts(rest) == old(queue) + Puts(others) && |rest| <= |others|
        invariant |rest| == |others| ==> queue == old(queue) && wake == old(wake)
        invariant closed ==> old(closed) || Close in others
        invariant forall a <- rest :: a in others
        decreases |rest|
      {
        rest := Perform(rest);
        more := *;
      }
    }

    // The pump, until it would wait for ever or is stopped. Whatever arrives meanwhile, the
    // reader gets the queue in order; when the pump waits nothing is left of it, and a stop
    // costs at most the frame in its hand beyond what is still queued.
    method Pump(others: seq<Action>) returns (end: PumpEnd, ghost dropped: seq<Frame>, ghost rest: seq<Action>)
      modifies this`queue, this`wake, this`closed, this`delivered
      ensures delivered + (dropped + (queue + Puts(rest))) == old(delivered) + (old(queue) + Puts(others))
      ensures old(delivered) <= delivered
      ensures end.Waiting? ==> rest == [] && queue == [] && dropped == [] && !wake && !closed
      ensures end.Returned? ==> closed && |dropped| <= 1
      ensures closed ==> old(closed) || Close in others
    {
      dropped := [];
      var coming := others;
      while true
        invariant delivered + (queue + Puts(coming)) == old(delivered) + (old(queue) + Puts(others))
        invariant old(delivered) <= delivered
        invariant closed ==> old(closed) || Close in others
        invariant forall a <- coming :: a in others
        decreases |coming|, |queue|, wake
      {
        coming := Meanwhile(coming);
        if queue == [] {
          var stopFirst: bool := *;
          if wake && !(closed && stopFirst) {
            wake := false;
          } else if closed || coming == [] {
            assert [] + (queue + Puts(coming)) == queue + Puts(coming);
            return if closed then Returned else Waiting, [], coming;
          } else {
            coming := Perform(coming);
          }
        } else {
          var f := queue[0];
          Taken(delivered, queue, Puts(coming));
          queue := if |queue| == 1 then [] else queue[1..];
          coming := Meanwhile(coming);
          var stopped: bool := *;
          if closed && stopped {
            return Returned, [f], coming;
          }
          delivered := delivered + [f];
        }
      }
    }

    method Stop()
      modifies this`closed
      ensures closed
    {
      if !closed {
        closed := true;
      }
    }
  }

  // A zero timestamp is replaced by the time of the call.
  function Stamp(ts: int, now: int): int {
    if ts == 0 then now else ts
  }

  function StampAll(values: seq<Announcement>, now: int): (r: seq<Announcement>)
    ensures |r| == |values|
  {
    seq(|values|, i requires 0 <= i < |values| => values[i].(ts := Stamp(values[i].ts, now)))
  }

  // Walks over one list of subscriptions.

  method Broadcast(list: seq<Subscription>, evt: Frame, origin: string)
    requires RegistryMachine.Distinct(list)
    modifies list
    ensures forall s <- list ::
              && s.queue == old(s.queue) + (if OwnWrite(origin, s.client) then [] else [evt])
              && s.pending == old(s.pending) && s.closed == old(s.closed) && s.delivered == old(s.delivered)
              && s.first == old(s.first)
  {
    for i := 0 to |list|
      invariant forall k :: 0 <= k < |list| ==>
          list[k].queue == old(list[k].queue) + (if k < i && !OwnWrite(origin, list[k].client) then [evt] else [])
      invariant forall s <- list ::
          && s.pending == old(s.pending) && s.closed == old(s.closed)
          && s.delivered == old(s.delivered)
          && s.first == old(s.first)
    {
      if !(origin != "" && list[i].client == origin) {
        list[i].Enqueue(evt);
      }
    }
  }

  // Every subscriber gets the frame and its verdict with it.
  method Resolve(list: seq<Subscription>, evt: Frame)
    requires RegistryMachine.Distinct(list)
    modifies list
    ensures forall s <- list ::
              && s.queue == old(s.queue) + [evt] && !s.pending
              && s.closed == old(s.closed) && s.delivered == old(s.delivered)
              && s.first == old(s.first)
  {
    for i := 0 to |list|
      invariant forall k :: 0 <= k < |list| ==>
          && list[k].queue == old(list[k].queue) + (if k < i then [evt] else [])
          && list[k].pending == (i <= k && old(list[k].pending))
      invariant forall s <- list ::
          s.closed == old(s.closed) && s.delivered == old(s.delivered) && s.first == old(s.first)
    {
      list[i].pending := false;
      list[i].Enqueue(evt);
    }
  }

  // Only subscribers still waiting get the frame.
  method ResolvePending(list: seq<Subscription>, evt: Frame)
    requires RegistryMachine.Distinct(list)
    modifies list
    ensures forall s <- list ::
              && s.queue == old(s.queue) + (if old(s.pending) then [evt] else []) && !s.pending
              && s.closed == old(s.closed) && s.delivered == old(s.delivered)
              && s.first == old(s.first)
  {
    for i := 0 to |list|
      invariant forall k :: 0 <= k < |list| ==>
          && list[k].queue == old(list[k].queue) + (if k < i && old(list[k].pending) then [evt] else [])
          && list[k].pending == (i <= k && old(list[k].pending))
      invariant forall s <- list ::
          s.closed == old(s.closed) && s.delivered == old(s.delivered) && s.first == old(s.first)
    {
      if list[i].pending {
        list[i].pending := false;
        list[i].Enqueue(evt);
      }
    }
  }

  // What one more operation does to a subscription that is up to date.
  lemma Continued(h: seq<Op>, op: Op, since: nat, name: string, client: string, owes: bool,
                  got: seq<Frame>, pending: bool)
    requires since <= |h| && got == Projection(h[since..], name, client, owes)
    requires pending == PendingAfter(h[since..], owes)
    ensures (h + [op])[..since] == h[..since]
    ensures got + FramesOf(op, name, client, pending) == Projection((h + [op])[since..], name, client, owes)
    ensures PendingAfter((h + [op])[since..], owes) == (pending && op.Write?)
  {
    assert (h + [op])[since..] == h[since..] + [op];
    RegistrySafety.ProjectionSnoc(h[since..], op, name, client, owes);
  }

  ghost function StoredBefore(s: Subscription, h: seq<Op>): Option<(Value, int)>
    requires s.since <= |h|
  {
    StoredAt(h[..s.since], s.name)
  }

  ghost predicate UpToDate(s: Subscription, h: seq<Op>) reads s {
    && s.since <= |h|
    && s.first == FirstFrame(s.name, StoredBefore(s, h), s.steady)
    && var since, owes := h[s.since..], OwesVerdict(StoredBefore(s, h), s.steady);
       && s.pending == PendingAfter(since, owes)
       && s.delivered + s.queue == Projection(since, s.name, s.client, owes)
  }

  // A subscription was up to date, and has exactly the frames of the operation more than before.
  ghost predicate Handed(s: Subscription, h: seq<Op>, op: Op, before: (seq<Frame>, seq<Frame>, bool)) reads s {
    && s.since <= |h| && s.first == FirstFrame(s.name, StoredBefore(s, h), s.steady)
    && var since, owes := h[s.since..], OwesVerdict(StoredBefore(s, h), s.steady);
       && before.2 == PendingAfter(since, owes)
       && before.0 + before.1 == Projection(since, s.name, s.client, owes)
       && s.delivered == before.0 && s.queue == before.1 + FramesOf(op, s.name, s.client, before.2)
       && s.pending == (before.2 && op.Write?)
  }

  lemma HandedIsUpToDate(s: Subscription, h: seq<Op>, op: Op, before: (seq<Frame>, seq<Frame>, bool))
    requires Handed(s, h, op, before)
    ensures UpToDate(s, h + [op])
  {
    var owes := OwesVerdict(StoredBefore(s, h), s.steady);
    Continued(h, op, s.since, s.name, s.client, owes, before.0 + before.1, before.2);
    Regrouped(before.0, before.1, FramesOf(op, s.name, s.client, before.2));
    assert StoredBefore(s, h + [op]) == StoredBefore(s, h);
  }

  lemma Regrouped(a: seq<Frame>, b: seq<Frame>, c: seq<Frame>)
    ensures a + (b + c) == (a + b) + c
  {
  }

  // A new subscription and its first frame, from what is stored.
  method Open(name: string, client: string, steady: bool, v: Stored, ghost h: seq<Op>)
    returns (first: Frame, sub: Subscription)
    requires (if v.ts != 0 && v.value.Some? then Some((v.value.value, v.ts)) else None) == StoredAt(h, name)
    requires v.ts != 0 ==> v.value.Some?
    ensures fresh(sub) && sub.name == name && sub.client == client && UpToDate(sub, h)
    ensures sub.queue == [] && sub.delivered == [] && !sub.closed
    ensures first == sub.first == FirstFrame(name, StoredAt(h, name), steady)
    ensures sub.pending == OwesVerdict(StoredAt(h, name), steady)
  {
    sub := new Subscription(name, client, |h|, steady);
    if v.ts != 0 {
      first := Frame(name, v.value, v.ts, true, LastValue);
    } else if !steady {
      sub.pending := true;
      first := BareFrame(name, ThingUnavailable);
    } else {
      first := BareFrame(name, LastValueMissing);
    }
    sub.first := first;
    assert h[..|h|] == h && h[|h|..] == [];
  }

  method IndexOf(list: seq<Subscription>, sub: Subscription) returns (i: nat)
    ensures i <= |list| && (i < |list| ==> list[i] == sub) && (i == |list| ==> sub !in list)
  {
    i := 0;
    while i < |list| && list[i] != sub
      invariant i <= |list| && sub !in list[..i]
    {
      i := i + 1;
    }
    assert list[..|list|] == list;
  }

  lemma LeftWithout(list: seq<Subscription>, i: nat)
    requires i < |list| && RegistryMachine.Distinct(list)
    ensures RegistryMachine.Distinct(list[..i] + list[i + 1..])
    ensures forall s :: s in list[..i] + list[i + 1..] <==> s in list && s != list[i]
  {
    assert list == list[..i] + [list[i]] + list[i + 1..];
  }

  lemma AllUpToDate(subs: set<Subscription>, h: seq<Op>, op: Op,
                    before: map<Subscription, (seq<Frame>, seq<Frame>, bool)>)
    requires before.Keys == subs && forall s <- subs :: Handed(s, h, op, before[s])
    ensures forall s <- subs :: UpToDate(s, h + [op])
  {
    forall s | s in subs ensures UpToDate(s, h + [op]) {
      HandedIsUpToDate(s, h, op, before[s]);
    }
  }

  lemma StoredNext(vars: map<string, Stored>, h: seq<Op>, op: Op)
    requires forall n :: RegistryMachine.StoredIn(vars, n)
                         == if StoredBy(op, n).Some? then StoredBy(op, n) else StoredAt(h, n)
    ensures forall n :: RegistryMachine.StoredIn(vars, n) == StoredAt(h + [op], n)
  {
    assert (h + [op])[..|h|] == h;
  }

  class Registry {
    var vars: map<string, Stored>
    var listeners: map<string, seq<Subscription>>
    ghost var subs: set<Subscription>
    ghost var history: seq<Op>

    ghost predicate Listed() reads this {
      && (forall n <- listeners :: RegistryMachine.Distinct(listeners[n]))
      && (forall n <- listeners :: forall s <- listeners[n] :: s.name == n && s in subs)
      && (forall s <- subs :: s.name in listeners && s in listeners[s.name])
      && (forall n <- vars :: vars[n].ts != 0 ==> vars[n].value.Some?)
    }

    // The board's values are the last ones stored.
    ghost predicate Stores() reads this {
      forall n :: RegistryMachine.StoredIn(vars, n) == StoredAt(history, n)
    }

    // What a subscription has been given is what the history since it subscribed owes it.
    ghost predicate Current(s: Subscription) reads this, s {
      UpToDate(s, history)
    }

    // Only a subscription taken out of its list is stopped.
    ghost predicate AllOpen() reads this`subs, subs {
      forall s <- subs :: !s.closed
    }

    ghost predicate Valid() reads this, subs {
      Listed() && Stores() && AllOpen() && forall s <- subs :: Current(s)
    }

    constructor ()
      ensures Valid() && vars == map[] && listeners == map[] && subs == {} && history == []
    {
      vars, listeners, subs, history := map[], map[], {}, [];
    }

    function ListenersOf(name: string): seq<Subscription> reads this {
      if name in listeners then listeners[name] else []
    }

    // What each subscription had been given, and whether it waited.
    ghost function Given(): map<Subscription, (seq<Frame>, seq<Frame>, bool)> reads this, subs {
      map s | s in subs :: (s.delivered, s.queue, s.pending)
    }

    // The operation has handed out its frames: the history takes it up.
    ghost method Record(op: Op, before: map<Subscription, (seq<Frame>, seq<Frame>, bool)>)
      requires Listed() && AllOpen() && before.Keys == subs
      requires forall n :: RegistryMachine.StoredIn(vars, n)
                           == if StoredBy(op, n).Some? then StoredBy(op, n) else StoredAt(history, n)
      requires forall s <- subs :: Handed(s, history, op, before[s])
      modifies this`history
      ensures Valid() && history == old(history) + [op]
    {
      ghost var h := history + [op];
      AllUpToDate(subs, history, op, before);
      StoredNext(vars, history, op);
      history := h;
      assert forall s <- subs :: Current(s);
    }

    // Store a value and hand it to every subscriber of the name but the writer's own.
    method SetValue(name: string, value: Value, ts: int, origin: string, now: int)
      requires Valid() && now != 0
      modifies this`vars, this`history, subs
      ensures Valid() && vars == old(vars)[name := Stored(Some(value), Stamp(ts, now))]
      ensures history == old(history) + [Write(name, value, Stamp(ts, now), origin)]
      ensures forall s <- subs ::
                && s.queue == old(s.queue)
                              + FramesOf(Write(name, value, Stamp(ts, now), origin), s.name, s.client, s.pending)
                && s.pending == old(s.pending) && s.closed == old(s.closed) && s.delivered == old(s.delivered)
      ensures forall s <- subs ::
                if s.name != name || (origin != "" && s.client == origin) then s.queue == old(s.queue)
                else s.queue == old(s.queue) + [Frame(name, Some(value), if ts == 0 then now else ts, false, Update)]
    {
      ghost var before := Given();
      var stamp := Stamp(ts, now);
      Store(name, value, stamp, origin);
      Record(Write(name, value, stamp, origin), before);
    }

    method Store(name: string, value: Value, stamp: int, origin: string)
      requires Listed() && stamp != 0
      modifies this`vars, subs
      ensures Listed() && vars == old(vars)[name := Stored(Some(value), stamp)]
      ensures forall s <- subs ::
                && s.queue == old(s.queue) + FramesOf(Write(name, value, stamp, origin), s.name, s.client, s.pending)
                && s.pending == old(s.pending) && s.closed == old(s.closed) && s.delivered == old(s.delivered)
                && s.first == old(s.first)
    {
      vars := vars[name := Stored(Some(value), stamp)];
      Broadcast(ListenersOf(name), UpdateFrame(name, value, stamp), origin);
    }

    // Store what the cloud announced and give every subscriber the frame it is owed, if any.
    method ApplyLastValues(values: seq<Announcement>, now: int)
      requires Valid() && now != 0
      modifies this`vars, this`history, subs
      ensures Valid() && vars == RegistryMachine.StoreAll(old(vars), StampAll(values, now))
      ensures history == old(history) + [Announce(StampAll(values, now))]
      ensures forall s <- subs ::
                && s.queue == old(s.queue) + FramesOf(Announce(StampAll(values, now)), s.name, s.client, old(s.pending))
                && !s.pending && s.closed == old(s.closed) && s.delivered == old(s.delivered)
    {
      ghost var before := Given();
      var stamped := StampAll(values, now);
      HandOut(stamped);
      forall n ensures RegistryMachine.StoredIn(vars, n)
                       == if Announced(stamped, n).Some? then Announced(stamped, n) else StoredAt(history, n) {
        RegistrySafety.StoreAllFits(old(vars), stamped, n);
      }
      Record(Announce(stamped), before);
    }

    // Both passes under one lock.
    method HandOut(stamped: seq<Announcement>)
      requires Listed() && forall v <- stamped :: v.ts != 0
      modifies this`vars, subs
      ensures Listed() && vars == RegistryMachine.StoreAll(old(vars), stamped)
      ensures forall s <- subs ::
                && s.queue == old(s.queue) + FramesOf(Announce(stamped), s.name, s.client, old(s.pending))
                && !s.pending && s.closed == old(s.closed) && s.delivered == old(s.delivered)
                && s.first == old(s.first)
    {
      var announced := Hand(stamped);
      forall s | s in subs ensures HitFrames(stamped, s.name) == [] <==> s.name !in announced {
        HitsCarry(stamped, s.name);
      }
      SettlePending(announced);
    }

    // Every announced value is stored and handed to the subscribers of its name.
    method Hand(stamped: seq<Announcement>) returns (announced: set<string>)
      requires Listed() && forall v <- stamped :: v.ts != 0
      modifies this`vars, subs
      ensures Listed() && vars == RegistryMachine.StoreAll(old(vars), stamped)
      ensures forall n :: n in announced <==> Announced(stamped, n).Some?
      ensures forall s <- subs ::
                && s.queue == old(s.queue) + HitFrames(stamped, s.name)
                && s.pending == (old(s.pending) && s.name !in announced)
                && s.closed == old(s.closed) && s.delivered == old(s.delivered)
                && s.first == old(s.first)
    {
      announced := {};
      for i := 0 to |stamped|
        invariant vars == RegistryMachine.StoreAll(old(vars), stamped[..i])
        invariant forall n <- vars :: vars[n].ts != 0 ==> vars[n].value.Some?
        invariant forall n :: n in announced <==> Announced(stamped[..i], n).Some?
        invariant forall s <- subs ::
            && s.queue == old(s.queue) + HitFrames(stamped[..i], s.name)
            && s.pending == (old(s.pending) && s.name !in announced)
            && s.closed == old(s.closed) && s.delivered == old(s.delivered)
            && s.first == old(s.first)
      {
        var v := stamped[i];
        assert stamped[..i + 1][..i] == stamped[..i];
        announced := announced + {v.name};
        vars := vars[v.name := Stored(Some(v.value), v.ts)];
        Resolve(ListenersOf(v.name), LastValueFrame(v.name, v.value, v.ts));
      }
      assert stamped[..|stamped|] == stamped;
    }

    // Whoever is still waiting for a name that was not announced is told there is no value.
    method SettlePending(announced: set<string>)
      requires Listed() && forall s <- subs :: s.pending ==> s.name !in announced
      modifies subs
      ensures Listed()
      ensures forall s <- subs ::
                && s.queue == old(s.queue) + (if old(s.pending) then [BareFrame(s.name, LastValueMissing)] else [])
                && !s.pending && s.closed == old(s.closed) && s.delivered == old(s.delivered)
                && s.first == old(s.first)
    {
      var names := listeners.Keys;
      while names != {}
        invariant forall s <- subs ::
            && s.queue == old(s.queue)
                          + (if s.name !in names && old(s.pending) then [BareFrame(s.name, LastValueMissing)] else [])
            && s.pending == (old(s.pending) && s.name in names)
            && s.closed == old(s.closed) && s.delivered == old(s.delivered)
            && s.first == old(s.first)
        decreases names
      {
        var name :| name in names;
        if name !in announced {
          ResolvePending(ListenersOf(name), BareFrame(name, LastValueMissing));
        }
        names := names - {name};
      }
    }

    // Register a subscription and choose its first frame in the same critical section.
    method Subscribe(name: string, client: string, steady: bool) returns (first: Frame, sub: Subscription)
      requires Valid()
      modifies this`vars, this`listeners, this`subs
      ensures Valid() && fresh(sub) && subs == old(subs) + {sub}
      ensures listeners == old(listeners)[name := old(ListenersOf(name)) + [sub]]
      ensures vars == RegistryMachine.Placeholder(old(vars), name)
      ensures sub.name == name && sub.client == client && sub.queue == [] && sub.delivered == [] && !sub.closed
      ensures first == sub.first == FirstFrame(name, StoredAt(history, name), steady)
      ensures sub.pending == OwesVerdict(StoredAt(history, name), steady)
      ensures if name in old(vars) && old(vars)[name].ts != 0
              then first == Frame(name, old(vars)[name].value, old(vars)[name].ts, true, LastValue) && !sub.pending
              else first == Frame(name, None, 0, false, if steady then LastValueMissing else ThingUnavailable)
                   && sub.pending == !steady
    {
      var v := GetOrCreate(name);
      assert RegistryMachine.StoredIn(vars, name) == StoredAt(history, name);
      first, sub := Open(name, client, steady, v, history);
      Add(name, sub);
    }

    method GetOrCreate(name: string) returns (v: Stored)
      requires Listed() && Stores()
      modifies this`vars
      ensures Listed() && Stores() && vars == RegistryMachine.Placeholder(old(vars), name)
      ensures name in vars && v == vars[name]
    {
      if name !in vars {
        vars := vars[name := Stored(None, 0)];
        forall n ensures RegistryMachine.StoredIn(vars, n) == StoredAt(history, n) {
          assert RegistryMachine.StoredIn(old(vars), n) == StoredAt(history, n);
        }
      }
      v := vars[name];
    }

    // A subscription that is up to date joins the list of its name.
    method Add(name: string, sub: Subscription)
      requires Valid() && sub !in subs && sub.name == name && Current(sub) && !sub.closed
      modifies this`listeners, this`subs
      ensures Valid() && subs == old(subs) + {sub}
      ensures listeners == old(listeners)[name := old(ListenersOf(name)) + [sub]]
    {
      listeners := listeners[name := ListenersOf(name) + [sub]];
      subs := subs + {sub};
    }

    // Take the subscription out of its list, then stop its pump.
    method Unsubscribe(name: string, sub: Subscription)
      requires Valid() && sub.name == name
      modifies this`listeners, this`subs, sub`closed
      ensures Valid() && sub.closed && sub !in subs && subs == old(subs) - {sub}
      ensures forall n :: n != name ==> ListenersOf(n) == old(ListenersOf(n))
      ensures forall s :: s in ListenersOf(name) <==> s in old(ListenersOf(name)) && s != sub
    {
      Take(name, sub);
      sub.Stop();
    }

    method Take(name: string, sub: Subscription)
      requires Listed() && sub.name == name
      modifies this`listeners, this`subs
      ensures Listed() && sub !in subs && subs == old(subs) - {sub}
      ensures forall n :: n != name ==> ListenersOf(n) == old(ListenersOf(n))
      ensures forall s :: s in ListenersOf(name) <==> s in old(ListenersOf(name)) && s != sub
    {
      var list := ListenersOf(name);
      var i := IndexOf(list, sub);
      if i < |list| {
        LeftWithout(list, i);
        listeners := listeners[name := list[..i] + list[i + 1..]];
        subs := subs - {sub};
      }
    }

    // A reader drains its subscription; the registry's guarantee stays.
    method Drain(sub: Subscription)
      requires Valid() && sub in subs
      modifies sub`queue, sub`wake, sub`closed, sub`delivered
      ensures Valid() && sub.queue == [] && sub.delivered == old(sub.delivered) + old(sub.queue)
    {
      ghost var dropped, rest;
      var end;
      end, dropped, rest := sub.Pump([]);
      assert sub.delivered + ([] + ([] + [])) == sub.delivered;
      assert old(sub.queue) + Puts([]) == old(sub.queue);
      assert forall s <- subs :: s.delivered + s.queue == old(s.delivered + s.queue);
    }

    // Drained, it holds the last store that was not its own app's write.
    lemma DrainedAgrees(sub: Subscription)
      requires Valid() && sub in subs && sub.queue == []
      ensures sub.since <= |history|
      ensures var before, since := history[..sub.since], history[sub.since..];
              var held := Carried([sub.first] + sub.delivered);
              && held == StoredByOthers(before, since, sub.name, sub.client)
              && (!LastStoreIsOwn(since, sub.name, sub.client) ==> held == RegistryMachine.StoredIn(vars, sub.name))
    {
      var before, since := history[..sub.since], history[sub.since..];
      assert Current(sub);
      assert sub.delivered + [] == sub.delivered;
      Converges(before, since, sub.name, sub.client, sub.steady);
      assert before + since == history;
      if !LastStoreIsOwn(since, sub.name, sub.client) {
        OthersStoredLast(before, since, sub.name, sub.client);
      }
    }

    // An app that has not written the variable since it subscribed holds the board's value.
    lemma BystanderAgrees(sub: Subscription)
      requires Valid() && sub in subs && sub.queue == [] && sub.since <= |history|
      requires RegistryLaws.Bystander(history[sub.since..], sub.name, sub.client)
      ensures var held := Carried([sub.first] + sub.delivered);
              if sub.name in vars && vars[sub.name].ts != 0 && vars[sub.name].value.Some?
              then held == Some((vars[sub.name].value.value, vars[sub.name].ts)) else held.None?
    {
      RegistryLaws.BystanderOwnsNothing(history[sub.since..], sub.name, sub.client);
      DrainedAgrees(sub);
    }

    // Read or queued, a subscription has been given the writes of others and what was announced.
    lemma OthersWritesGiven(sub: Subscription)
      requires Valid() && sub in subs
      ensures sub.since <= |history|
      ensures RegistryLaws.ValuesOf(sub.delivered + sub.queue, Update)
              == RegistryLaws.WrittenByOthers(history[sub.since..], sub.name, sub.client)
      ensures RegistryLaws.ValuesOf(sub.delivered + sub.queue, LastValue)
              == RegistryLaws.AnnouncedOver(history[sub.since..], sub.name)
    {
      assert Current(sub);
      RegistryLaws.ProjectionByKind(history[sub.since..], sub.name, sub.client,
                                    OwesVerdict(StoredBefore(sub, history), sub.steady));
    }

    // Every variable under the prefix that has been set, by name.
    method WithPrefix(prefix: string) returns (out: seq<Variable>)
      ensures Ordered(out, NameOf) && DistinctKeys(out, NameOf)
      ensures forall v :: v in out <==>
                v.name in vars && prefix <= v.name && vars[v.name].ts != 0
                && v == Variable(v.name, vars[v.name].value, vars[v.name].ts)
    {
      var found: seq<Variable> := [];
      var names := vars.Keys;
      while names != {}
        invariant names <= vars.Keys
        invariant DistinctKeys(found, NameOf) && forall v <- found :: v.name !in names
        invariant forall v :: v in found <==>
            v.name in vars && v.name !in names && prefix <= v.name && vars[v.name].ts != 0
            && v == Variable(v.name, vars[v.name].value, vars[v.name].ts)
        decreases names
      {
        var name :| name in names;
        names := names - {name};
        if prefix <= name && vars[name].ts != 0 {
          assert forall v <- found :: v.name != name;
          found := found + [Variable(name, vars[name].value, vars[name].ts)];
        }
      }
      out := SortBy(found, NameOf);
      SortByFits(found, NameOf);
      SortedKeepsDistinct(found, out, NameOf);
      assert forall v :: v in out <==> v in multiset(out);
    }
  }
}
