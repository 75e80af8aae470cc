/**
 The outbound worker under a clock: what it conserves, when it delivers, and exactly when the
 delivery order is the timestamp order.
 */
module OutboundMachine {
  import opened Common
  import opened Values
  import opened OutboundHeap

  const WINDOW: int := 33_000_000          // outboundReorderWindow, ns
  const CAPACITY: nat := 256               // outboundQueueSize

  datatype Delivery = Delivery(item: Pending, at: int)

  datatype Pc = Check | Select             // top of the loop; blocked in its select

  // `accepted` is everything ever queued. `late` says some value reached the worker only when
  // its own window was over; `overtaken` that one reached it after a later value had gone out.
  datatype State = State(
    now: int, pc: Pc, channel: seq<Pending>, heap: multiset<Pending>,
    accepted: multiset<Pending>, delivered: seq<Delivery>, late: bool, overtaken: bool)

  datatype Event =
    | Tick(to: int)
    | Send(item: Pending)
    | Deliver(item: Pending)
    | Park
    | Receive
    | Timer

  function Init(now: int): State {
    State(now, Check, [], multiset{}, multiset{}, [], false, false)
  }

  predicate Due(p: Pending, now: int) {
    p.ts + WINDOW <= now
  }

  ghost predicate Least(p: Pending, heap: multiset<Pending>) {
    p in heap && forall q <- heap :: AtMost(p, q)
  }

  ghost predicate Overtakes(x: Pending, delivered: seq<Delivery>) {
    exists i :: 0 <= i < |delivered| && Less(x, delivered[i].item)
  }

  ghost function Apply(s: State, e: Event): Option<State> {
    match e
    case Tick(to) => if s.now <= to then Some(s.(now := to)) else None
    case Send(p) =>
      if |s.channel| < CAPACITY && p.ts <= s.now then
        Some(s.(channel := s.channel + [p], accepted := s.accepted + multiset{p}))
      else None
    case Deliver(p) =>
      if s.pc.Check? && Least(p, s.heap) && Due(p, s.now) then
        Some(s.(heap := s.heap - multiset{p}, delivered := s.delivered + [Delivery(p, s.now)]))
      else None
    case Park =>
      if s.pc.Check? && (forall p <- s.heap :: !Due(p, s.now)) then Some(s.(pc := Select)) else None
    case Receive =>
      if s.pc.Select? && s.channel != [] then
        var x := s.channel[0];
        Some(s.(pc := Check, channel := s.channel[1..], heap := s.heap + multiset{x},
             late := s.late || Due(x, s.now),
             overtaken := s.overtaken || Overtakes(x, s.delivered)))
      else None
    case Timer => if s.pc.Select? && s.heap != multiset{} then Some(s.(pc := Check)) else None
  }

  ghost function Exec(now: int, events: seq<Event>): Option<State> {
    if events == [] then Some(Init(now))
    else
      match Exec(now, events[..|events| - 1])
      case None => None
      case Some(s) => Apply(s, events[|events| - 1])
  }

  ghost predicate Reachable(s: State) {
    exists now, events :: Exec(now, events) == Some(s)
  }

  lemma ReachableStep(s: State, e: Event)
    requires Reachable(s) && Apply(s, e).Some?
    ensures Reachable(Apply(s, e).value)
  {
    var now, events :| Exec(now, events) == Some(s);
    assert (events + [e])[..|events|] == events;
    assert Exec(now, events + [e]) == Apply(s, e);
  }

  lemma InitReachable(now: int)
    ensures Reachable(Init(now))
  {
    assert Exec(now, []) == Some(Init(now));
  }

  // ---------- Invariants ----------

  ghost function Items(ds: seq<Delivery>): multiset<Pending> {
    if ds == [] then multiset{} else Items(ds[..|ds| - 1]) + multiset{ds[|ds| - 1].item}
  }

  ghost predicate Conserved(s: State) {
    s.accepted == multiset(s.channel) + s.heap + Items(s.delivered)
  }

  // Nothing leaves before its window is over, and delivery times never go back.
  ghost predicate Timed(s: State) {
    && (forall i :: 0 <= i < |s.delivered| ==> Due(s.delivered[i].item, s.delivered[i].at) && s.delivered[i].at <= s.now)
    && (forall i, j :: 0 <= i < j < |s.delivered| ==> s.delivered[i].at <= s.delivered[j].at)
  }

  ghost predicate Sorted(ds: seq<Delivery>) {
    forall i, j :: 0 <= i < j < |ds| ==> AtMost(ds[i].item, ds[j].item)
  }

  // What has gone out is sorted, and nothing waiting in the heap belongs before it.
  ghost predicate InOrder(ds: seq<Delivery>, heap: multiset<Pending>) {
    && Sorted(ds)
    && (forall i, p :: 0 <= i < |ds| && p in heap ==> AtMost(ds[i].item, p))
  }

  ghost predicate OrderFits(s: State) {
    && (InOrder(s.delivered, s.heap) <==> !s.overtaken)
    && (s.overtaken ==> s.late)
  }

  ghost predicate Inv(s: State) {
    Conserved(s) && Timed(s) && OrderFits(s)
  }

  lemma StepConserves(s: State, e: Event)
    requires Conserved(s) && Apply(s, e).Some?
    ensures Conserved(Apply(s, e).value)
  {
    match e
    case Send(p) => SendTotal(s.channel, s.heap, Items(s.delivered), p);
    case Receive => ReceiveTotal(s.channel, s.heap, Items(s.delivered));
    case Deliver(p) =>
      ItemsSnoc(s.delivered, Delivery(p, s.now));
      DeliverTotal(multiset(s.channel), s.heap, Items(s.delivered), p);
    case _ =>
  }

  lemma ItemsSnoc(ds: seq<Delivery>, d: Delivery)
    ensures Items(ds + [d]) == Items(ds) + multiset{d.item}
  {
    assert (ds + [d])[..|ds|] == ds;
  }

  lemma SendTotal(channel: seq<Pending>, heap: multiset<Pending>, out: multiset<Pending>, p: Pending)
    ensures multiset(channel + [p]) + heap + out == (multiset(channel) + heap + out) + multiset{p}
  {
  }

  lemma ReceiveTotal(channel: seq<Pending>, heap: multiset<Pending>, out: multiset<Pending>)
    requires channel != []
    ensures multiset(channel[1..]) + (heap + multiset{channel[0]}) + out == multiset(channel) + heap + out
  {
    assert channel == [channel[0]] + channel[1..];
  }

  lemma DeliverTotal(channel: multiset<Pending>, heap: multiset<Pending>, out: multiset<Pending>, p: Pending)
    requires p in heap
    ensures channel + (heap - multiset{p}) + (out + multiset{p}) == channel + heap + out
  {
  }

  lemma StepTimes(s: State, e: Event)
    requires Timed(s) && Apply(s, e).Some?
    ensures Timed(Apply(s, e).value)
  {
  }

  // Delivering the least item neither breaks nor repairs the order.
  lemma DeliverOrders(ds: seq<Delivery>, heap: multiset<Pending>, p: Pending, at: int)
    requires Least(p, heap)
    ensures InOrder(ds + [Delivery(p, at)], heap - multiset{p}) <==> InOrder(ds, heap)
  {
    var ds', heap' := ds + [Delivery(p, at)], heap - multiset{p};
    if InOrder(ds', heap') {
      forall i, j | 0 <= i < j < |ds| ensures AtMost(ds[i].item, ds[j].item) {
        assert ds'[i] == ds[i] && ds'[j] == ds[j];
      }
      forall i, q | 0 <= i < |ds| && q in heap ensures AtMost(ds[i].item, q) {
        assert ds'[i] == ds[i] && ds'[|ds|].item == p;
        assert AtMost(ds'[i].item, ds'[|ds|].item) && AtMost(p, q);
      }
    }
  }

  lemma ReceiveOrders(ds: seq<Delivery>, heap: multiset<Pending>, x: Pending)
    ensures InOrder(ds, heap + multiset{x}) <==> InOrder(ds, heap) && !Overtakes(x, ds)
  {
    if InOrder(ds, heap + multiset{x}) {
      assert x in heap + multiset{x};
      forall i, p | 0 <= i < |ds| && p in heap ensures AtMost(ds[i].item, p) {
        assert p in heap + multiset{x};
      }
    }
  }

  // A value behind one whose window had closed is itself past its window.
  lemma OvertakenIsLate(s: State, x: Pending)
    requires Timed(s) && Overtakes(x, s.delivered)
    ensures Due(x, s.now)
  {
    var i :| 0 <= i < |s.delivered| && Less(x, s.delivered[i].item);
  }

  lemma StepOrders(s: State, e: Event)
    requires Timed(s) && OrderFits(s) && Apply(s, e).Some?
    ensures OrderFits(Apply(s, e).value)
  {
    match e
    case Deliver(p) => DeliverOrders(s.delivered, s.heap, p, s.now);
    case Receive =>
      ReceiveOrders(s.delivered, s.heap, s.channel[0]);
      if Overtakes(s.channel[0], s.delivered) {
        OvertakenIsLate(s, s.channel[0]);
      }
    case _ =>
  }

  lemma {:induction false} RunFits(now: int, events: seq<Event>)
    requires Exec(now, events).Some?
    ensures Inv(Exec(now, events).value)
  {
    if events != [] {
      RunFits(now, events[..|events| - 1]);
      var before, e := Exec(now, events[..|events| - 1]).value, events[|events| - 1];
      StepConserves(before, e);
      StepTimes(before, e);
      StepOrders(before, e);
    }
  }

  lemma ReachableFits(s: State)
    requires Reachable(s)
    ensures Inv(s)
  {
    var now, events :| Exec(now, events) == Some(s);
    RunFits(now, events);
  }

  // ---------- What every run guarantees ----------

  // Every accepted value is in the channel, in the heap, or delivered, exactly once.
  lemma NothingLostOrRepeated(s: State)
    requires Reachable(s)
    ensures s.accepted == multiset(s.channel) + s.heap + Items(s.delivered)
  {
    ReachableFits(s);
  }

  lemma NeverEarly(s: State, i: nat)
    requires Reachable(s) && i < |s.delivered|
    ensures s.delivered[i].item.ts + 33_000_000 <= s.delivered[i].at <= s.now
  {
    ReachableFits(s);
  }

  // By timestamp, and by submission among equal timestamps.
  ghost predicate NotAfter(a: Pending, b: Pending) {
    a.ts < b.ts || (a.ts == b.ts && a.seqNo <= b.seqNo)
  }

  // The order is the (timestamp, sequence) order exactly when no value reached the worker
  // behind one already gone; that cannot happen while every value arrives inside its window.
  lemma OrderExactly(s: State)
    requires Reachable(s)
    ensures InOrder(s.delivered, s.heap) <==> !s.overtaken
    ensures !s.late ==> Sorted(s.delivered)
    ensures s.heap == multiset{} ==> (Sorted(s.delivered) <==> !s.overtaken)
    ensures Sorted(s.delivered) <==>
              forall i, j :: 0 <= i < j < |s.delivered| ==> NotAfter(s.delivered[i].item, s.delivered[j].item)
  {
    ReachableFits(s);
  }

  // Best effort: a value that reaches the worker after its window can go out behind a later one.
  lemma LateValueGoesOutOfOrder(a: Pending, b: Pending) returns (s: State)
    requires Less(a, b)
    ensures Reachable(s) && s.late && !Sorted(s.delivered)
    ensures |s.delivered| == 2 && s.delivered[0].item == b && s.delivered[1].item == a
  {
    var t := b.ts + WINDOW;
    var one := multiset{b};
    InitReachable(t);
    s := State(t, Check, [b], multiset{}, one, [], false, false);
    assert [] + [b] == [b] && multiset{} + multiset{b} == one;
    ReachableStep(Init(t), Send(b));
    s := AfterOne(s, b);
    assert s.channel + [a] == [a];
    ReachableStep(s, Send(a));
    s := s.(channel := [a], accepted := s.accepted + multiset{a});
    s := AfterOne(s, a);
    assert !AtMost(s.delivered[0].item, s.delivered[1].item);
  }

  // With an empty heap and one overdue value queued, the worker parks, receives and delivers it.
  lemma AfterOne(s: State, x: Pending) returns (s': State)
    requires Reachable(s) && s.pc.Check? && s.heap == multiset{} && s.channel == [x] && Due(x, s.now)
    ensures Reachable(s') && s'.pc.Check? && s'.heap == multiset{} && s'.channel == []
    ensures s'.now == s.now && s'.late && s'.delivered == s.delivered + [Delivery(x, s.now)]
    ensures s'.accepted == s.accepted
  {
    ReachableStep(s, Park);
    s' := s.(pc := Select);
    ReachableStep(s', Receive);
    s' := Apply(s', Receive).value;
    assert s'.heap == multiset{x};
    ReachableStep(s', Deliver(x));
    s' := Apply(s', Deliver(x)).value;
  }
}

/**
 The worker's loop over its in-place heap, every execution of which is a run of the machine.
 Each delivery stores the value in the registry and publishes its property.
 */
module OutboundWorker {
  import opened Common
  import opened Values
  import opened OutboundHeap
  import opened OutboundMachine
  import opened RegistrySpec
  import Names
  import Senml
  import PropertyPacket
  import RegistryCode

  // The registry operation of a delivery.
  function StoreOf(d: Delivery): Op {
    Write(d.item.name, d.item.value, RegistryCode.Stamp(d.item.ts, d.at), d.item.client)
  }

  ghost function StoresOf(ds: seq<Delivery>): seq<Op> {
    seq(|ds|, i requires 0 <= i < |ds| => StoreOf(ds[i]))
  }

  // The operations of a history that are marked.
  ghost function Marked(history: seq<Op>, marks: seq<bool>): seq<Op>
    requires |history| == |marks|
  {
    if history == [] then []
    else
      var n := |history| - 1;
      Marked(history[..n], marks[..n]) + if marks[n] then [history[n]] else []
  }

  lemma MarkedSnoc(history: seq<Op>, marks: seq<bool>, op: Op, mark: bool)
    requires |history| == |marks|
    ensures Marked(history + [op], marks + [mark]) == Marked(history, marks) + if mark then [op] else []
  {
    assert (history + [op])[..|history|] == history && (marks + [mark])[..|history|] == marks;
  }

  ghost function Unmarked(n: nat): seq<bool> {
    seq(n, _ => false)
  }

  lemma {:induction false} NoneMarked(history: seq<Op>)
    ensures Marked(history, Unmarked(|history|)) == []
  {
    if history != [] {
      var n := |history| - 1;
      NoneMarked(history[..n]);
      assert Unmarked(|history|)[..n] == Unmarked(n);
    }
  }

  lemma SortedHolds(vs: seq<Senml.Variable>, v: Senml.Variable)
    requires v in vs
    ensures v in Names.SortBy(vs, Senml.VariableName)
  {
    Names.SortByFits(vs, Senml.VariableName);
    assert v in multiset(Names.SortBy(vs, Senml.VariableName));
  }

  // Where deliveries go: the registry and the broker.
  class Outlet {
    const reg: RegistryCode.Registry
    const fl: real -> real
    var published: seq<Senml.Payload>
    ghost var stored: seq<Delivery>
    ghost var own: seq<bool>               // which operations of the registry are these

    // Whatever others store in between, the worker's own stores are its deliveries, in order.
    ghost predicate Valid() reads this, reg, reg.subs {
      && reg.Valid() && Senml.KeepsIntegers(fl)
      && |own| == |reg.history| && Marked(reg.history, own) == StoresOf(stored)
    }

    constructor (reg: RegistryCode.Registry, fl: real -> real)
      requires reg.Valid() && Senml.KeepsIntegers(fl)
      ensures Valid() && this.reg == reg && this.fl == fl && stored == [] && published == []
    {
      this.reg, this.fl := reg, fl;
      published, stored, own := [], [], Unmarked(|reg.history|);
      NoneMarked(reg.history);
    }

    // A value or a batch from the cloud.
    method OthersStore(now: int)
      requires Valid() && now != 0
      modifies this`own, reg`vars, reg`history, reg.subs
      ensures Valid() && old(reg.history) <= reg.history && own == old(own) + [false]
    {
      ghost var before := reg.history;
      var batch: bool := *;
      if batch {
        var values: seq<Announcement> :| true;
        reg.ApplyLastValues(values, now);
      } else {
        var name: string, value: Value, ts: int :| true;
        reg.SetValue(name, value, ts, "", now);
      }
      MarkedSnoc(before, own, reg.history[|before|], false);
      own := own + [false];
    }

    method StoreValue(p: Pending, now: int)
      requires Valid() && now != 0
      modifies this`stored, this`own, reg`vars, reg`history, reg.subs
      ensures Valid() && stored == old(stored) + [Delivery(p, now)] && own == old(own) + [true]
      ensures reg.history == old(reg.history) + [StoreOf(Delivery(p, now))]
      ensures PropertyPacket.IsSet(reg, p.name)
    {
      MarkedSnoc(reg.history, own, StoreOf(Delivery(p, now)), true);
      assert StoresOf(stored + [Delivery(p, now)]) == StoresOf(stored) + [StoreOf(Delivery(p, now))];
      reg.SetValue(p.name, p.value, p.ts, p.client, now);
      own, stored := own + [true], stored + [Delivery(p, now)];
    }

    // The whole property goes out exactly when the cloud is ready and SenML can carry it, and
    // whoever decodes it finds the value under its name.
    method PublishVariable(p: Pending) returns (ready: bool)
      requires Valid() && PropertyPacket.IsSet(reg, p.name)
      modifies this`published
      ensures Valid() && old(published) <= published
      ensures |published| == |old(published)| + if ready && PropertyPacket.Carriable(reg, p.name, p.value) then 1 else 0
      ensures |published| > |old(published)| && p.name != "" ==>
                var read := Senml.Decode(fl, published[|old(published)|]);
                read.Some? && Senml.Variable(p.name, p.value, Senml.ABSENT) in read.value
    {
      ready := *;
      if ready {
        var packet, payload := PropertyPacket.Publish(fl, reg, p.name, p.value);
        if payload.Some? {
          published := published + [payload.value];
          PropertyPacket.OwnValueTravels(reg, p.name, p.value, packet);
          SortedHolds(packet, Senml.Variable(p.name, p.value, Senml.ABSENT));
        }
      }
    }

    method Deliver(p: Pending, now: int)
      requires Valid() && now != 0
      modifies this, reg`vars, reg`history, reg.subs
      ensures Valid() && stored == old(stored) + [Delivery(p, now)] && own == old(own) + [true]
      ensures reg.history == old(reg.history) + [StoreOf(Delivery(p, now))] && old(published) <= published
    {
      StoreValue(p, now);
      var ready := PublishVariable(p);
    }
  }

  datatype Sent = Queued | NoThing | GaveUp

  class Worker {
    const heap: Heap
    const outlet: Outlet
    var now: int
    var channel: seq<Pending>
    ghost var delivered: seq<Delivery>
    ghost var pc: Pc
    ghost var accepted: multiset<Pending>
    ghost var late: bool
    ghost var overtaken: bool

    ghost function Abs(): State reads this, heap {
      State(now, pc, channel, multiset(heap.items), accepted, delivered, late, overtaken)
    }

    ghost predicate Working() reads this, heap {
      heap.Valid() && Reachable(Abs()) && now > 0
    }

    ghost predicate Valid() reads this, heap, outlet, outlet.reg, outlet.reg.subs {
      Working() && outlet.Valid() && outlet.stored == delivered
    }

    constructor (t: int, outlet: Outlet)
      requires t > 0 && outlet.Valid() && outlet.stored == []
      ensures Valid() && fresh(heap) && Abs() == Init(t) && this.outlet == outlet
    {
      heap := new Heap();
      this.outlet := outlet;
      now, channel, delivered := t, [], [];
      pc, accepted, late, overtaken := Check, multiset{}, false, false;
      new;
      InitReachable(t);
    }

    // The clock, and senders on other goroutines, between two steps of the worker.
    method Environment()
      requires Working()
      modifies this`now, this`channel, this`accepted
      ensures Working() && now >= old(now) && old(channel) <= channel
    {
      var d: nat, sends: bool :| d >= 0;
      ghost var s := Abs();
      now := now + d;
      ReachableStep(s, Tick(now));
      assert Apply(s, Tick(now)) == Some(Abs());
      if sends {
        var p: Pending, steady: bool, cancelled: bool :| true;
        if p.ts <= now {
          var sent := EnqueueVariable(p, steady, cancelled);
        }
      }
    }

    // A value stamped earlier: refused without a thing, queued if one of the 256 slots is free,
    // and otherwise kept waiting until its request is cancelled or it tries again. With a slot
    // free and the request cancelled either may happen.
    method EnqueueVariable(p: Pending, steady: bool, cancelled: bool) returns (sent: Sent)
      requires Working() && p.ts <= now
      modifies this`channel, this`accepted
      ensures Working()
      ensures sent.NoThing? <==> !steady
      ensures steady && |old(channel)| >= 256 ==> sent.GaveUp?
      ensures steady && |old(channel)| < 256 && !cancelled ==> sent.Queued?
      ensures sent.Queued? ==> channel == old(channel) + [p] && accepted == old(accepted) + multiset{p}
      ensures !sent.Queued? ==> channel == old(channel) && accepted == old(accepted)
    {
      if !steady {
        return NoThing;
      }
      var gaveUp: bool :| gaveUp ==> cancelled;
      if |channel| >= CAPACITY || gaveUp {
        return GaveUp;
      }
      sent := Queued;
      ghost var s := Abs();
      channel := channel + [p];
      accepted := accepted + multiset{p};
      ReachableStep(s, Send(p));
      assert Apply(s, Send(p)) == Some(Abs());
    }

    // The head of the heap is due: take it out, store it and publish its property.
    method DeliverHead()
      requires Valid() && pc.Check? && heap.items != [] && Due(heap.items[0], now)
      modifies this`delivered, heap, outlet, outlet.reg`vars, outlet.reg`history, outlet.reg.subs
      ensures Valid() && delivered == old(delivered) + [Delivery(old(heap.items[0]), now)]
      ensures var p := old(heap.items[0]);
              outlet.reg.history
              == old(outlet.reg.history) + [Write(p.name, p.value, if p.ts == 0 then now else p.ts, p.client)]
    {
      var p := PopHead();
      outlet.Deliver(p, now);
    }

    method PopHead() returns (p: Pending)
      requires Working() && pc.Check? && heap.items != [] && Due(heap.items[0], now)
      modifies this`delivered, heap
      ensures Working() && p == old(heap.items[0]) && delivered == old(delivered) + [Delivery(p, now)]
    {
      ghost var s := Abs();
      forall q | q in multiset(heap.items) ensures AtMost(heap.items[0], q) {
        var k :| 0 <= k < |heap.items| && heap.items[k] == q;
        RootIsLeast(heap.items, k);
      }
      p := heap.Pop();
      delivered := delivered + [Delivery(p, now)];
      ReachableStep(s, Deliver(p));
      assert multiset(heap.items) == s.heap - multiset{p};
      assert Apply(s, Deliver(p)) == Some(Abs());
    }

    method ReceiveOne()
      requires Working() && pc.Select? && channel != []
      modifies this`channel, this`pc, this`late, this`overtaken, heap
      ensures Working() && pc.Check? && channel == old(channel)[1..]
    {
      ghost var s := Abs();
      var x := channel[0];
      channel := channel[1..];
      heap.Push(x);
      pc, late, overtaken := Check, late || Due(x, now), overtaken || Overtakes(x, delivered);
      ReachableStep(s, Receive);
      assert Apply(s, Receive) == Some(Abs());
    }

    // Nothing is due: wait for a value or for the timer.
    method Wait() returns (idle: bool)
      requires Working() && pc.Check? && (heap.items == [] || !Due(heap.items[0], now))
      modifies this`now, this`channel, this`accepted, this`pc, this`late, this`overtaken, heap
      ensures Working() && (pc.Check? || idle)
    {
      Park();
      Environment();
      idle := false;
      var fired: bool := *;
      if channel != [] && !(fired && heap.items != []) {
        ReceiveOne();
      } else if heap.items != [] {
        TimerFires();
      } else {
        idle := true;                      // nothing to wait for but the end of the context
      }
    }

    method Round() returns (idle: bool)
      requires Valid() && pc.Check?
      modifies this, heap, outlet, outlet.reg`vars, outlet.reg`history, outlet.reg.subs
      ensures Valid() && (pc.Check? || idle)
      ensures old(delivered) <= delivered && old(outlet.reg.history) <= outlet.reg.history
      ensures old(heap.items) != [] && old(heap.items[0]).ts + 33_000_000 <= old(now) ==>
                delivered == old(delivered) + [Delivery(old(heap.items[0]), old(now))]
      ensures old(heap.items) == [] || old(heap.items[0]).ts + 33_000_000 > old(now) ==> delivered == old(delivered)
    {
      idle := false;
      if heap.items != [] && heap.items[0].ts + WINDOW - now <= 0 {
        DeliverHead();
      } else {
        idle := Wait();
      }
    }

    // The clock, senders and other users of the registry before a round.
    method Between()
      requires Valid() && pc.Check?
      modifies this`now, this`channel, this`accepted, outlet, outlet.reg`vars, outlet.reg`history, outlet.reg.subs
      ensures Valid() && old(outlet.reg.history) <= outlet.reg.history
    {
      Environment();
      var writes: bool := *;
      if writes {
        outlet.OthersStore(now);
      }
    }

    // The loop, for as many rounds as the context lives.
    method RunOutbound(rounds: nat)
      requires Valid() && pc.Check?
      modifies this, heap, outlet, outlet.reg`vars, outlet.reg`history, outlet.reg.subs
      ensures Valid() && old(delivered) <= delivered && old(outlet.reg.history) <= outlet.reg.history
      ensures !overtaken ==> Sorted(delivered)
      ensures accepted == multiset(channel) + multiset(heap.items) + Items(delivered)
      ensures |outlet.own| == |outlet.reg.history| && Marked(outlet.reg.history, outlet.own) == StoresOf(delivered)
    {
      for i := 0 to rounds
        invariant Valid() && pc.Check? && old(delivered) <= delivered && old(outlet.reg.history) <= outlet.reg.history
      {
        Between();
        var idle := Round();
        if idle {
          break;
        }
      }
      ReachableFits(Abs());
    }

    method Park()
      requires Working() && pc.Check? && (heap.items == [] || !Due(heap.items[0], now))
      modifies this`pc
      ensures Working() && pc.Select?
    {
      ghost var s := Abs();
      forall q | q in s.heap ensures !Due(q, now) {
        var k :| 0 <= k < |heap.items| && heap.items[k] == q;
        RootIsLeast(heap.items, k);
      }
      pc := Select;
      ReachableStep(s, OutboundMachine.Park);
      assert Apply(s, OutboundMachine.Park) == Some(Abs());
    }

    method TimerFires()
      requires Working() && pc.Select? && heap.items != []
      modifies this`pc
      ensures Working() && pc.Check?
    {
      ghost var s := Abs();
      assert heap.items[0] in s.heap;
      pc := Check;
      ReachableStep(s, Timer);
      assert Apply(s, Timer) == Some(Abs());
    }
  }
}
