/** Delivery, wake-up and verdict guarantees of the registry in every interleaving. */
module RegistrySafety {
  import opened Common
  import opened Values
  import opened RegistrySpec
  import opened RegistryMachine

  // ---------- Frames still in the hands of the lock holder ----------

  ghost function For(todo: seq<(nat, Frame)>, i: nat): seq<Frame> {
    if todo == [] then []
    else (if todo[0].0 == i then [todo[0].1] else []) + For(todo[1..], i)
  }

  ghost function Todo(lock: Lock): seq<(nat, Frame)> {
    if lock.Held? then lock.todo else []
  }

  ghost predicate Signalling(lock: Lock, i: nat) {
    lock.Held? && lock.signal == Some(i)
  }

  lemma {:induction false} ForConcat(a: seq<(nat, Frame)>, b: seq<(nat, Frame)>, i: nat)
    ensures For(a + b, i) == For(a, i) + For(b, i)
  {
    if a == [] {
      assert a + b == b;
    } else {
      var x, rest := a[0], a[1..];
      ForConcat(rest, b, i);
      assert a + b == [x] + (rest + b) && a == [x] + rest;
      ForCons(x, rest + b, i);
      ForCons(x, rest, i);
      Regrouped(if x.0 == i then [x.1] else [], For(rest, i), For(b, i));
    }
  }

  lemma Regrouped(a: seq<Frame>, b: seq<Frame>, c: seq<Frame>)
    ensures a + (b + c) == (a + b) + c
  {
  }

  lemma ForCons(x: (nat, Frame), rest: seq<(nat, Frame)>, i: nat)
    ensures For([x] + rest, i) == (if x.0 == i then [x.1] else []) + For(rest, i)
  {
    assert ([x] + rest)[1..] == rest;
  }

  lemma ForOne(id: nat, f: Frame, i: nat)
    ensures For([(id, f)], i) == if id == i then [f] else []
  {
    assert [(id, f)][1..] == [];
  }

  lemma DistinctSnoc(init: seq<nat>, id: nat)
    requires Distinct(init + [id])
    ensures Distinct(init) && id !in init
  {
    var ids := init + [id];
    assert ids[|init|] == id;
    assert forall k :: 0 <= k < |init| ==> ids[k] == init[k];
  }

  lemma {:induction false} ForFanout(ids: seq<nat>, keep: Keep, f: Frame, subs: seq<Sub>, i: nat)
    requires Distinct(ids) && i < |subs|
    ensures For(Fanout(ids, keep, f, subs), i) == if i in ids && Keeps(keep, subs[i]) then [f] else []
  {
    if ids != [] {
      var init, id := ids[..|ids| - 1], ids[|ids| - 1];
      assert ids == init + [id];
      DistinctSnoc(init, id);
      ForFanout(init, keep, f, subs, i);
      FanoutSnoc(init, id, keep, f, subs, i);
    }
  }

  lemma FanoutSnoc(init: seq<nat>, id: nat, keep: Keep, f: Frame, subs: seq<Sub>, i: nat)
    ensures For(Fanout(init + [id], keep, f, subs), i)
            == For(Fanout(init, keep, f, subs), i) + (if id == i && id < |subs| && Keeps(keep, subs[id]) then [f] else [])
  {
    assert (init + [id])[..|init|] == init;
    ForConcat(Fanout(init, keep, f, subs), if id < |subs| && Keeps(keep, subs[id]) then [(id, f)] else [], i);
    ForOne(id, f, i);
  }

  // ---------- Invariant ----------

  ghost function Hand(p: Pump): seq<Frame> {
    match p
    case Holding(f) => [f]
    case Ended(fs) => fs
    case _ => []
  }

  // Everything a subscription has been given and not lost: read, in the pump's hand, queued.
  ghost function Received(s: Sub): seq<Frame> {
    s.delivered + Hand(s.pump) + s.queue
  }

  ghost function End(s: Sub, h: seq<Op>): nat {
    if s.until.Some? then s.until.value else |h|
  }

  ghost predicate InSpan(s: Sub, h: seq<Op>) {
    s.since <= End(s, h) <= |h|
  }

  ghost function Owes(s: Sub, h: seq<Op>): bool
    requires s.since <= |h|
  {
    OwesVerdict(StoredAt(h[..s.since], s.name), s.steady)
  }

  // The frames the history owes the subscription.
  ghost function Owed(s: Sub, h: seq<Op>): seq<Frame>
    requires InSpan(s, h)
  {
    Projection(h[s.since..End(s, h)], s.name, s.client, Owes(s, h))
  }

  ghost predicate Fits(s: Sub, h: seq<Op>, coming: seq<Frame>, signalling: bool) {
    && InSpan(s, h)
    && s.first == FirstFrame(s.name, StoredAt(h[..s.since], s.name), s.steady)
    && Received(s) + coming == Owed(s, h)
    && (s.pump.Waiting? && s.queue != [] ==> s.wake || signalling)
    && (s.closed ==> s.until.Some?)
    && (s.until.Some? ==> coming == [])
  }

  // The verdict a subscription waited for before the last operation, and that operation's frames.
  ghost predicate PendingBefore(s: Sub, h: seq<Op>)
    requires s.since < |h|
  {
    PendingAfter(h[s.since..|h| - 1], Owes(s, h))
  }

  ghost function LastFrames(s: Sub, h: seq<Op>): seq<Frame>
    requires s.since < |h|
  {
    FramesOf(h[|h| - 1], s.name, s.client, PendingBefore(s, h))
  }

  ghost predicate IsSuffix<T(!new)>(a: seq<T>, b: seq<T>) {
    |a| <= |b| && a == b[|b| - |a|..]
  }

  // What is still to be enqueued belongs to the operation in progress. The flag stays up while
  // none of an announcement's frames has been handed over, and falls with the first.
  ghost predicate PendingFits(s: Sub, h: seq<Op>, coming: seq<Frame>)
    requires s.since <= |h|
  {
    && (coming != [] ==> s.since < |h| && IsSuffix(coming, LastFrames(s, h)))
    && s.pending == if s.since < |h| && h[|h| - 1].Announce?
                    then PendingBefore(s, h) && coming == LastFrames(s, h)
                    else PendingAfter(h[s.since..], Owes(s, h))
  }

  ghost predicate SubFits(s: Sub, h: seq<Op>, coming: seq<Frame>, signalling: bool) {
    Fits(s, h, coming, signalling) && (s.until.None? ==> PendingFits(s, h, coming))
  }

  ghost predicate ListenersFit(s: State) {
    && (forall n <- s.listeners :: Distinct(s.listeners[n]))
    && (forall n <- s.listeners :: forall id <- s.listeners[n] ::
          id < |s.subs| && s.subs[id].name == n && s.subs[id].until.None?)
    && (forall i :: 0 <= i < |s.subs| && s.subs[i].until.None? ==>
          i in ListenersOf(s.listeners, s.subs[i].name))
  }

  ghost predicate VarsFit(s: State) {
    forall n :: StoredIn(s.vars, n) == StoredAt(s.history, n)
  }

  ghost predicate SubsFit(s: State) {
    forall i :: 0 <= i < |s.subs| ==>
      SubFits(s.subs[i], s.history, For(Todo(s.lock), i), Signalling(s.lock, i))
  }

  // Frames are only ever meant for subscriptions that exist.
  ghost predicate IdsFit(todo: seq<(nat, Frame)>, n: nat) {
    forall k :: 0 <= k < |todo| ==> todo[k].0 < n
  }

  ghost predicate LockFits(lock: Lock, n: nat) {
    lock.Held? ==> IdsFit(lock.todo, n) && (lock.signal.Some? ==> lock.signal.value < n)
  }

  ghost predicate Inv(s: State) {
    ListenersFit(s) && VarsFit(s) && SubsFit(s) && LockFits(s.lock, |s.subs|)
  }

  lemma {:induction false} FanoutIds(ids: seq<nat>, keep: Keep, f: Frame, subs: seq<Sub>)
    ensures IdsFit(Fanout(ids, keep, f, subs), |subs|)
  {
    if ids != [] {
      FanoutIds(ids[..|ids| - 1], keep, f, subs);
    }
  }

  lemma {:induction false} AnnounceIds(values: seq<Announcement>, listeners: map<string, seq<nat>>, subs: seq<Sub>)
    ensures IdsFit(AnnounceTodo(values, listeners, subs), |subs|)
  {
    if values != [] {
      var v := values[|values| - 1];
      AnnounceIds(values[..|values| - 1], listeners, subs);
      FanoutIds(ListenersOf(listeners, v.name), Everyone, LastValueFrame(v.name, v.value, v.ts), subs);
    }
  }

  lemma {:induction false} MissingIds(order: seq<string>, values: seq<Announcement>,
                                      listeners: map<string, seq<nat>>, subs: seq<Sub>)
    ensures IdsFit(MissingTodo(order, values, listeners, subs), |subs|)
  {
    if order != [] {
      var n := order[|order| - 1];
      MissingIds(order[..|order| - 1], values, listeners, subs);
      FanoutIds(ListenersOf(listeners, n), OnlyPending, BareFrame(n, LastValueMissing), subs);
    }
  }

  // ---------- One subscription ----------

  // No step of a pump or a stop loses, repeats or reorders a frame.
  lemma LocalReceived(s: Sub, e: Event)
    requires Local(s, e).Some?
    ensures Received(Local(s, e).value) == Received(s)
  {
    if e.PumpCheck? && s.queue != [] {
      Taken(s.delivered, s.queue);
    } else if e.PumpDeliver? {
      assert s.delivered + [s.pump.frame] + [] == s.delivered + [s.pump.frame];
    }
  }

  lemma Taken(delivered: seq<Frame>, queue: seq<Frame>)
    requires queue != []
    ensures delivered + [queue[0]] + queue[1..] == delivered + [] + queue
  {
  }

  lemma LocalKeeps(s: Sub, e: Event, h: seq<Op>, coming: seq<Frame>, signalling: bool)
    requires SubFits(s, h, coming, signalling) && Local(s, e).Some?
    ensures SubFits(Local(s, e).value, h, coming, signalling)
    ensures Local(s, e).value.name == s.name && Local(s, e).value.until == s.until
  {
    LocalReceived(s, e);
    LocalSame(s, e);
  }

  // What a local step leaves alone.
  lemma LocalSame(s: Sub, e: Event)
    requires Local(s, e).Some?
    ensures var t := Local(s, e).value;
            && t.name == s.name && t.client == s.client && t.steady == s.steady && t.first == s.first
            && t.since == s.since && t.until == s.until && t.pending == s.pending
            && (t.closed ==> s.closed || s.until.Some?)
            && (t.pump.Waiting? && t.queue != [] ==> s.pump.Waiting? && t.queue == s.queue && t.wake == s.wake)
  {
  }

  lemma AppendKeeps(s: Sub, h: seq<Op>, f: Frame, rest: seq<Frame>)
    requires SubFits(s, h, [f] + rest, false)
    ensures SubFits(Handed(s, f), h, rest, true)
  {
    var t := Handed(s, f);
    assert Received(t) + rest == Received(s) + ([f] + rest);
    AppendPending(s, h, f, rest);
  }

  lemma {:induction false} HitKinds(values: seq<Announcement>, name: string, k: nat)
    requires k < |HitFrames(values, name)|
    ensures HitFrames(values, name)[k].kind == LastValue
  {
    if k < |HitFrames(values[..|values| - 1], name)| {
      HitKinds(values[..|values| - 1], name, k);
    }
  }

  // Frames of writes are updates, frames of announcements never are.
  lemma FrameKinds(op: Op, name: string, client: string, pending: bool, k: nat)
    requires k < |FramesOf(op, name, client, pending)|
    ensures FramesOf(op, name, client, pending)[k].kind.Update? <==> op.Write?
    ensures op.Write? ==> |FramesOf(op, name, client, pending)| == 1
  {
    if op.Announce? && HitFrames(op.values, name) != [] {
      HitKinds(op.values, name, k);
    }
  }

  lemma SuffixTail<T(!new)>(x: T, rest: seq<T>, b: seq<T>)
    requires IsSuffix([x] + rest, b)
    ensures IsSuffix(rest, b) && rest != b
    ensures |b| - |rest| - 1 >= 0 && b[|b| - |rest| - 1] == x
  {
    var a := [x] + rest;
    assert a[1..] == rest && a[0] == x;
    assert b[|b| - |a|..][1..] == b[|b| - |rest|..];
  }

  lemma AppendPending(s: Sub, h: seq<Op>, f: Frame, rest: seq<Frame>)
    requires s.since <= |h| && PendingFits(s, h, [f] + rest)
    ensures PendingFits(Handed(s, f), h, rest)
  {
    var frames := LastFrames(s, h);
    SuffixTail(f, rest, frames);
    FrameKinds(h[|h| - 1], s.name, s.client, PendingBefore(s, h), |frames| - |rest| - 1);
    assert Owes(Handed(s, f), h) == Owes(s, h);
  }

  lemma SignalKeeps(s: Sub, h: seq<Op>, coming: seq<Frame>)
    requires SubFits(s, h, coming, true)
    ensures SubFits(s.(wake := true), h, coming, false)
  {
    assert Received(s.(wake := true)) == Received(s);
  }

  // The history grows by an operation that has not yet handed out its frames.
  lemma GrowKeeps(s: Sub, h: seq<Op>, op: Op)
    requires SubFits(s, h, [], false)
    ensures s.until.None? ==> SubFits(s, h + [op], FramesOf(op, s.name, s.client, s.pending), false)
    ensures s.until.Some? ==> SubFits(s, h + [op], [], false)
  {
    assert (h + [op])[..s.since] == h[..s.since];
    if s.until.None? {
      GrowsOpen(s, h, op);
    } else {
      assert (h + [op])[s.since..End(s, h)] == h[s.since..End(s, h)];
      assert End(s, h + [op]) == End(s, h);
      assert Owed(s, h + [op]) == Owed(s, h);
    }
  }

  lemma ProjectionSnoc(span: seq<Op>, op: Op, name: string, client: string, pending: bool)
    ensures Projection(span + [op], name, client, pending)
            == Projection(span, name, client, pending) + FramesOf(op, name, client, PendingAfter(span, pending))
    ensures PendingAfter(span + [op], pending) == (PendingAfter(span, pending) && op.Write?)
  {
    assert (span + [op])[..|span|] == span;
    if PendingAfter(span + [op], pending) {
      assert forall k :: 0 <= k < |span| ==> (span + [op])[k] == span[k];
      assert (span + [op])[|span|] == op;
    }
  }

  // Between operations the flag says what the history says.
  lemma PendingBetween(s: Sub, h: seq<Op>)
    requires s.since <= |h| && PendingFits(s, h, [])
    ensures s.pending == PendingAfter(h[s.since..], Owes(s, h))
  {
    if s.since < |h| && h[|h| - 1].Announce? {
      var span := h[s.since..];
      assert span[|span| - 1] == h[|h| - 1];
      if PendingBefore(s, h) {
        HitsCarry(h[|h| - 1].values, s.name);
      }
    }
  }

  lemma GrowsOpen(s: Sub, h: seq<Op>, op: Op)
    requires SubFits(s, h, [], false) && s.until.None? && (h + [op])[..s.since] == h[..s.since]
    ensures SubFits(s, h + [op], FramesOf(op, s.name, s.client, s.pending), false)
  {
    PendingBetween(s, h);
    Spans(s, h, op);
    GrowsOwed(s, h, op);
    GrowsPending(s, h, op);
  }

  lemma Spans(s: Sub, h: seq<Op>, op: Op)
    requires s.since <= |h|
    ensures var h' := h + [op]; h'[s.since..] == h[s.since..] + [op] && h'[s.since..|h'| - 1] == h[s.since..]
    ensures h[s.since..|h|] == h[s.since..] && (h + [op])[s.since..|h + [op]|] == h[s.since..] + [op]
  {
  }

  lemma GrowsOwed(s: Sub, h: seq<Op>, op: Op)
    requires Fits(s, h, [], false) && s.until.None? && (h + [op])[..s.since] == h[..s.since]
    requires s.pending == PendingAfter(h[s.since..], Owes(s, h))
    ensures Fits(s, h + [op], FramesOf(op, s.name, s.client, s.pending), false)
  {
    Spans(s, h, op);
    ProjectionSnoc(h[s.since..], op, s.name, s.client, Owes(s, h));
    assert Received(s) == Received(s) + [];
  }

  lemma GrowsPending(s: Sub, h: seq<Op>, op: Op)
    requires s.since <= |h| && (h + [op])[..s.since] == h[..s.since]
    requires s.pending == PendingAfter(h[s.since..], Owes(s, h))
    ensures PendingFits(s, h + [op], FramesOf(op, s.name, s.client, s.pending))
  {
    Spans(s, h, op);
    ProjectionSnoc(h[s.since..], op, s.name, s.client, Owes(s, h));
    var frames := FramesOf(op, s.name, s.client, s.pending);
    assert frames[|frames| - |frames|..] == frames;
  }

  // ---------- The whole registry ----------

  lemma {:induction false} ForAnnounce(values: seq<Announcement>, s: State, i: nat)
    requires ListenersFit(s) && i < |s.subs|
    ensures For(AnnounceTodo(values, s.listeners, s.subs), i)
            == if s.subs[i].until.None? then HitFrames(values, s.subs[i].name) else []
  {
    if values != [] {
      var init, v := values[..|values| - 1], values[|values| - 1];
      var ids, f := ListenersOf(s.listeners, v.name), LastValueFrame(v.name, v.value, v.ts);
      ForAnnounce(init, s, i);
      ForConcat(AnnounceTodo(init, s.listeners, s.subs), Fanout(ids, Everyone, f, s.subs), i);
      ForFanout(ids, Everyone, f, s.subs, i);
    }
  }

  lemma {:induction false} ForMissing(order: seq<string>, values: seq<Announcement>, s: State, i: nat)
    requires ListenersFit(s) && i < |s.subs| && Distinct(order)
    ensures For(MissingTodo(order, values, s.listeners, s.subs), i)
            == if s.subs[i].until.None? && s.subs[i].name in order && s.subs[i].pending
                  && Announced(values, s.subs[i].name).None?
               then [BareFrame(s.subs[i].name, LastValueMissing)] else []
  {
    if order != [] {
      var init, n := order[..|order| - 1], order[|order| - 1];
      ForMissing(init, values, s, i);
      ForOneName(n, values, s, i);
      ForConcat(MissingTodo(init, values, s.listeners, s.subs),
                if Announced(values, n).Some? then []
                else Fanout(ListenersOf(s.listeners, n), OnlyPending, BareFrame(n, LastValueMissing), s.subs), i);
      assert order == init + [n];
      if s.subs[i].name == n {
        assert n !in init;
      }
    }
  }

  lemma ForOneName(n: string, values: seq<Announcement>, s: State, i: nat)
    requires ListenersFit(s) && i < |s.subs|
    ensures For(if Announced(values, n).Some? then []
                else Fanout(ListenersOf(s.listeners, n), OnlyPending, BareFrame(n, LastValueMissing), s.subs), i)
            == if s.subs[i].until.None? && s.subs[i].name == n && s.subs[i].pending && Announced(values, n).None?
               then [BareFrame(n, LastValueMissing)] else []
  {
    if Announced(values, n).None? {
      ForFanout(ListenersOf(s.listeners, n), OnlyPending, BareFrame(n, LastValueMissing), s.subs, i);
    }
  }

  // What an announcement hands a subscription over both passes is what the history owes it.
  lemma ForBothPasses(values: seq<Announcement>, order: seq<string>, s: State, i: nat)
    requires ListenersFit(s) && i < |s.subs| && Walks(order, s.listeners)
    ensures var sub := s.subs[i];
            For(AnnounceTodo(values, s.listeners, s.subs) + MissingTodo(order, values, s.listeners, s.subs), i)
            == if sub.until.None? then FramesOf(Announce(values), sub.name, sub.client, sub.pending) else []
  {
    var hits, misses := AnnounceTodo(values, s.listeners, s.subs), MissingTodo(order, values, s.listeners, s.subs);
    ForAnnounce(values, s, i);
    ForMissing(order, values, s, i);
    ForConcat(hits, misses, i);
    HitsCarry(values, s.subs[i].name);
    if s.subs[i].until.None? {
      assert s.subs[i].name in s.listeners;
    }
  }

  lemma SetValueKeeps(s: State, n: string, v: Value, ts: int, origin: string)
    requires Inv(s) && Apply(s, SetValue(n, v, ts, origin)).Some?
    ensures Inv(Apply(s, SetValue(n, v, ts, origin)).value)
  {
    var op, s' := Write(n, v, ts, origin), Apply(s, SetValue(n, v, ts, origin)).value;
    FanoutIds(ListenersOf(s.listeners, n), NotFrom(origin), UpdateFrame(n, v, ts), s.subs);
    assert s'.history[..|s.history|] == s.history;
    forall i | 0 <= i < |s.subs|
      ensures SubFits(s'.subs[i], s'.history, For(Todo(s'.lock), i), Signalling(s'.lock, i))
    {
      GrowKeeps(s.subs[i], s.history, op);
      ForFanout(ListenersOf(s.listeners, n), NotFrom(origin), UpdateFrame(n, v, ts), s.subs, i);
    }
  }

  lemma {:induction false} StoreAllFits(vars: map<string, Stored>, values: seq<Announcement>, n: string)
    requires forall v <- values :: v.ts != 0
    ensures StoredIn(StoreAll(vars, values), n)
            == if Announced(values, n).Some? then Announced(values, n) else StoredIn(vars, n)
  {
    if values != [] {
      StoreAllFits(vars, values[..|values| - 1], n);
    }
  }

  lemma AnnounceKeeps(s: State, values: seq<Announcement>, order: seq<string>)
    requires Inv(s) && Apply(s, ApplyLastValues(values, order)).Some?
    ensures Inv(Apply(s, ApplyLastValues(values, order)).value)
  {
    var op, s' := Announce(values), Apply(s, ApplyLastValues(values, order)).value;
    AnnounceIds(values, s.listeners, s.subs);
    MissingIds(order, values, s.listeners, s.subs);
    assert s'.history[..|s.history|] == s.history;
    forall n ensures StoredIn(s'.vars, n) == StoredAt(s'.history, n) {
      StoreAllFits(s.vars, values, n);
    }
    forall i | 0 <= i < |s.subs|
      ensures SubFits(s'.subs[i], s'.history, For(Todo(s'.lock), i), Signalling(s'.lock, i))
    {
      GrowKeeps(s.subs[i], s.history, op);
      ForBothPasses(values, order, s, i);
    }
  }

  lemma SubscribeKeepsListeners(s: State, n: string, c: string, steady: bool)
    requires ListenersFit(s) && Apply(s, Subscribe(n, c, steady)).Some?
    ensures ListenersFit(Apply(s, Subscribe(n, c, steady)).value)
  {
    var s' := Apply(s, Subscribe(n, c, steady)).value;
    var ids := ListenersOf(s.listeners, n);
    assert forall id <- ids :: id < |s.subs|;
    assert forall k :: 0 <= k < |ids| ==> ids[k] in ids;
    assert Distinct(ids + [|s.subs|]);
    forall i | 0 <= i < |s'.subs| && s'.subs[i].until.None?
      ensures i in ListenersOf(s'.listeners, s'.subs[i].name)
    {
      if i < |s.subs| {
        assert s'.subs[i] == s.subs[i];
      }
    }
  }

  lemma SubscribeKeeps(s: State, n: string, c: string, steady: bool)
    requires Inv(s) && Apply(s, Subscribe(n, c, steady)).Some?
    ensures Inv(Apply(s, Subscribe(n, c, steady)).value)
  {
    SubscribeKeepsListeners(s, n, c, steady);
    var s' := Apply(s, Subscribe(n, c, steady)).value;
    var added := s'.subs[|s.subs|];
    assert s.history[..|s.history|] == s.history && s.history[|s.history|..] == [];
    assert s.history[added.since..End(added, s.history)] == [];
    assert SubFits(added, s'.history, [], false);
    forall m ensures StoredIn(s'.vars, m) == StoredAt(s'.history, m) {
      assert StoredIn(s.vars, m) == StoredAt(s.history, m);
    }
  }

  lemma {:induction false} WithoutOthers(ids: seq<nat>, id: nat, other: nat)
    requires Distinct(ids)
    ensures Distinct(Without(ids, id))
    ensures other in Without(ids, id) <==> other in ids && other != id
  {
    if ids != [] {
      WithoutOthers(ids[1..], id, other);
      assert ids == [ids[0]] + ids[1..];
      if ids[0] != id {
        WithoutOthers(ids[1..], id, ids[0]);
        assert Without(ids, id) == [ids[0]] + Without(ids[1..], id);
      }
    }
  }

  lemma RemoveKeeps(s: State, i: nat)
    requires Inv(s) && Apply(s, Remove(i)).Some?
    ensures Inv(Apply(s, Remove(i)).value)
  {
    var s' := Apply(s, Remove(i)).value;
    var n := s.subs[i].name;
    forall other: nat ensures other in ListenersOf(s'.listeners, n) <==> other in ListenersOf(s.listeners, n) && other != i
    {
      WithoutOthers(ListenersOf(s.listeners, n), i, other);
    }
    WithoutOthers(ListenersOf(s.listeners, n), i, i);
    assert s.history[s.subs[i].since..] == s.history[s.subs[i].since..|s.history|];
    assert SubFits(s'.subs[i], s'.history, [], false);
  }

  lemma AppendStepKeeps(s: State)
    requires Inv(s) && Apply(s, Append).Some?
    ensures Inv(Apply(s, Append).value)
  {
    var s' := Apply(s, Append).value;
    var todo := s.lock.todo;
    assert todo == [todo[0]] + todo[1..];
    forall i | 0 <= i < |s.subs|
      ensures SubFits(s'.subs[i], s'.history, For(Todo(s'.lock), i), Signalling(s'.lock, i))
    {
      AppendReaches(s.subs[i], s.history, todo[0], todo[1..], i);
    }
  }

  // The head of the list of frames to hand out goes to its own subscription and no other.
  lemma AppendReaches(s: Sub, h: seq<Op>, head: (nat, Frame), rest: seq<(nat, Frame)>, i: nat)
    requires SubFits(s, h, For([head] + rest, i), false)
    ensures SubFits(if head.0 == i then Handed(s, head.1) else s, h, For(rest, i), head.0 == i)
  {
    ForCons(head, rest, i);
    if head.0 == i {
      AppendKeeps(s, h, head.1, For(rest, i));
    } else {
      assert [] + For(rest, i) == For(rest, i);
    }
  }

  lemma SignalStepKeeps(s: State)
    requires Inv(s) && Apply(s, Signal).Some?
    ensures Inv(Apply(s, Signal).value)
  {
    var s' := Apply(s, Signal).value;
    forall i | 0 <= i < |s.subs|
      ensures SubFits(s'.subs[i], s'.history, For(Todo(s'.lock), i), Signalling(s'.lock, i))
    {
      if i == s.lock.signal.value {
        SignalKeeps(s.subs[i], s.history, For(Todo(s.lock), i));
      }
    }
  }

  lemma ReleaseStepKeeps(s: State)
    requires Inv(s) && Apply(s, Release).Some?
    ensures Inv(Apply(s, Release).value)
  {
  }

  lemma LocalStepKeeps(s: State, e: Event)
    requires Inv(s) && ApplyLocal(s, e).Some?
    ensures Inv(ApplyLocal(s, e).value)
  {
    LocalKeeps(s.subs[e.sub], e, s.history, For(Todo(s.lock), e.sub), Signalling(s.lock, e.sub));
  }

  lemma StepKeeps(s: State, e: Event)
    requires Inv(s) && Apply(s, e).Some?
    ensures Inv(Apply(s, e).value)
  {
    match e
    case SetValue(n, v, ts, origin) => SetValueKeeps(s, n, v, ts, origin);
    case ApplyLastValues(values, order) => AnnounceKeeps(s, values, order);
    case Subscribe(n, c, steady) => SubscribeKeeps(s, n, c, steady);
    case Remove(i) => RemoveKeeps(s, i);
    case Append => AppendStepKeeps(s);
    case Signal => SignalStepKeeps(s);
    case Release => ReleaseStepKeeps(s);
    case _ => LocalStepKeeps(s, e);
  }

  lemma {:induction false} RunFits(events: seq<Event>)
    requires Exec(events).Some?
    ensures Inv(Exec(events).value)
  {
    if events != [] {
      RunFits(events[..|events| - 1]);
      StepKeeps(Exec(events[..|events| - 1]).value, events[|events| - 1]);
    }
  }

  ghost predicate Reachable(s: State) {
    exists events :: Exec(events) == Some(s)
  }

  lemma ReachableFits(s: State)
    requires Reachable(s)
    ensures Inv(s)
  {
    var events :| Exec(events) == Some(s);
    RunFits(events);
  }

  lemma ReachableSub(s: State, i: nat)
    requires Reachable(s) && i < |s.subs|
    ensures SubFits(s.subs[i], s.history, For(Todo(s.lock), i), Signalling(s.lock, i))
  {
    ReachableFits(s);
  }

  // ---------- What every interleaving guarantees ----------

  // Frames delivered, in the pump's hand and queued, with those the lock holder has still to
  // enqueue, are exactly the frames the history owes: nothing is lost, repeated or reordered.
  lemma DeliveryIsTheProjection(s: State, i: nat)
    requires Reachable(s) && i < |s.subs|
    ensures InSpan(s.subs[i], s.history)
    ensures var sub, owed := s.subs[i], Owed(s.subs[i], s.history);
            && sub.delivered + Hand(sub.pump) + sub.queue + For(Todo(s.lock), i) == owed
            && sub.delivered <= owed
            && (s.lock.Free? ==> sub.delivered + Hand(sub.pump) + sub.queue == owed)
  {
    ReachableSub(s, i);
    DeliveredIsPrefix(s.subs[i], s.history, For(Todo(s.lock), i));
  }

  lemma DeliveredIsPrefix(sub: Sub, h: seq<Op>, coming: seq<Frame>)
    requires InSpan(sub, h) && Received(sub) + coming == Owed(sub, h)
    ensures sub.delivered <= Owed(sub, h)
    ensures coming == [] ==> Received(sub) == Owed(sub, h)
  {
    assert Received(sub) + coming == sub.delivered + (Hand(sub.pump) + sub.queue + coming);
  }

  // A stopped subscription has left the registry, and no operation enqueues to it again: its
  // queue only shrinks, and only by its own pump.
  lemma NothingAfterStop(s: State, e: Event, i: nat)
    requires Reachable(s) && i < |s.subs| && s.subs[i].closed && Apply(s, e).Some?
    ensures var s' := Apply(s, e).value;
            && i !in ListenersOf(s.listeners, s.subs[i].name)
            && i < |s'.subs| && s'.subs[i].closed
            && (s'.subs[i].queue == s.subs[i].queue
                || (e == PumpCheck(i) && s.subs[i].queue != [] && s'.subs[i].queue == s.subs[i].queue[1..]))
  {
    ReachableFits(s);
    ClosedIsLeftAlone(s, e, i);
  }

  lemma ClosedIsLeftAlone(s: State, e: Event, i: nat)
    requires ListenersFit(s) && i < |s.subs| && s.subs[i].closed && Apply(s, e).Some?
    requires s.subs[i].until.Some? && For(Todo(s.lock), i) == []
    ensures var s' := Apply(s, e).value;
            && i !in ListenersOf(s.listeners, s.subs[i].name)
            && i < |s'.subs| && s'.subs[i].closed
            && (s'.subs[i].queue == s.subs[i].queue
                || (e == PumpCheck(i) && s.subs[i].queue != [] && s'.subs[i].queue == s.subs[i].queue[1..]))
  {
    if e.Append? {
      assert s.lock.todo[0].0 != i;
    }
  }

  // A waiting pump with something to deliver always has its wake token, unless the enqueuer
  // that put it there has not reached its own signal yet.
  lemma NoLostWakeup(s: State, i: nat)
    requires Reachable(s) && i < |s.subs|
    requires s.subs[i].pump.Waiting? && s.subs[i].queue != [] && !Signalling(s.lock, i)
    ensures s.subs[i].wake && Apply(s, PumpWake(i)).Some?
  {
    ReachableSub(s, i);
  }

  // Once an announcement it lived through has handed a registered subscription its frames, the
  // subscription waits for no verdict.
  lemma NoPendingAfterAnnounce(s: State, i: nat, k: nat)
    requires Reachable(s) && i < |s.subs| && s.subs[i].until.None? && For(Todo(s.lock), i) == []
    requires s.subs[i].since <= k < |s.history| && s.history[k].Announce?
    ensures !s.subs[i].pending
  {
    ReachableSub(s, i);
    var sub := s.subs[i];
    PendingBetween(sub, s.history);
    assert s.history[sub.since..][k - sub.since] == s.history[k];
  }

  // The two passes reach every waiting subscription: one of its frames is on the list, and the
  // first to come takes the flag down.
  lemma EveryPendingIsReached(s: State, values: seq<Announcement>, order: seq<string>, i: nat)
    requires Reachable(s) && Apply(s, ApplyLastValues(values, order)).Some?
    requires i < |s.subs| && s.subs[i].until.None? && s.subs[i].pending
    ensures var coming := For(Todo(Apply(s, ApplyLastValues(values, order)).value.lock), i);
            coming != [] && !Handed(s.subs[i], coming[0]).pending
  {
    ReachableFits(s);
    var sub := s.subs[i];
    ForBothPasses(values, order, s, i);
    FrameKinds(Announce(values), sub.name, sub.client, sub.pending, 0);
  }

  lemma ReachableStep(s: State, e: Event)
    requires Reachable(s) && Apply(s, e).Some?
    ensures Reachable(Apply(s, e).value)
  {
    var events :| Exec(events) == Some(s);
    assert (events + [e])[..|events|] == events;
    assert Exec(events + [e]) == Apply(s, e);
  }

  ghost predicate SameSubs(a: State, b: State) {
    && |a.subs| == |b.subs| && a.history == b.history
    && forall i :: 0 <= i < |a.subs| ==> a.subs[i].since == b.subs[i].since && a.subs[i].until == b.subs[i].until
  }

  // The lock holder's own steps bring its operation to an end.
  lemma {:induction false} OperationFinishes(s: State) returns (s': State)
    requires Reachable(s) && s.lock.Held?
    ensures Reachable(s') && s'.lock.Free? && SameSubs(s, s')
    decreases |s.lock.todo|, if s.lock.signal.Some? then 1 else 0
  {
    ReachableFits(s);
    var e := if s.lock.signal.Some? then Signal else if s.lock.todo != [] then Append else Release;
    ReachableStep(s, e);
    var t := Apply(s, e).value;
    if e.Release? {
      s' := t;
    } else {
      s' := OperationFinishes(t);
    }
  }

  // When an announcement has ended, no subscription that was registered waits any more.
  lemma AnnouncementSettles(s: State, values: seq<Announcement>, order: seq<string>) returns (s': State)
    requires Reachable(s) && Apply(s, ApplyLastValues(values, order)).Some?
    ensures Reachable(s') && s'.lock.Free? && s'.history == s.history + [Announce(values)] && |s'.subs| == |s.subs|
    ensures forall i :: 0 <= i < |s.subs| && s.subs[i].until.None? ==> !s'.subs[i].pending
  {
    var e := ApplyLastValues(values, order);
    ReachableStep(s, e);
    s' := OperationFinishes(Apply(s, e).value);
    forall i | 0 <= i < |s.subs| && s.subs[i].until.None? ensures !s'.subs[i].pending {
      ReachableSub(s, i);
      NoPendingAfterAnnounce(s', i, |s.history|);
    }
  }

  // Counting its first frame, a subscription is told at most once that a value is missing.
  lemma OneVerdictPerLife(s: State, i: nat)
    requires Reachable(s) && i < |s.subs|
    ensures Missing([s.subs[i].first] + s.subs[i].delivered) <= 1
  {
    ReachableSub(s, i);
    DeliveryIsTheProjection(s, i);
    PrefixVerdicts(s.subs[i], s.history);
  }

  lemma PrefixVerdicts(sub: Sub, h: seq<Op>)
    requires InSpan(sub, h) && sub.delivered <= Owed(sub, h)
    requires sub.first == FirstFrame(sub.name, StoredAt(h[..sub.since], sub.name), sub.steady)
    ensures Missing([sub.first] + sub.delivered) <= 1
  {
    var owed := Owed(sub, h);
    AtMostOneMissing(h[sub.since..End(sub, h)], sub.name, sub.client,
                     StoredAt(h[..sub.since], sub.name), sub.steady);
    assert [sub.first] + owed == ([sub.first] + sub.delivered) + owed[|sub.delivered|..];
    MissingConcat([sub.first] + sub.delivered, owed[|sub.delivered|..]);
  }

  // Once drained, a live subscription's last value-bearing frame, its first one included, is
  // the last store that was not its own app's write since it subscribed. That is the board's
  // value unless the very last store was such a write.
  lemma DrainedSubscriberAgrees(s: State, i: nat)
    requires Reachable(s) && i < |s.subs| && s.lock.Free?
    requires s.subs[i].until.None? && s.subs[i].queue == [] && Hand(s.subs[i].pump) == []
    ensures var sub := s.subs[i];
            && sub.since <= |s.history|
            && var before, since := s.history[..sub.since], s.history[sub.since..];
               var held := Carried([sub.first] + sub.delivered);
               && held == StoredByOthers(before, since, sub.name, sub.client)
               && (!LastStoreIsOwn(since, sub.name, sub.client) ==> held == StoredIn(s.vars, sub.name))
  {
    ReachableFits(s);
    ReachableSub(s, i);
    DrainedAgrees(s.subs[i], s.history);
  }

  lemma DrainedAgrees(sub: Sub, h: seq<Op>)
    requires SubFits(sub, h, [], false)
    requires sub.until.None? && sub.queue == [] && Hand(sub.pump) == []
    ensures var before, since := h[..sub.since], h[sub.since..];
            var held := Carried([sub.first] + sub.delivered);
            && held == StoredByOthers(before, since, sub.name, sub.client)
            && (!LastStoreIsOwn(since, sub.name, sub.client) ==> held == StoredAt(h, sub.name))
  {
    var before, since := h[..sub.since], h[sub.since..];
    assert since == h[sub.since..End(sub, h)];
    assert Received(sub) + [] == sub.delivered;
    Converges(before, since, sub.name, sub.client, sub.steady);
    assert before + since == h;
    if !LastStoreIsOwn(since, sub.name, sub.client) {
      OthersStoredLast(before, since, sub.name, sub.client);
    }
  }
}
