/**
 What a subscriber of a variable is owed.

 The registry's history is the list of operations that stored something, in the order the
 registry lock admitted them. `Projection` reads off a history the frames one subscription
 must receive; nothing here mentions queues, pumps or locks.
 */
module RegistrySpec {
  import opened Common
  import opened Values

  datatype Kind = Update | LastValue | LastValueMissing | ThingUnavailable

  // Timestamp 0 stands for Go's zero time, "never set".
  datatype Frame = Frame(name: string, value: Option<Value>, ts: int, lastValue: bool, kind: Kind)

  datatype Stored = Stored(value: Option<Value>, ts: int)

  datatype Announcement = Announcement(name: string, value: Value, ts: int)

  // An operation that stores values: a write, or the cloud's last values for the thing.
  datatype Op =
    | Write(name: string, value: Value, ts: int, origin: string)
    | Announce(values: seq<Announcement>)

  function UpdateFrame(name: string, value: Value, ts: int): Frame {
    Frame(name, Some(value), ts, false, Update)
  }

  function LastValueFrame(name: string, value: Value, ts: int): Frame {
    Frame(name, Some(value), ts, true, LastValue)
  }

  function BareFrame(name: string, kind: Kind): Frame {
    Frame(name, None, 0, false, kind)
  }

  // An app is not handed back its own write.
  predicate OwnWrite(origin: string, client: string) {
    origin != "" && client == origin
  }

  function HitFrames(values: seq<Announcement>, name: string): seq<Frame> {
    if values == [] then []
    else
      var last := values[|values| - 1];
      HitFrames(values[..|values| - 1], name)
      + (if last.name == name then [LastValueFrame(name, last.value, last.ts)] else [])
  }

  // The frames one operation owes a subscriber, who may still be waiting for a verdict.
  function FramesOf(op: Op, name: string, client: string, pending: bool): seq<Frame> {
    match op
    case Write(n, v, ts, origin) =>
      if n == name && !OwnWrite(origin, client) then [UpdateFrame(n, v, ts)] else []
    case Announce(values) =>
      var hits := HitFrames(values, name);
      if hits == [] && pending then [BareFrame(name, LastValueMissing)] else hits
  }

  function PendingAfter(h: seq<Op>, pending: bool): bool {
    pending && forall k :: 0 <= k < |h| ==> h[k].Write?
  }

  ghost function Projection(h: seq<Op>, name: string, client: string, pending: bool): seq<Frame> {
    if h == [] then []
    else
      var before := h[..|h| - 1];
      Projection(before, name, client, pending)
      + FramesOf(h[|h| - 1], name, client, PendingAfter(before, pending))
  }

  // The board's value for a name: the last one stored.
  function Announced(values: seq<Announcement>, name: string): Option<(Value, int)> {
    if values == [] then None
    else
      var last := values[|values| - 1];
      if last.name == name then Some((last.value, last.ts)) else Announced(values[..|values| - 1], name)
  }

  function StoredBy(op: Op, name: string): Option<(Value, int)> {
    match op
    case Write(n, v, ts, _) => if n == name then Some((v, ts)) else None
    case Announce(values) => Announced(values, name)
  }

  ghost function StoredAt(h: seq<Op>, name: string): Option<(Value, int)> {
    if h == [] then None
    else
      var last := StoredBy(h[|h| - 1], name);
      if last.Some? then last else StoredAt(h[..|h| - 1], name)
  }

  // Whether the most recent store of the name was the client's own write.
  ghost predicate LastStoreIsOwn(h: seq<Op>, name: string, client: string) {
    h != [] &&
    var last := h[|h| - 1];
    if StoredBy(last, name).Some? then last.Write? && OwnWrite(last.origin, client)
    else LastStoreIsOwn(h[..|h| - 1], name, client)
  }

  // The value a subscriber ends up with: the last one any frame carried.
  ghost function Carried(frames: seq<Frame>): Option<(Value, int)> {
    if frames == [] then None
    else
      var last := frames[|frames| - 1];
      if last.value.Some? then Some((last.value.value, last.ts)) else Carried(frames[..|frames| - 1])
  }

  ghost function Missing(frames: seq<Frame>): nat {
    if frames == [] then 0
    else
      Missing(frames[..|frames| - 1])
      + (if frames[|frames| - 1].kind.LastValueMissing? then 1 else 0)
  }

  // The frame Subscribe answers with, and whether it leaves a verdict owed.
  function FirstFrame(name: string, stored: Option<(Value, int)>, steady: bool): Frame {
    if stored.Some? then LastValueFrame(name, stored.value.0, stored.value.1)
    else BareFrame(name, if steady then LastValueMissing else ThingUnavailable)
  }

  predicate OwesVerdict(stored: Option<(Value, int)>, steady: bool) {
    stored.None? && !steady
  }

  // ---------- Counting verdicts ----------

  lemma {:induction false} MissingConcat(a: seq<Frame>, b: seq<Frame>)
    ensures Missing(a + b) == Missing(a) + Missing(b)
  {
    if b == [] {
      assert a + b == a;
    } else {
      var n := |b| - 1;
      assert (a + b)[..|a + b| - 1] == a + b[..n];
      MissingConcat(a, b[..n]);
    }
  }

  lemma {:induction false} HitsCarry(values: seq<Announcement>, name: string)
    ensures Missing(HitFrames(values, name)) == 0
    ensures Carried(HitFrames(values, name)) == Announced(values, name)
    ensures HitFrames(values, name) == [] <==> Announced(values, name).None?
  {
    if values != [] {
      var before, last := values[..|values| - 1], values[|values| - 1];
      HitsCarry(before, name);
      if last.name == name {
        var hits := HitFrames(before, name);
        var f := LastValueFrame(name, last.value, last.ts);
        assert (hits + [f])[..|hits|] == hits;
      } else {
        assert HitFrames(before, name) + [] == HitFrames(before, name);
      }
    }
  }

  lemma {:induction false} MissingInProjection(h: seq<Op>, name: string, client: string, pending: bool)
    ensures Missing(Projection(h, name, client, pending)) <= if pending then 1 else 0
    ensures PendingAfter(h, pending) ==> Missing(Projection(h, name, client, pending)) == 0
  {
    if h != [] {
      var before, op := h[..|h| - 1], h[|h| - 1];
      MissingInProjection(before, name, client, pending);
      var p := PendingAfter(before, pending);
      MissingConcat(Projection(before, name, client, pending), FramesOf(op, name, client, p));
      match op {
        case Write(n, v, ts, _) =>
          assert Missing([UpdateFrame(n, v, ts)]) == Missing([]);
        case Announce(values) =>
          HitsCarry(values, name);
          assert Missing([BareFrame(name, LastValueMissing)]) == Missing([]) + 1;
      }
    }
  }

  // Over its whole life a subscription is told at most once that no value exists.
  lemma AtMostOneMissing(h: seq<Op>, name: string, client: string, stored: Option<(Value, int)>, steady: bool)
    ensures Missing([FirstFrame(name, stored, steady)]
                    + Projection(h, name, client, OwesVerdict(stored, steady))) <= 1
  {
    var first := FirstFrame(name, stored, steady);
    MissingConcat([first], Projection(h, name, client, OwesVerdict(stored, steady)));
    assert [first][..0] == [];
    MissingInProjection(h, name, client, OwesVerdict(stored, steady));
  }

  // ---------- Convergence ----------

  lemma {:induction false} CarriedConcat(a: seq<Frame>, b: seq<Frame>)
    ensures Carried(a + b) == if Carried(b).Some? then Carried(b) else Carried(a)
  {
    if b == [] {
      assert a + b == a;
    } else {
      var n := |b| - 1;
      assert (a + b)[..|a + b| - 1] == a + b[..n];
      CarriedConcat(a, b[..n]);
    }
  }

  lemma FrameCarries(op: Op, name: string, client: string, pending: bool)
    ensures Carried(FramesOf(op, name, client, pending))
            == if op.Write? && OwnWrite(op.origin, client) then None else StoredBy(op, name)
  {
    match op
    case Write(n, v, ts, _) =>
      assert [UpdateFrame(n, v, ts)][..0] == [];
    case Announce(values) =>
      HitsCarry(values, name);
      assert [BareFrame(name, LastValueMissing)][..0] == [];
  }

  // The value a subscriber should hold: the last store but for the client's own writes since
  // it subscribed.
  ghost function StoredByOthers(before: seq<Op>, h: seq<Op>, name: string, client: string): Option<(Value, int)> {
    if h == [] then StoredAt(before, name)
    else
      var op := h[|h| - 1];
      if StoredBy(op, name).Some? && !(op.Write? && OwnWrite(op.origin, client)) then StoredBy(op, name)
      else StoredByOthers(before, h[..|h| - 1], name, client)
  }

  // A subscriber that has received everything holds exactly that value.
  lemma {:induction false} Converges(before: seq<Op>, h: seq<Op>, name: string, client: string, steady: bool)
    ensures var stored := StoredAt(before, name);
            Carried([FirstFrame(name, stored, steady)]
                    + Projection(h, name, client, OwesVerdict(stored, steady)))
            == StoredByOthers(before, h, name, client)
  {
    var stored := StoredAt(before, name);
    var first, owes := [FirstFrame(name, stored, steady)], OwesVerdict(stored, steady);
    if h == [] {
      assert first + Projection(h, name, client, owes) == first;
      assert first[..0] == [];
    } else {
      var init, op := h[..|h| - 1], h[|h| - 1];
      var frames := FramesOf(op, name, client, PendingAfter(init, owes));
      assert first + Projection(h, name, client, owes) == (first + Projection(init, name, client, owes)) + frames;
      CarriedConcat(first + Projection(init, name, client, owes), frames);
      FrameCarries(op, name, client, PendingAfter(init, owes));
      Converges(before, init, name, client, steady);
    }
  }

  // It is the board's value unless the last store since it subscribed was its own write.
  lemma {:induction false} OthersStoredLast(before: seq<Op>, h: seq<Op>, name: string, client: string)
    requires !LastStoreIsOwn(h, name, client)
    ensures StoredByOthers(before, h, name, client) == StoredAt(before + h, name)
  {
    if h == [] {
      assert before + h == before;
    } else {
      assert (before + h)[..|before + h| - 1] == before + h[..|h| - 1];
      if StoredBy(h[|h| - 1], name).None? {
        OthersStoredLast(before, h[..|h| - 1], name, client);
      }
    }
  }
}
