/** From a property payload to the registry: what the Cloud FSM stores. */
module Inbound {
  import opened Common
  import opened Values
  import opened RegistrySpec
  import Senml

  // A payload as the SenML reader left it.
  datatype Properties = Empty | Unreadable | Decoded(values: seq<Announcement>)

  // Registry timestamps count from the zero time.
  function Announced(v: Senml.Variable): Announcement {
    Announcement(v.name, v.value, v.stamp - Senml.ABSENT)
  }

  function AnnouncedAll(vs: seq<Senml.Variable>): (r: seq<Announcement>)
    ensures |r| == |vs|
  {
    seq(|vs|, i requires 0 <= i < |vs| => Announced(vs[i]))
  }

  function PropertiesIn(fl: real -> real, payload: Senml.Payload): Properties {
    if payload.NoBytes? then Empty
    else
      match Senml.Decode(fl, payload)
      case None => Unreadable
      case Some(vs) => Decoded(AnnouncedAll(vs))
  }

  // The variables to store; an empty and an unreadable payload have none.
  function ValuesIn(p: Properties): seq<Announcement> {
    if p.Decoded? then p.values else []
  }

  function Writes(values: seq<Announcement>): (ops: seq<Op>)
    ensures |ops| == |values|
  {
    seq(|values|, i requires 0 <= i < |values| => Write(values[i].name, values[i].value, values[i].ts, ""))
  }

  // The registry operations of one payload, before zero timestamps are filled in: a live
  // payload is written value by value, an error ends it; last values always end in one
  // announcement.
  function OpsOf(p: Properties, isLastValues: bool): seq<Op> {
    if !isLastValues then (if p.Unreadable? then [] else Writes(ValuesIn(p)))
    else [Announce(ValuesIn(p))]
  }

  function Announcements(ops: seq<Op>): nat {
    if ops == [] then 0 else Announcements(ops[..|ops| - 1]) + (if ops[|ops| - 1].Announce? then 1 else 0)
  }

  lemma {:induction false} WritesAnnounceNothing(values: seq<Announcement>)
    ensures Announcements(Writes(values)) == 0
  {
    if values != [] {
      assert Writes(values)[..|values| - 1] == Writes(values[..|values| - 1]);
      WritesAnnounceNothing(values[..|values| - 1]);
    }
  }

  // Every exit of the last-values path announces once, and nothing when the payload could not
  // be read; a live payload never announces.
  lemma AnnouncedExactlyOnce(p: Properties, isLastValues: bool)
    ensures Announcements(OpsOf(p, isLastValues)) == if isLastValues then 1 else 0
    ensures isLastValues && !p.Decoded? ==> OpsOf(p, isLastValues) == [Announce([])]
  {
    if isLastValues {
      var ops := OpsOf(p, true);
      assert ops[..0] == [] && Announcements([]) == 0;
    } else if !p.Unreadable? {
      WritesAnnounceNothing(ValuesIn(p));
    }
  }
}

/** `applyProperties` over the registry and the SenML reader. */
module ApplyProperties {
  import opened Common
  import opened Values
  import opened RegistrySpec
  import opened Inbound
  import RegistryCode
  import Senml
  import SenmlCode

  function StampOp(op: Op, now: int): Op {
    match op
    case Write(n, v, ts, origin) => Write(n, v, RegistryCode.Stamp(ts, now), origin)
    case Announce(values) => Announce(RegistryCode.StampAll(values, now))
  }

  function StampOps(ops: seq<Op>, now: int): (r: seq<Op>)
    ensures |r| == |ops|
  {
    seq(|ops|, i requires 0 <= i < |ops| => StampOp(ops[i], now))
  }

  // The time a decoded variable is stored under: its own, counted from year 1, or the present.
  function StoredTime(v: Senml.Variable, now: int): int {
    if v.stamp == -62_135_596_800_000_000_000 then now else v.stamp + 62_135_596_800_000_000_000
  }

  // Variable by variable: last values become one announcement, live values one write each.
  ghost predicate StoredAsDecoded(vs: seq<Senml.Variable>, ops: seq<Op>, isLastValues: bool, now: int) {
    if isLastValues then
      && |ops| == 1 && ops[0].Announce? && |ops[0].values| == |vs|
      && forall i :: 0 <= i < |vs| ==> ops[0].values[i] == Announcement(vs[i].name, vs[i].value, StoredTime(vs[i], now))
    else
      && |ops| == |vs|
      && forall i :: 0 <= i < |vs| ==> ops[i] == Write(vs[i].name, vs[i].value, StoredTime(vs[i], now), "")
  }

  ghost function VariablesIn(fl: real -> real, payload: Senml.Payload): seq<Senml.Variable> {
    if Senml.Decode(fl, payload).Some? then Senml.Decode(fl, payload).value else []
  }

  lemma OpsAreStoredAsDecoded(fl: real -> real, payload: Senml.Payload, isLastValues: bool, now: int)
    ensures StoredAsDecoded(VariablesIn(fl, payload), StampOps(OpsOf(PropertiesIn(fl, payload), isLastValues), now),
                            isLastValues, now)
  {
  }

  // The payload is decoded and its values stored; exactly the operations above reach the
  // registry, in order.
  method ApplyPayload(fl: real -> real, reg: RegistryCode.Registry, payload: Senml.Payload, isLastValues: bool, now: int)
    returns (failed: bool)
    requires reg.Valid() && now != 0
    modifies reg`vars, reg`history, reg.subs
    ensures reg.Valid() && (failed <==> PropertiesIn(fl, payload).Unreadable?)
    ensures reg.history == old(reg.history) + StampOps(OpsOf(PropertiesIn(fl, payload), isLastValues), now)
    ensures isLastValues ==> forall s <- reg.subs :: !s.pending
    ensures old(reg.history) <= reg.history
    ensures StoredAsDecoded(VariablesIn(fl, payload), reg.history[|old(reg.history)|..], isLastValues, now)
  {
    OpsAreStoredAsDecoded(fl, payload, isLastValues, now);
    var p := Empty;
    if !payload.NoBytes? {
      var vs := SenmlCode.DecodePayload(fl, payload);
      p := if vs.Some? then Decoded(AnnouncedAll(vs.value)) else Unreadable;
    }
    Store(reg, p, isLastValues, now);
    failed := p.Unreadable?;
    assert reg.history[|old(reg.history)|..] == StampOps(OpsOf(PropertiesIn(fl, payload), isLastValues), now);
  }

  method Store(reg: RegistryCode.Registry, p: Properties, isLastValues: bool, now: int)
    requires reg.Valid() && now != 0
    modifies reg`vars, reg`history, reg.subs
    ensures reg.Valid() && reg.history == old(reg.history) + StampOps(OpsOf(p, isLastValues), now)
    ensures isLastValues ==> forall s <- reg.subs :: !s.pending
  {
    if isLastValues {
      reg.ApplyLastValues(ValuesIn(p), now);
    } else if !p.Unreadable? {
      WriteEach(reg, ValuesIn(p), now);
    }
  }

  method WriteEach(reg: RegistryCode.Registry, values: seq<Announcement>, now: int)
    requires reg.Valid() && now != 0
    modifies reg`vars, reg`history, reg.subs
    ensures reg.Valid() && reg.history == old(reg.history) + StampOps(Writes(values), now)
  {
    for i := 0 to |values|
      invariant reg.Valid() && reg.history == old(reg.history) + StampOps(Writes(values[..i]), now)
    {
      reg.SetValue(values[i].name, values[i].value, values[i].ts, "", now);
      OneMore(values, i, now);
    }
    assert values[..|values|] == values;
  }

  lemma OneMore(values: seq<Announcement>, i: nat, now: int)
    requires i < |values|
    ensures var v := values[i];
            StampOps(Writes(values[..i + 1]), now)
            == StampOps(Writes(values[..i]), now) + [Write(v.name, v.value, RegistryCode.Stamp(v.ts, now), "")]
  {
  }
}
