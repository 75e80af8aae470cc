/** The packet published for a locally set value: the whole property it belongs to. */
module PropertyPacket {
  import opened Common
  import opened Names
  import opened Values
  import opened Senml
  import opened SenmlRoundTrip
  import SenmlCode
  import RegistryCode

  // What is before the first colon of an attribute's name.
  function PropertyOf(name: string): (r: Option<string>)
    ensures r.Some? ==> r.value + ":" <= name && ':' !in r.value
    ensures r.Some? <==> ':' in name
  {
    if name == "" then None
    else if name[0] == ':' then Some("")
    else
      match PropertyOf(name[1..])
      case None => None
      case Some(p) => Some([name[0]] + p)
  }

  predicate IsSet(reg: RegistryCode.Registry, n: string) reads reg {
    n in reg.vars && reg.vars[n].ts != 0
  }

  // An attribute of the property with a value of its own.
  predicate Sibling(reg: RegistryCode.Registry, prop: string, n: string) reads reg {
    prop + ":" <= n && IsSet(reg, n)
  }

  ghost predicate Alone(reg: RegistryCode.Registry, name: string) reads reg {
    PropertyOf(name).None? || forall n :: !Sibling(reg, PropertyOf(name).value, n)
  }

  // The value travelling under a name: the one just set, or the registry's.
  function Travelling(reg: RegistryCode.Registry, name: string, value: Value, n: string): Value reads reg {
    if n != name && n in reg.vars && reg.vars[n].value.Some? then reg.vars[n].value.value else value
  }

  // Whether SenML can carry everything that travels.
  ghost predicate Carriable(reg: RegistryCode.Registry, name: string, value: Value) reads reg {
    if Alone(reg, name) then HasSenmlType(value)
    else forall n | Sibling(reg, PropertyOf(name).value, n) :: HasSenmlType(Travelling(reg, name, value, n))
  }

  ghost predicate IsPacket(reg: RegistryCode.Registry, name: string, value: Value, vs: seq<Variable>) reads reg {
    && DistinctKeys(vs, VariableName)
    && (forall v <- vs :: v.stamp == ABSENT && v.value == Travelling(reg, name, value, v.name))
    && if Alone(reg, name) then vs == [Variable(name, value, ABSENT)]
       else forall n :: (exists v :: v in vs && v.name == n) <==> Sibling(reg, PropertyOf(name).value, n)
  }

  ghost predicate Found(reg: RegistryCode.Registry, prop: string, siblings: seq<RegistryCode.Variable>) reads reg {
    forall n | Sibling(reg, prop, n) :: exists k :: 0 <= k < |siblings| && siblings[k].name == n
  }

  method Packet(reg: RegistryCode.Registry, name: string, value: Value) returns (vs: seq<Variable>)
    requires reg.Valid()
    ensures IsPacket(reg, name, value, vs) && WholeProperty(reg, name, value, vs)
  {
    vs := Siblings(reg, name, value);
    PacketIsWholeProperty(reg, name, value, vs);
  }

  method Siblings(reg: RegistryCode.Registry, name: string, value: Value) returns (vs: seq<Variable>)
    requires reg.Valid()
    ensures IsPacket(reg, name, value, vs)
  {
    var prop := PropertyOf(name);
    if prop.None? {
      return [Variable(name, value, ABSENT)];
    }
    var siblings := reg.WithPrefix(prop.value + ":");
    assert Found(reg, prop.value, siblings) by {
      forall n | Sibling(reg, prop.value, n) ensures exists k :: 0 <= k < |siblings| && siblings[k].name == n {
        assert RegistryCode.Variable(n, reg.vars[n].value, reg.vars[n].ts) in siblings;
      }
    }
    if |siblings| == 0 {
      return [Variable(name, value, ABSENT)];
    }
    assert siblings[0] in siblings && Sibling(reg, prop.value, siblings[0].name);
    forall k | 0 <= k < |siblings|
      ensures Sibling(reg, prop.value, siblings[k].name) && siblings[k].value == reg.vars[siblings[k].name].value
      ensures siblings[k].value.Some?
    {
      assert siblings[k] in siblings;
    }
    vs := Substitute(siblings, name, value);
    PacketOf(reg, name, value, prop.value, siblings, vs);
  }

  // The siblings with the value just set in place of the stored one.
  method Substitute(siblings: seq<RegistryCode.Variable>, name: string, value: Value) returns (vs: seq<Variable>)
    requires forall k :: 0 <= k < |siblings| ==> siblings[k].value.Some?
    ensures |vs| == |siblings|
    ensures forall k :: 0 <= k < |vs| ==>
              vs[k] == Variable(siblings[k].name,
                                if siblings[k].name == name then value else siblings[k].value.value, ABSENT)
  {
    vs := [];
    for i := 0 to |siblings|
      invariant |vs| == i
      invariant forall k :: 0 <= k < i ==>
          vs[k] == Variable(siblings[k].name,
                            if siblings[k].name == name then value else siblings[k].value.value, ABSENT)
    {
      var val := siblings[i].value;
      if siblings[i].name == name {
        val := Some(value);
      }
      vs := vs + [Variable(siblings[i].name, val.value, ABSENT)];
    }
  }

  lemma PacketOf(reg: RegistryCode.Registry, name: string, value: Value, prop: string,
                 siblings: seq<RegistryCode.Variable>, vs: seq<Variable>)
    requires PropertyOf(name) == Some(prop) && Found(reg, prop, siblings) && |vs| == |siblings| > 0
    requires DistinctKeys(siblings, RegistryCode.NameOf)
    requires forall k :: 0 <= k < |siblings| ==>
               Sibling(reg, prop, siblings[k].name) && siblings[k].value == reg.vars[siblings[k].name].value
               && siblings[k].value.Some?
    requires forall k :: 0 <= k < |vs| ==>
               vs[k] == Variable(siblings[k].name,
                                if siblings[k].name == name then value else siblings[k].value.value, ABSENT)
    ensures IsPacket(reg, name, value, vs)
  {
    assert Sibling(reg, prop, siblings[0].name);
    forall n ensures (exists v :: v in vs && v.name == n) <==> Sibling(reg, prop, n) {
      if Sibling(reg, prop, n) {
        var k :| 0 <= k < |siblings| && siblings[k].name == n;
        assert vs[k] in vs;
      }
    }
    forall i, j | 0 <= i < j < |vs| ensures VariableName(vs[i]) != VariableName(vs[j]) {
      assert RegistryCode.NameOf(siblings[i]) != RegistryCode.NameOf(siblings[j]);
    }
  }

  // A value just stored is always in its own packet.
  lemma OwnValueTravels(reg: RegistryCode.Registry, name: string, value: Value, vs: seq<Variable>)
    requires IsPacket(reg, name, value, vs) && IsSet(reg, name)
    ensures Variable(name, value, ABSENT) in vs
  {
    if !Alone(reg, name) {
      assert Sibling(reg, PropertyOf(name).value, name);
      var v :| v in vs && v.name == name;
      assert v == Variable(name, value, ABSENT);
    }
  }

  // Written out: what travels under another name is stored there and shares the part before the
  // colon, and whatever is stored under that part travels, the value just set in its own place.
  ghost predicate WholeProperty(reg: RegistryCode.Registry, name: string, value: Value, vs: seq<Variable>) reads reg {
    && (forall v <- vs :: v.stamp == ABSENT && (v.name == name ==> v.value == value))
    && (forall v <- vs :: v.name != name ==>
          && v.name in reg.vars && reg.vars[v.name].ts != 0 && reg.vars[v.name].value == Some(v.value)
          && exists prop :: ':' !in prop && prop + ":" <= name && prop + ":" <= v.name)
    && (forall prop, n ::
          ':' !in prop && prop + ":" <= name && prop + ":" <= n && n in reg.vars && reg.vars[n].ts != 0 ==>
            exists v :: v in vs && v.name == n)
  }

  lemma PrefixIsProperty(prop: string, name: string)
    requires ':' !in prop && prop + ":" <= name
    ensures PropertyOf(name) == Some(prop)
  {
    Cuts(prop, name[|prop| + 1..]);
    assert name == prop + ":" + name[|prop| + 1..];
  }

  lemma PacketIsWholeProperty(reg: RegistryCode.Registry, name: string, value: Value, vs: seq<Variable>)
    requires reg.Valid() && IsPacket(reg, name, value, vs)
    ensures WholeProperty(reg, name, value, vs)
  {
    forall v | v in vs && v.name != name
      ensures v.name in reg.vars && reg.vars[v.name].ts != 0 && reg.vars[v.name].value == Some(v.value)
      ensures exists prop :: ':' !in prop && prop + ":" <= name && prop + ":" <= v.name
    {
      assert Sibling(reg, PropertyOf(name).value, v.name);
    }
    forall prop, n | ':' !in prop && prop + ":" <= name && prop + ":" <= n && n in reg.vars && reg.vars[n].ts != 0
      ensures exists v :: v in vs && v.name == n
    {
      PrefixIsProperty(prop, name);
      assert Sibling(reg, prop, n);
    }
  }

  lemma PacketIsSendable(reg: RegistryCode.Registry, name: string, value: Value, vs: seq<Variable>)
    requires reg.Valid() && IsPacket(reg, name, value, vs)
    ensures vs != [] && forall v <- vs :: Countable(v.stamp) && Restorable(v.stamp) && (name != "" ==> v.name != "")
  {
    if !Alone(reg, name) {
      var prop := PropertyOf(name).value;
      var n :| Sibling(reg, prop, n);
      assert exists v :: v in vs && v.name == n;
      forall v | v in vs ensures v.name != "" {
        assert Sibling(reg, prop, v.name);
        assert |prop + ":"| > 0;
      }
    }
  }

  lemma CarriableExactly(reg: RegistryCode.Registry, name: string, value: Value, vs: seq<Variable>)
    requires reg.Valid() && IsPacket(reg, name, value, vs)
    ensures Supported(vs) <==> Carriable(reg, name, value)
  {
    if !Alone(reg, name) {
      var prop := PropertyOf(name).value;
      if Supported(vs) {
        forall n | Sibling(reg, prop, n) ensures HasSenmlType(Travelling(reg, name, value, n)) {
          var v :| v in vs && v.name == n;
        }
      } else {
        var v :| v in vs && !HasSenmlType(v.value);
        assert Sibling(reg, prop, v.name);
      }
    }
  }

  // Once the value is stored, as it is before every publish: it and its siblings decide.
  lemma StoredDecides(reg: RegistryCode.Registry, name: string, value: Value)
    requires IsSet(reg, name)
    ensures Carriable(reg, name, value)
            <==> && HasSenmlType(value)
                 && (PropertyOf(name).Some? ==>
                       forall n | Sibling(reg, PropertyOf(name).value, n) ::
                         n == name || HasSenmlType(Travelling(reg, name, value, n)))
  {
    if PropertyOf(name).Some? {
      assert Sibling(reg, PropertyOf(name).value, name);
    }
  }

  // Nothing goes out exactly when something travelling is null, an array or an object.
  // Otherwise whoever decodes the payload gets the complete property.
  method Publish(fl: real -> real, reg: RegistryCode.Registry, name: string, value: Value)
    returns (packet: seq<Variable>, payload: Option<Payload>)
    requires reg.Valid() && KeepsIntegers(fl)
    ensures IsPacket(reg, name, value, packet) && WholeProperty(reg, name, value, packet)
    ensures payload.Some? <==> Carriable(reg, name, value)
    ensures payload.Some? && name != "" ==> Decode(fl, payload.value) == Some(SortBy(packet, VariableName))
  {
    packet := Packet(reg, name, value);
    payload := SenmlCode.EncodeBatch(fl, packet);
    PacketIsSendable(reg, name, value, packet);
    CarriableExactly(reg, name, value, packet);
    if payload.Some? && name != "" {
      RoundTripExactly(fl, packet, payload);
    }
  }

  // The property of an attribute's name is all up to its first colon.
  lemma {:induction false} Cuts(prop: string, attribute: string)
    requires ':' !in prop
    ensures PropertyOf(prop + ":" + attribute) == Some(prop)
  {
    var name := prop + ":" + attribute;
    if prop != "" {
      assert name[1..] == prop[1..] + ":" + attribute;
      Cuts(prop[1..], attribute);
      assert prop == [prop[0]] + prop[1..];
    }
  }

  // While an attribute holds such a value, no other attribute of its property is published.
  lemma OneAttributeBlocksTheRest(reg: RegistryCode.Registry, prop: string, bad: string, good: string, value: Value)
    requires ':' !in prop && bad != good && IsSet(reg, prop + ":" + bad)
    requires var held := reg.vars[prop + ":" + bad].value; held.Some? && !HasSenmlType(held.value)
    ensures !Carriable(reg, prop + ":" + good, value)
  {
    var stuck, name := prop + ":" + bad, prop + ":" + good;
    assert stuck != name by {
      assert stuck[|prop| + 1..] == bad && name[|prop| + 1..] == good;
    }
    Cuts(prop, good);
    assert Sibling(reg, prop, stuck);
    assert !HasSenmlType(Travelling(reg, name, value, stuck));
  }
}
