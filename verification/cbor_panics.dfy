/**
 Where the reader neither returns a value nor an error: it stores each map pair in a Go map,
 and a key that cannot be hashed stops the program.
 */
module CborPanics {
  import opened Common
  import opened Bytes
  import opened Cbor

  // Byte strings, arrays and maps are slices and maps in Go; a tag is as hashable as its content.
  predicate Hashable(v: Value) {
    match v
    case Bytes(_) => false
    case Array(_) => false
    case Map(_) => false
    case Tag(_, c) => Hashable(c)
    case _ => true
  }

  predicate KeysHashable(v: Value)
    decreases v, 0
  {
    match v
    case Tag(_, c) => KeysHashable(c)
    case Array(items) => ItemsHashable(items)
    case Map(pairs) => PairsHashable(pairs)
    case _ => true
  }

  predicate ItemsHashable(items: seq<Value>)
    decreases items, 1
  {
    items == [] || (KeysHashable(items[0]) && ItemsHashable(items[1..]))
  }

  predicate PairHashable(p: (Value, Value))
    decreases p, 0
  {
    Hashable(p.0) && KeysHashable(p.0) && KeysHashable(p.1)
  }

  predicate PairsHashable(ps: seq<(Value, Value)>)
    decreases ps, 1
  {
    ps == [] || (PairHashable(ps[0]) && PairsHashable(ps[1..]))
  }

  // Whether reading stops the program, in the order the bytes are read: an error met first is
  // returned instead.
  predicate Panics(data: seq<byte>)
    decreases |data|, 0
  {
    && data != [] && Major(data[0]) != MAJOR_SIMPLE && Info(data[0]) <= 27
    && DecodeArg(data).Some?
    && PanicsContent(Major(data[0]), DecodeArg(data).value.0, DecodeArg(data).value.1)
  }

  predicate PanicsContent(major: nat, arg: nat, rest: seq<byte>)
    decreases |rest|, arg + 2
  {
    if major <= MAJOR_NEGINT then false
    else if major == MAJOR_TAG then Panics(rest)
    else if arg > |rest| || major == MAJOR_TEXT || major == MAJOR_BYTES then false
    else if major == MAJOR_ARRAY then PanicsItems(arg, rest)
    else PanicsPairs(arg, rest)
  }

  predicate PanicsItems(n: nat, data: seq<byte>)
    decreases |data|, n + 1
  {
    n > 0 && (Panics(data) || (DecodeValue(data).Some? && PanicsItems(n - 1, DecodeValue(data).value.1)))
  }

  predicate PanicsPairs(n: nat, data: seq<byte>)
    decreases |data|, n + 1
  {
    n > 0 &&
    (Panics(data) ||
     (DecodeValue(data).Some? && PanicsValue(n, DecodeValue(data).value.0, DecodeValue(data).value.1)))
  }

  // The key has been read; the pair is stored after its value has been read too.
  predicate PanicsValue(n: nat, k: Value, data: seq<byte>)
    requires n > 0
    decreases |data|, n + 1
  {
    Panics(data) || (DecodeValue(data).Some? && (!Hashable(k) || PanicsPairs(n - 1, DecodeValue(data).value.1)))
  }

  // On bytes that are a well-formed value the reader panics exactly when some map in it has a
  // key that is, or is a tag around, a byte string, an array or a map.
  lemma {:induction false} PanicsExactly(data: seq<byte>, v: Value, rest: seq<byte>)
    requires DecodeValue(data) == Some((v, rest))
    ensures Panics(data) <==> !KeysHashable(v)
    decreases |data|, 0
  {
    if Major(data[0]) != MAJOR_SIMPLE {
      var (arg, more) := DecodeArg(data).value;
      ContentPanicsExactly(Major(data[0]), arg, more, v, rest);
    } else {
      SimpleIsSafe(data);
    }
  }

  lemma SimpleIsSafe(data: seq<byte>)
    requires data != [] && DecodeSimple(data).Some?
    ensures KeysHashable(DecodeSimple(data).value.0)
  {
  }

  lemma {:induction false} ContentPanicsExactly(major: nat, arg: nat, data: seq<byte>, v: Value, rest: seq<byte>)
    requires DecodeContent(major, arg, data) == Some((v, rest))
    ensures PanicsContent(major, arg, data) <==> !KeysHashable(v)
    decreases |data|, arg + 3
  {
    if major == MAJOR_TAG {
      PanicsExactly(data, v.content, rest);
    } else if major == MAJOR_ARRAY {
      ItemsPanicExactly(arg, data, v.items, rest);
    } else if major != MAJOR_UINT && major != MAJOR_NEGINT && major != MAJOR_TEXT && major != MAJOR_BYTES {
      PairsPanicExactly(arg, data, v.pairs, rest);
    }
  }

  lemma ItemsHashableCons(v: Value, vs: seq<Value>)
    ensures ItemsHashable([v] + vs) <==> KeysHashable(v) && ItemsHashable(vs)
  {
    assert ([v] + vs)[1..] == vs;
  }

  lemma PairsHashableCons(p: (Value, Value), ps: seq<(Value, Value)>)
    ensures PairsHashable([p] + ps) <==> PairHashable(p) && PairsHashable(ps)
  {
    assert ([p] + ps)[1..] == ps;
  }

  // The items and pairs after one that was read.
  lemma ItemsStep(n: nat, data: seq<byte>, v: Value, rest: seq<byte>)
    requires n > 0 && DecodeValue(data) == Some((v, rest))
    ensures PanicsItems(n, data) <==> Panics(data) || PanicsItems(n - 1, rest)
  {
  }

  lemma PairsStep(n: nat, data: seq<byte>, k: Value, mid: seq<byte>, v: Value, rest: seq<byte>)
    requires n > 0 && DecodeValue(data) == Some((k, mid)) && DecodeValue(mid) == Some((v, rest))
    ensures PanicsPairs(n, data) <==> Panics(data) || Panics(mid) || !Hashable(k) || PanicsPairs(n - 1, rest)
  {
  }

  lemma ItemsNext(n: nat, data: seq<byte>, v: Value, rest: seq<byte>, more: seq<Value>)
    requires n > 0 && DecodeValue(data) == Some((v, rest)) && (Panics(data) <==> !KeysHashable(v))
    requires PanicsItems(n - 1, rest) <==> !ItemsHashable(more)
    ensures PanicsItems(n, data) <==> !ItemsHashable([v] + more)
  {
    ItemsStep(n, data, v, rest);
    ItemsHashableCons(v, more);
  }

  lemma PairsNext(n: nat, data: seq<byte>, k: Value, mid: seq<byte>, v: Value, rest: seq<byte>, more: seq<(Value, Value)>)
    requires n > 0 && DecodeValue(data) == Some((k, mid)) && DecodeValue(mid) == Some((v, rest))
    requires (Panics(data) <==> !KeysHashable(k)) && (Panics(mid) <==> !KeysHashable(v))
    requires PanicsPairs(n - 1, rest) <==> !PairsHashable(more)
    ensures PanicsPairs(n, data) <==> !PairsHashable([(k, v)] + more)
  {
    PairsStep(n, data, k, mid, v, rest);
    PairsHashableCons((k, v), more);
  }

  lemma DecodedItems(n: nat, data: seq<byte>, vs: seq<Value>, end: seq<byte>)
    returns (v: Value, rest: seq<byte>, more: seq<Value>)
    requires n > 0 && DecodeItems(n, data) == Some((vs, end))
    ensures DecodeValue(data) == Some((v, rest)) && |rest| < |data| && vs == [v] + more
    ensures DecodeItems(n - 1, rest) == Some((more, end))
  {
    var first := DecodeValue(data).value;
    v, rest := first.0, first.1;
    more := DecodeItems(n - 1, rest).value.0;
  }

  lemma {:induction false} ItemsPanicExactly(n: nat, data: seq<byte>, vs: seq<Value>, end: seq<byte>)
    requires DecodeItems(n, data) == Some((vs, end))
    ensures PanicsItems(n, data) <==> !ItemsHashable(vs)
    decreases |data|, n + 1
  {
    if n == 0 {
    } else {
      var v, rest, more := DecodedItems(n, data, vs, end);
      ItemsPanicExactly(n - 1, rest, more, end);
      PanicsExactly(data, v, rest);
      ItemsNext(n, data, v, rest, more);
    }
  }

  lemma DecodedPairs(n: nat, data: seq<byte>, ps: seq<(Value, Value)>, end: seq<byte>)
    returns (k: Value, mid: seq<byte>, v: Value, rest: seq<byte>, more: seq<(Value, Value)>)
    requires n > 0 && DecodePairs(n, data) == Some((ps, end))
    ensures DecodeValue(data) == Some((k, mid)) && DecodeValue(mid) == Some((v, rest))
    ensures |rest| < |data| && |mid| < |data| && ps == [(k, v)] + more
    ensures DecodePairs(n - 1, rest) == Some((more, end))
  {
    var first := DecodeValue(data).value;
    k, mid := first.0, first.1;
    var second := DecodeValue(mid).value;
    v, rest := second.0, second.1;
    more := DecodePairs(n - 1, rest).value.0;
  }

  lemma {:induction false} PairPanicsExactly(data: seq<byte>, k: Value, mid: seq<byte>, v: Value, rest: seq<byte>)
    requires |mid| < |data| && DecodeValue(data) == Some((k, mid)) && DecodeValue(mid) == Some((v, rest))
    ensures (Panics(data) <==> !KeysHashable(k)) && (Panics(mid) <==> !KeysHashable(v))
    decreases |data|, 1
  {
    PanicsExactly(data, k, mid);
    PanicsExactly(mid, v, rest);
  }

  lemma {:induction false} PairsPanicExactly(n: nat, data: seq<byte>, ps: seq<(Value, Value)>, end: seq<byte>)
    requires DecodePairs(n, data) == Some((ps, end))
    ensures PanicsPairs(n, data) <==> !PairsHashable(ps)
    decreases |data|, n + 2
  {
    if n == 0 {
    } else {
      var k, mid, v, rest, more := DecodedPairs(n, data, ps, end);
      LaterPairs(n, data, rest, more, end);
      PairPanicsExactly(data, k, mid, v, rest);
      PairsNext(n, data, k, mid, v, rest, more);
    }
  }

  lemma {:induction false} LaterPairs(n: nat, data: seq<byte>, rest: seq<byte>, more: seq<(Value, Value)>, end: seq<byte>)
    requires n > 0 && |rest| < |data| && DecodePairs(n - 1, rest) == Some((more, end))
    ensures PanicsPairs(n - 1, rest) <==> !PairsHashable(more)
    decreases |data|, n
  {
    PairsPanicExactly(n - 1, rest, more, end);
  }

  // Nothing the writer writes stops the reader.
  lemma WrittenIsSafe(v: Value, rest: seq<byte>)
    requires Encodable(v)
    ensures !Panics(Encode(v) + rest)
  {
    RoundTrip(v, rest);
    WrittenKeys(v);
    PanicsExactly(Encode(v) + rest, Normal(v), rest);
  }

  lemma {:induction false} WrittenKeys(v: Value)
    requires Encodable(v)
    ensures KeysHashable(Normal(v))
    decreases v, 0
  {
    match v
    case Tag(_, c) => WrittenKeys(c);
    case Array(items) => WrittenItems(items);
    case Null =>
    case Bool(_) =>
    case Int(_) =>
    case Uint(_) =>
    case Double(_) =>
    case Text(_) =>
    case Bytes(_) =>
  }

  lemma {:induction false} WrittenItems(items: seq<Value>)
    requires forall x <- items :: Encodable(x)
    ensures ItemsHashable(NormalItems(items))
    decreases items, 1
  {
    if items != [] {
      WrittenKeys(items[0]);
      WrittenItems(items[1..]);
      assert ([Normal(items[0])] + NormalItems(items[1..]))[1..] == NormalItems(items[1..]);
    }
  }

  function Untagged(v: Value): Value {
    if v.Tag? then Untagged(v.content) else v
  }

  lemma {:induction false} HashableExactly(v: Value)
    ensures Hashable(v) <==> !Untagged(v).Bytes? && !Untagged(v).Array? && !Untagged(v).Map?
    ensures Untagged(Normal(v)).Bytes? == Untagged(v).Bytes? && Untagged(Normal(v)).Array? == Untagged(v).Array?
    ensures Untagged(Normal(v)).Map? == Untagged(v).Map?
  {
    if v.Tag? {
      HashableExactly(v.content);
    }
  }

  lemma {:induction false} UntaggedIsEncodable(v: Value)
    requires Encodable(v)
    ensures Encodable(Untagged(v))
  {
    if v.Tag? {
      UntaggedIsEncodable(v.content);
    }
  }

  lemma OnePair(body: seq<byte>, k: Value, mid: seq<byte>, v: Value)
    requires DecodeValue(body) == Some((k, mid)) && DecodeValue(mid) == Some((v, [])) && !Panics(body) && !Panics(mid)
    ensures Panics([0xA1] + body) <==> !Hashable(k)
  {
    HeadLayout(5, 1);
    HeadRoundTrip(5, 1, body);
    PairsStep(1, body, k, mid, v, []);
  }

  lemma HashableWhenWritten(k: Value)
    requires Encodable(k)
    ensures Hashable(Normal(k)) <==> !Untagged(k).Bytes? && !Untagged(k).Array?
  {
    HashableExactly(Normal(k));
    HashableExactly(k);
    UntaggedIsEncodable(k);
  }

  lemma PairIsRead(k: Value, v: Value)
    requires Encodable(k) && Encodable(v)
    ensures DecodeValue(Encode(k) + Encode(v)) == Some((Normal(k), Encode(v)))
    ensures DecodeValue(Encode(v)) == Some((Normal(v), []))
    ensures !Panics(Encode(k) + Encode(v)) && !Panics(Encode(v))
  {
    RoundTrip(k, Encode(v));
    RoundTrip(v, []);
    WrittenIsSafe(k, Encode(v));
    WrittenIsSafe(v, []);
    assert Encode(v) + [] == Encode(v);
  }

  // A map of one written pair: no value and no error exactly when the key is, under any tags, a
  // byte string or an array.
  lemma KeyPanicsExactly(k: Value, v: Value)
    requires Encodable(k) && Encodable(v)
    ensures Panics([0xA1] + (Encode(k) + Encode(v))) <==> Untagged(k).Bytes? || Untagged(k).Array?
  {
    PairIsRead(k, v);
    OnePair(Encode(k) + Encode(v), Normal(k), Encode(v), Normal(v));
    HashableWhenWritten(k);
  }

  // Any map of one pair whose key is a byte string: no value and no error.
  lemma ByteStringKeyPanics(key: seq<byte>, v: Value)
    requires |key| < TWO_64 && Encodable(v)
    ensures Panics(EncodeHead(5, 1) + (Encode(Bytes(key)) + Encode(v)))
  {
    var body := Encode(Bytes(key)) + Encode(v);
    RoundTrip(Bytes(key), Encode(v));
    RoundTrip(v, []);
    assert Encode(v) + [] == Encode(v);
    HeadRoundTrip(5, 1, body);
    PairsStep(1, body, Bytes(key), Encode(v), Normal(v), []);
  }
}
