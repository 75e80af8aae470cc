/** The CBOR writer and reader as the code runs them: buffers grown in loops. */
module CborCode {
  import opened Common
  import opened Bytes
  import opened Cbor
  import opened CborPanics

  // The ranges Go's types give the values; maps and short floats are typed but not written.
  predicate Typed(v: Value) {
    match v
    case Int(i) => -TWO_63 <= i < TWO_63
    case Uint(u) => u < TWO_64
    case Double(bits) => bits < TWO_64
    case Text(t) => |t| < TWO_64
    case Bytes(b) => |b| < TWO_64
    case Tag(n, c) => n < TWO_64 && Typed(c)
    case Array(items) => |items| < TWO_64 && forall x <- items :: Typed(x)
    case _ => true
  }

  // Appends the encoding to the buffer, or reports a value it cannot write.
  method AppendValue(b: seq<byte>, v: Value) returns (r: Option<seq<byte>>)
    requires Typed(v)
    ensures r.Some? <==> Encodable(v)
    ensures r.Some? ==> r.value == b + Encode(v)
    ensures r.Some? ==> |r.value| > |b| && Announces(r.value[|b|], v)
    decreases v
  {
    KindIsWritten(v);
    match v {
      case Tag(n, c) =>
        r := AppendValue(b + EncodeHead(MAJOR_TAG, n), c);
        if r.Some? {
          assert b + EncodeHead(MAJOR_TAG, n) + Encode(c) == b + (EncodeHead(MAJOR_TAG, n) + Encode(c));
        }
      case Array(items) => r := AppendArray(b, items, v);
      case Map(_) => r := None;
      case Single(_) => r := None;
      case Half(_) => r := None;
      case _ => r := Some(b + Encode(v));             // the scalar writers
    }
  }

  method AppendArray(b: seq<byte>, items: seq<Value>, ghost v: Value) returns (r: Option<seq<byte>>)
    requires v == Array(items) && |items| < TWO_64 && forall x <- items :: Typed(x)
    ensures r.Some? <==> forall x <- items :: Encodable(x)
    ensures r.Some? ==> r.value == b + (EncodeHead(MAJOR_ARRAY, |items|) + EncodeItems(items))
    decreases v, 0
  {
    var head := b + EncodeHead(MAJOR_ARRAY, |items|);
    var buf := head;
    for i := 0 to |items|
      invariant forall x <- items[..i] :: Encodable(x)
      invariant buf == head + EncodeItems(items[..i])
    {
      r := AppendValue(buf, items[i]);
      if r.None? {
        return;
      }
      assert items[..i + 1] == items[..i] + [items[i]];
      ItemsSnoc(items[..i], items[i]);
      buf := r.value;
    }
    assert items[..|items|] == items;
    r := Some(buf);
  }

  lemma {:induction false} ItemsSnoc(items: seq<Value>, x: Value)
    requires (forall y <- items :: Encodable(y)) && Encodable(x)
    ensures EncodeItems(items + [x]) == EncodeItems(items) + Encode(x)
  {
    if items == [] {
      assert [x][1..] == [];
      assert items + [x] == [x];
    } else {
      assert (items + [x])[1..] == items[1..] + [x];
      ItemsSnoc(items[1..], x);
    }
  }

  // ---------- Reading ----------

  // A value and what follows it, an error, or the end of the program.
  datatype Outcome<T> = Got(value: T, rest: seq<byte>) | Refused | Panicked

  ghost function Result<T>(panics: bool, r: Read<T>): Outcome<T> {
    if panics then Panicked
    else
      match r
      case None => Refused
      case Some((v, rest)) => Got(v, rest)
  }

  function Returned<T>(r: Read<T>): Outcome<T> {
    if r.None? then Refused else Got(r.value.0, r.value.1)
  }

  method ReadValue(data: seq<byte>) returns (r: Outcome<Value>)
    ensures r == Result(Panics(data), DecodeValue(data))
    ensures r.Got? ==> data != [] && Announces(data[0], r.value)
    decreases |data|, 0
  {
    KindIsRead(data);
    if data == [] || Info(data[0]) == 31 {
      return Refused;
    }
    if Major(data[0]) == MAJOR_SIMPLE {
      return Returned(DecodeSimple(data));
    }
    if Info(data[0]) > 27 {
      return Refused;
    }
    var head := DecodeArg(data);
    if head.None? {
      return Refused;
    }
    r := ReadContent(Major(data[0]), head.value.0, head.value.1);
  }

  method ReadContent(major: nat, arg: nat, rest: seq<byte>) returns (r: Outcome<Value>)
    ensures r == Result(PanicsContent(major, arg, rest), DecodeContent(major, arg, rest))
    decreases |rest|, 5
  {
    if major == MAJOR_UINT || major == MAJOR_NEGINT {
      return Returned(DecodeContent(major, arg, rest));
    }
    if major == MAJOR_TAG {
      var c := ReadValue(rest);
      return if c.Got? then Got(Tag(arg, c.value), c.rest) else c;
    }
    if arg > |rest| {
      return Refused;
    }
    if major == MAJOR_TEXT || major == MAJOR_BYTES {
      return Returned(DecodeContent(major, arg, rest));
    }
    if major == MAJOR_ARRAY {
      var items := ReadItems(arg, rest);
      match items {
        case Got(vs, more) => return Got(Array(vs), more);
        case Refused => return Refused;
        case Panicked => return Panicked;
      }
    }
    var pairs := ReadPairs(arg, rest);
    match pairs {
      case Got(ps, more) => r := Got(Map(ps), more);
      case Refused => r := Refused;
      case Panicked => r := Panicked;
    }
  }

  // Elements already read, in front of what the rest reads as.
  ghost function Prefixed<T>(out: seq<T>, r: Outcome<seq<T>>): Outcome<seq<T>> {
    if r.Got? then Got(out + r.value, r.rest) else r
  }

  lemma PrefixedByNothing<T>(r: Outcome<seq<T>>)
    ensures Prefixed([], r) == r
  {
    if r.Got? {
      assert [] + r.value == r.value;
    }
  }

  lemma PrefixedByOne<T>(out: seq<T>, x: T, r: Outcome<seq<T>>)
    ensures Prefixed(out, Prefixed([x], r)) == Prefixed(out + [x], r)
  {
    if r.Got? {
      assert out + ([x] + r.value) == (out + [x]) + r.value;
    }
  }

  ghost predicate ItemsRead(n: nat, data: seq<byte>, r: Outcome<seq<Value>>) {
    r == Result(PanicsItems(n, data), DecodeItems(n, data))
  }

  // Whatever the items left read as, the whole reads as that behind the items read.
  ghost predicate ItemsLeft(spec: Outcome<seq<Value>>, out: seq<Value>, left: nat, rest: seq<byte>) {
    forall r :: ItemsRead(left, rest, r) ==> spec == Prefixed(out, r)
  }

  lemma ItemsEnd(spec: Outcome<seq<Value>>, out: seq<Value>, rest: seq<byte>)
    requires ItemsLeft(spec, out, 0, rest)
    ensures spec == Got(out, rest)
  {
    assert ItemsRead(0, rest, Got([], rest));
    assert out + [] == out;
  }

  lemma ItemFailed(spec: Outcome<seq<Value>>, out: seq<Value>, left: nat, rest: seq<byte>)
    requires left > 0 && ItemsLeft(spec, out, left, rest)
    ensures Panics(rest) ==> spec == Panicked
    ensures !Panics(rest) && DecodeValue(rest).None? ==> spec == Refused
  {
    assert ItemsRead(left, rest, Result(PanicsItems(left, rest), DecodeItems(left, rest)));
  }

  lemma ItemGot(spec: Outcome<seq<Value>>, out: seq<Value>, left: nat, rest: seq<byte>, v: Value, more: seq<byte>)
    requires left > 0 && ItemsLeft(spec, out, left, rest) && !Panics(rest) && DecodeValue(rest) == Some((v, more))
    ensures ItemsLeft(spec, out + [v], left - 1, more)
  {
    forall r | ItemsRead(left - 1, more, r) ensures spec == Prefixed(out + [v], r) {
      OneMoreItem(left, rest, v, more, r);
      PrefixedByOne(out, v, r);
    }
  }

  lemma OneMoreItem(n: nat, data: seq<byte>, v: Value, rest: seq<byte>, r: Outcome<seq<Value>>)
    requires n > 0 && !Panics(data) && DecodeValue(data) == Some((v, rest)) && ItemsRead(n - 1, rest, r)
    ensures ItemsRead(n, data, Prefixed([v], r))
  {
    ItemsStep(n, data, v, rest);
  }

  method ReadItems(n: nat, data: seq<byte>) returns (r: Outcome<seq<Value>>)
    ensures r == Result(PanicsItems(n, data), DecodeItems(n, data))
    decreases |data|, 4
  {
    ghost var spec := Result(PanicsItems(n, data), DecodeItems(n, data));
    PrefixedByNothing(spec);
    r := ReadItemsFrom(spec, n, data);
  }

  method ReadItemsFrom(ghost spec: Outcome<seq<Value>>, n: nat, data: seq<byte>) returns (r: Outcome<seq<Value>>)
    requires ItemsLeft(spec, [], n, data)
    ensures r == spec
    decreases |data|, 3
  {
    var out, rest, left := [], data, n;
    while left > 0
      invariant |rest| <= |data| && ItemsLeft(spec, out, left, rest)
    {
      var stop: Option<Outcome<seq<Value>>>;
      stop, out, rest := TakeItem(spec, out, left, rest);
      if stop.Some? {
        return stop.value;
      }
      left := left - 1;
    }
    ItemsEnd(spec, out, rest);
    r := Got(out, rest);
  }

  // An error or a panic inside ends the whole.
  function Stopped<T, U>(r: Outcome<T>): Outcome<U> {
    if r.Panicked? then Panicked else Refused
  }

  method TakeItem(ghost spec: Outcome<seq<Value>>, out: seq<Value>, ghost left: nat, rest: seq<byte>)
    returns (stop: Option<Outcome<seq<Value>>>, out': seq<Value>, rest': seq<byte>)
    requires left > 0 && ItemsLeft(spec, out, left, rest)
    ensures stop.Some? ==> spec == stop.value
    ensures stop.None? ==> |rest'| <= |rest| && ItemsLeft(spec, out', left - 1, rest')
    decreases |rest|, 1
  {
    stop, out', rest' := None, out, rest;
    var item := ReadValue(rest);
    if item.Got? {
      ItemGot(spec, out, left, rest, item.value, item.rest);
      out', rest' := out + [item.value], item.rest;
    } else {
      ItemFailed(spec, out, left, rest);
      stop := Some(Stopped(item));
    }
  }

  ghost predicate PairsRead(n: nat, data: seq<byte>, r: Outcome<seq<(Value, Value)>>) {
    r == Result(PanicsPairs(n, data), DecodePairs(n, data))
  }

  // The same for the pairs of a map.
  ghost predicate PairsLeft(spec: Outcome<seq<(Value, Value)>>, out: seq<(Value, Value)>, left: nat, rest: seq<byte>) {
    forall r :: PairsRead(left, rest, r) ==> spec == Prefixed(out, r)
  }

  lemma PairsEnd(spec: Outcome<seq<(Value, Value)>>, out: seq<(Value, Value)>, rest: seq<byte>)
    requires PairsLeft(spec, out, 0, rest)
    ensures spec == Got(out, rest)
  {
    assert PairsRead(0, rest, Got([], rest));
    assert out + [] == out;
  }

  lemma PairFailed(spec: Outcome<seq<(Value, Value)>>, out: seq<(Value, Value)>, left: nat, rest: seq<byte>)
    requires left > 0 && PairsLeft(spec, out, left, rest)
    ensures PanicsPairs(left, rest) ==> spec == Panicked
    ensures !PanicsPairs(left, rest) && DecodePairs(left, rest).None? ==> spec == Refused
  {
    assert PairsRead(left, rest, Result(PanicsPairs(left, rest), DecodePairs(left, rest)));
  }

  lemma PairGot(spec: Outcome<seq<(Value, Value)>>, out: seq<(Value, Value)>, left: nat, rest: seq<byte>,
                k: Value, mid: seq<byte>, v: Value, more: seq<byte>)
    requires left > 0 && PairsLeft(spec, out, left, rest) && Hashable(k)
    requires !Panics(rest) && DecodeValue(rest) == Some((k, mid))
    requires !Panics(mid) && DecodeValue(mid) == Some((v, more))
    ensures PairsLeft(spec, out + [(k, v)], left - 1, more)
  {
    forall r | PairsRead(left - 1, more, r) ensures spec == Prefixed(out + [(k, v)], r) {
      OneMorePair(left, rest, k, mid, v, more, r);
      PrefixedByOne(out, (k, v), r);
    }
  }

  lemma OneMorePair(n: nat, data: seq<byte>, k: Value, mid: seq<byte>, v: Value, rest: seq<byte>,
                    r: Outcome<seq<(Value, Value)>>)
    requires n > 0 && Hashable(k) && !Panics(data) && DecodeValue(data) == Some((k, mid))
    requires !Panics(mid) && DecodeValue(mid) == Some((v, rest)) && PairsRead(n - 1, rest, r)
    ensures PairsRead(n, data, Prefixed([(k, v)], r))
  {
    PairsStep(n, data, k, mid, v, rest);
  }

  method ReadPairs(n: nat, data: seq<byte>) returns (r: Outcome<seq<(Value, Value)>>)
    ensures r == Result(PanicsPairs(n, data), DecodePairs(n, data))
    decreases |data|, 4
  {
    ghost var spec := Result(PanicsPairs(n, data), DecodePairs(n, data));
    PrefixedByNothing(spec);
    r := ReadPairsFrom(spec, n, data);
  }

  method ReadPairsFrom(ghost spec: Outcome<seq<(Value, Value)>>, n: nat, data: seq<byte>)
    returns (r: Outcome<seq<(Value, Value)>>)
    requires PairsLeft(spec, [], n, data)
    ensures r == spec
    decreases |data|, 3
  {
    var out, rest, left := [], data, n;
    while left > 0
      invariant |rest| <= |data| && PairsLeft(spec, out, left, rest)
    {
      var stop: Option<Outcome<seq<(Value, Value)>>>;
      stop, out, rest := TakePair(spec, out, left, rest);
      if stop.Some? {
        return stop.value;
      }
      left := left - 1;
    }
    PairsEnd(spec, out, rest);
    r := Got(out, rest);
  }

  method TakePair(ghost spec: Outcome<seq<(Value, Value)>>, out: seq<(Value, Value)>, ghost left: nat, rest: seq<byte>)
    returns (stop: Option<Outcome<seq<(Value, Value)>>>, out': seq<(Value, Value)>, rest': seq<byte>)
    requires left > 0 && PairsLeft(spec, out, left, rest)
    ensures stop.Some? ==> spec == stop.value
    ensures stop.None? ==> |rest'| <= |rest| && PairsLeft(spec, out', left - 1, rest')
    decreases |rest|, 2
  {
    stop, out', rest' := None, out, rest;
    ghost var mid;
    var pair;
    pair, mid := ReadPair(left, rest);
    if pair.Got? {
      PairGot(spec, out, left, rest, pair.value.0, mid, pair.value.1, pair.rest);
      out', rest' := out + [pair.value], pair.rest;
    } else {
      PairFailed(spec, out, left, rest);
      stop := Some(Stopped(pair));
    }
  }

  // A key, its value, and the store into the map.
  method ReadPair(ghost left: nat, data: seq<byte>) returns (r: Outcome<(Value, Value)>, ghost mid: seq<byte>)
    requires left > 0
    ensures r.Refused? ==> DecodePairs(left, data).None? && !PanicsPairs(left, data)
    ensures r.Panicked? ==> PanicsPairs(left, data)
    ensures r.Got? ==> Hashable(r.value.0) && !Panics(data) && DecodeValue(data) == Some((r.value.0, mid))
    ensures r.Got? ==> !Panics(mid) && DecodeValue(mid) == Some((r.value.1, r.rest))
    decreases |data|, 1
  {
    var k := ReadValue(data);
    if !k.Got? {
      return if k.Refused? then Refused else Panicked, [];
    }
    mid := k.rest;
    var v := ReadValue(k.rest);
    if !v.Got? {
      return if v.Refused? then Refused else Panicked, mid;
    }
    r := if Hashable(k.value) then Got((k.value, v.value), v.rest) else Panicked;
  }
}
