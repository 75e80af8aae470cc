/**
 The reference SenML codec down to its bytes: a flat writer, and a reader that resolves bases
 in order. Numbers behind float bit patterns are the parameter num.
 */
module WireSenml {
  import opened Common
  import opened Bytes
  import opened Names
  import opened Values
  import C = Cbor
  import CborCode
  import CborPanics
  import S = Senml
  import SenmlBases

  const LABEL_BASE_NAME := -2
  const LABEL_BASE_TIME := -3
  const LABEL_NAME := 0
  const LABEL_VALUE := 2
  const LABEL_STRING := 3
  const LABEL_BOOL := 4
  const LABEL_TIME := 6
  const LABEL_DATA := 8

  // A value to send; the time is the bit pattern of a float64.
  datatype Entry = Entry(name: seq<byte>, value: C.Value, time: nat)

  type Pairs = seq<(C.Value, C.Value)>

  function Chars(bs: seq<byte>): (s: string)
    ensures |s| == |bs|
  {
    seq(|bs|, i requires 0 <= i < |bs| => bs[i] as char)
  }

  function KeyOf(e: Entry): string {
    Chars(e.name)
  }

  // ---------- Writing ----------

  predicate Carriable(v: C.Value) {
    (v.Int? || v.Double? || v.Text? || v.Bool?) && C.Encodable(v)
  }

  function LabelFor(v: C.Value): int {
    if v.Text? then LABEL_STRING else if v.Bool? then LABEL_BOOL else LABEL_VALUE
  }

  // What Go's types give every entry.
  predicate Fits(e: Entry) {
    |e.name| < C.TWO_64 && e.time < C.TWO_64 && CborCode.Typed(e.value)
  }

  predicate Writable(e: Entry) {
    e.name != [] && Carriable(e.value)
  }

  predicate AllWritable(es: seq<Entry>) {
    forall i :: 0 <= i < |es| ==> Fits(es[i]) && Writable(es[i])
  }

  function PairsOf(num: C.Value -> real, e: Entry): Pairs {
    [(C.Int(LABEL_NAME), C.Text(e.name)), (C.Int(LabelFor(e.value)), e.value)]
    + (if num(C.Double(e.time)) != 0.0 then [(C.Int(LABEL_TIME), C.Double(e.time))] else [])
  }

  predicate EncodablePairs(ps: Pairs) {
    forall i :: 0 <= i < |ps| ==> EncodablePair(ps[i])
  }

  // Written as is, and read back as written.
  predicate EncodablePair(p: (C.Value, C.Value)) {
    C.Encodable(p.0) && C.Encodable(p.1) && C.Normal(p.0) == p.0 && C.Normal(p.1) == p.1
  }

  function EncodePairs(ps: Pairs): (r: seq<byte>)
    requires EncodablePairs(ps)
    ensures |r| >= |ps|
  {
    if ps == [] then [] else C.Encode(ps[0].0) + C.Encode(ps[0].1) + EncodePairs(ps[1..])
  }

  lemma PairsAreEncodable(num: C.Value -> real, e: Entry)
    requires Fits(e) && Writable(e)
    ensures EncodablePairs(PairsOf(num, e))
  {
  }

  function EncodeRecord(num: C.Value -> real, e: Entry): (r: seq<byte>)
    requires Fits(e) && Writable(e)
    ensures r != []
  {
    PairsAreEncodable(num, e);
    C.EncodeHead(5, |PairsOf(num, e)|) + EncodePairs(PairsOf(num, e))
  }

  function EncodeRecords(num: C.Value -> real, es: seq<Entry>): (r: seq<byte>)
    requires AllWritable(es)
    ensures |r| >= |es|
  {
    if es == [] then [] else EncodeRecord(num, es[0]) + EncodeRecords(num, es[1..])
  }

  // ---------- Reading ----------

  datatype Field<T> = Absent | Present(v: T) | Wrong

  // A later pair with the same key replaces an earlier one.
  function Lookup(ps: Pairs, key: int): Option<C.Value> {
    if ps == [] then None
    else if ps[|ps| - 1].0 == C.Int(key) then Some(ps[|ps| - 1].1)
    else Lookup(ps[..|ps| - 1], key)
  }

  function TextAt(ps: Pairs, key: int): Field<string> {
    match Lookup(ps, key)
    case None => Absent
    case Some(v) => if v.Text? then Present(Chars(v.text)) else Wrong
  }

  predicate IsFloat(v: C.Value) {
    v.Double? || v.Single? || v.Half?
  }

  function FloatAt(num: C.Value -> real, fl: real -> real, ps: Pairs, key: int): Field<real> {
    match Lookup(ps, key)
    case None => Absent
    case Some(v) => if v.Int? then Present(fl(v.i as real)) else if IsFloat(v) then Present(num(v)) else Wrong
  }

  function NumberAt(num: C.Value -> real, ps: Pairs): Field<S.Number> {
    match Lookup(ps, LABEL_VALUE)
    case None => Absent
    case Some(v) => if v.Int? then Present(S.Int(v.i)) else if IsFloat(v) then Present(S.Float(num(v))) else Wrong
  }

  function BoolAt(ps: Pairs): Field<bool> {
    match Lookup(ps, LABEL_BOOL)
    case None => Absent
    case Some(v) => if v.Bool? then Present(v.b) else Wrong
  }

  function Maybe<T>(f: Field<T>): Option<T> {
    if f.Present? then Some(f.v) else None
  }

  // A record's time is only looked at when it has a value.
  function ParseRecord(num: C.Value -> real, fl: real -> real, v: C.Value): Option<S.Record> {
    if !v.Map? then None
    else
      var ps := v.pairs;
      var bn, bt, n := TextAt(ps, LABEL_BASE_NAME), FloatAt(num, fl, ps, LABEL_BASE_TIME), TextAt(ps, LABEL_NAME);
      var number, text, flag, data := NumberAt(num, ps), TextAt(ps, LABEL_STRING), BoolAt(ps), TextAt(ps, LABEL_DATA);
      var t := FloatAt(num, fl, ps, LABEL_TIME);
      var valued := number.Present? || text.Present? || flag.Present? || data.Present?;
      if bn.Wrong? || bt.Wrong? || n.Wrong? || number.Wrong? || text.Wrong? || flag.Wrong? || data.Wrong? then None
      else if valued && t.Wrong? then None
      else
        Some(S.Record(Maybe(bn), Maybe(bt), None, if n.Present? then n.v else "",
                      if valued && t.Present? then t.v else 0.0,
                      Maybe(number), Maybe(text), Maybe(flag), Maybe(data), None))
  }

  ghost predicate TextUnder(ps: Pairs, key: int, field: Option<string>) {
    match Lookup(ps, key)
    case None => field.None?
    case Some(v) => v.Text? && field == Some(Chars(v.text))
  }

  ghost predicate FloatUnder(num: C.Value -> real, fl: real -> real, ps: Pairs, key: int, field: Option<real>) {
    match Lookup(ps, key)
    case None => field.None?
    case Some(v) => (v.Int? && field == Some(fl(v.i as real))) || (IsFloat(v) && field == Some(num(v)))
  }

  // Where the fields of a record are read from: base name -2, base time -3, name 0, number 2,
  // string 3, boolean 4, time 6, data 8.
  lemma LabelsRead(num: C.Value -> real, fl: real -> real, ps: Pairs)
    requires ParseRecord(num, fl, C.Map(ps)).Some?
    ensures var r := ParseRecord(num, fl, C.Map(ps)).value;
            && TextUnder(ps, -2, r.baseName) && FloatUnder(num, fl, ps, -3, r.baseTime)
            && TextUnder(ps, 0, if Lookup(ps, 0).Some? then Some(r.name) else None)
            && (Lookup(ps, 0).None? ==> r.name == "")
            && TextUnder(ps, 3, r.text) && TextUnder(ps, 8, r.data)
            && (r.number.Some? <==> Lookup(ps, 2).Some?) && (r.flag.Some? <==> Lookup(ps, 4).Some?)
            && (r.number.Some? && Lookup(ps, 2).value.Int? ==> r.number == Some(S.Int(Lookup(ps, 2).value.i)))
            && (r.flag.Some? ==> Lookup(ps, 4) == Some(C.Bool(r.flag.value)))
            && (S.ValueFields(r) > 0 ==> FloatUnder(num, fl, ps, 6, if Lookup(ps, 6).Some? then Some(r.time) else None))
            && (Lookup(ps, 6).None? ==> r.time == 0.0)
  {
  }

  function ParseRecords(num: C.Value -> real, fl: real -> real, items: seq<C.Value>): Option<seq<S.Record>> {
    if items == [] then Some([])
    else
      match (ParseRecords(num, fl, items[..|items| - 1]), ParseRecord(num, fl, items[|items| - 1]))
      case (Some(rs), Some(r)) => Some(rs + [r])
      case (_, _) => None
  }

  function ReadItems(num: C.Value -> real, fl: real -> real, items: seq<C.Value>): Option<seq<S.Reading>> {
    match ParseRecords(num, fl, items)
    case None => None
    case Some(rs) => S.SequentialReadings(fl, rs)
  }

  function DecodeSenml(num: C.Value -> real, fl: real -> real, data: seq<byte>): Option<seq<S.Reading>> {
    match C.Decode(data)
    case None => None
    case Some(v) => if v.Array? then ReadItems(num, fl, v.items) else None
  }

  // ---------- Bytes to maps ----------

  lemma DecodeNextPair(n: nat, k: C.Value, v: C.Value, ps: Pairs, more: seq<byte>, rest: seq<byte>)
    requires EncodablePair((k, v)) && C.DecodePairs(n, more) == Some((ps, rest))
    ensures C.DecodePairs(n + 1, C.Encode(k) + (C.Encode(v) + more)) == Some(([(k, v)] + ps, rest))
  {
    C.RoundTrip(k, C.Encode(v) + more);
    C.RoundTrip(v, more);
  }

  lemma Rejoined(a: seq<byte>, b: seq<byte>, c: seq<byte>, d: seq<byte>)
    ensures a + b + c + d == a + (b + (c + d))
  {
  }

  lemma {:induction false} PairsRoundTrip(ps: Pairs, rest: seq<byte>)
    requires EncodablePairs(ps)
    ensures C.DecodePairs(|ps|, EncodePairs(ps) + rest) == Some((ps, rest))
  {
    if ps == [] {
      assert EncodePairs(ps) + rest == rest;
    } else {
      var k, v, more := ps[0].0, ps[0].1, EncodePairs(ps[1..]) + rest;
      assert ps[0] == (k, v);
      PairsRoundTrip(ps[1..], rest);
      DecodeNextPair(|ps| - 1, k, v, ps[1..], more, rest);
      Rejoined(C.Encode(k), C.Encode(v), EncodePairs(ps[1..]), rest);
      assert ps == [(k, v)] + ps[1..];
    }
  }

  lemma MapContent(n: nat, body: seq<byte>, ps: Pairs, rest: seq<byte>)
    requires n < C.TWO_64 && n <= |body| && C.DecodePairs(n, body) == Some((ps, rest))
    ensures C.DecodeContent(5, n, body) == Some((C.Map(ps), rest))
  {
  }

  lemma RecordRoundTrip(num: C.Value -> real, e: Entry, rest: seq<byte>)
    requires Fits(e) && Writable(e)
    ensures C.DecodeValue(EncodeRecord(num, e) + rest) == Some((C.Map(PairsOf(num, e)), rest))
  {
    var ps := PairsOf(num, e);
    PairsAreEncodable(num, e);
    var body := EncodePairs(ps) + rest;
    assert EncodeRecord(num, e) + rest == C.EncodeHead(5, |ps|) + body;
    PairsRoundTrip(ps, rest);
    C.HeadDispatch(5, |ps|, body);
    MapContent(|ps|, body, ps, rest);
  }

  function MapsOf(num: C.Value -> real, es: seq<Entry>): (ms: seq<C.Value>)
    ensures |ms| == |es|
  {
    seq(|es|, i requires 0 <= i < |es| => C.Map(PairsOf(num, es[i])))
  }

  lemma MapsCons(num: C.Value -> real, es: seq<Entry>)
    requires es != []
    ensures MapsOf(num, es) == [C.Map(PairsOf(num, es[0]))] + MapsOf(num, es[1..])
  {
  }

  lemma DecodeNext(n: nat, data: seq<byte>)
    ensures var first := C.DecodeValue(data);
            first.Some? && C.DecodeItems(n, first.value.1).Some? ==>
              var later := C.DecodeItems(n, first.value.1).value;
              C.DecodeItems(n + 1, data) == Some(([first.value.0] + later.0, later.1))
  {
  }

  lemma {:induction false} RecordsRoundTrip(num: C.Value -> real, es: seq<Entry>, rest: seq<byte>)
    requires AllWritable(es)
    ensures C.DecodeItems(|es|, EncodeRecords(num, es) + rest) == Some((MapsOf(num, es), rest))
  {
    if es == [] {
      assert EncodeRecords(num, es) + rest == rest;
    } else {
      var first, more := EncodeRecord(num, es[0]), EncodeRecords(num, es[1..]) + rest;
      assert EncodeRecords(num, es) + rest == first + more;
      RecordRoundTrip(num, es[0], more);
      RecordsRoundTrip(num, es[1..], rest);
      MapsCons(num, es);
      DecodeNext(|es| - 1, first + more);
    }
  }

  function Payload(num: C.Value -> real, es: seq<Entry>): seq<byte>
    requires |es| < C.TWO_64 && AllWritable(es)
  {
    C.EncodeHead(C.MAJOR_ARRAY, |es|) + EncodeRecords(num, es)
  }

  lemma PayloadRoundTrip(num: C.Value -> real, es: seq<Entry>)
    requires |es| < C.TWO_64 && AllWritable(es)
    ensures C.Decode(Payload(num, es)) == Some(C.Array(MapsOf(num, es)))
  {
    var body := EncodeRecords(num, es);
    assert body + [] == body;
    RecordsRoundTrip(num, es, []);
    C.HeadDispatch(C.MAJOR_ARRAY, |es|, body);
    C.ArrayContent(|es|, body, MapsOf(num, es), []);
  }

  // ---------- Maps to readings ----------

  function ValueIn(num: C.Value -> real, v: C.Value): Value
    requires Carriable(v)
  {
    match v
    case Int(i) => IntValue(i)
    case Double(_) => FloatValue(num(v))
    case Text(t) => StringValue(Chars(t))
    case Bool(b) => BoolValue(b)
  }

  function RecordIn(num: C.Value -> real, e: Entry): S.Record
    requires Carriable(e.value)
  {
    var blank := S.Record(None, None, None, Chars(e.name), num(C.Double(e.time)), None, None, None, None, None);
    match e.value
    case Int(i) => blank.(number := Some(S.Int(i)))
    case Double(_) => blank.(number := Some(S.Float(num(e.value))))
    case Text(t) => blank.(text := Some(Chars(t)))
    case Bool(b) => blank.(flag := Some(b))
  }

  // A key is found where it was written and nowhere else.
  lemma LookupIn(num: C.Value -> real, e: Entry, key: int)
    requires Carriable(e.value)
    ensures Lookup(PairsOf(num, e), key)
            == if key == LABEL_TIME && num(C.Double(e.time)) != 0.0 then Some(C.Double(e.time))
               else if key == LabelFor(e.value) then Some(e.value)
               else if key == LABEL_NAME then Some(C.Text(e.name))
               else None
  {
    var name, value := (C.Int(LABEL_NAME), C.Text(e.name)), (C.Int(LabelFor(e.value)), e.value);
    var time := (C.Int(LABEL_TIME), C.Double(e.time));
    assert [name, value, time][..2] == [name, value];
    assert [name, value][..1] == [name];
    assert [name][..0] == [];
    assert [name, value] + [] == [name, value];
    assert Lookup([name], key) == if key == LABEL_NAME then Some(C.Text(e.name)) else None;
    assert Lookup([name, value], key) == if key == LabelFor(e.value) then Some(e.value) else Lookup([name], key);
  }

  lemma RecordIsParsed(num: C.Value -> real, fl: real -> real, e: Entry)
    requires Carriable(e.value)
    ensures ParseRecord(num, fl, C.Map(PairsOf(num, e))) == Some(RecordIn(num, e))
  {
    LookupIn(num, e, LABEL_BASE_NAME);
    LookupIn(num, e, LABEL_BASE_TIME);
    LookupIn(num, e, LABEL_NAME);
    LookupIn(num, e, LABEL_VALUE);
    LookupIn(num, e, LABEL_STRING);
    LookupIn(num, e, LABEL_BOOL);
    LookupIn(num, e, LABEL_DATA);
    LookupIn(num, e, LABEL_TIME);
  }

  function RecordsIn(num: C.Value -> real, es: seq<Entry>): (rs: seq<S.Record>)
    requires AllWritable(es)
    ensures |rs| == |es|
  {
    seq(|es|, i requires 0 <= i < |es| => RecordIn(num, es[i]))
  }

  lemma ParseNext(num: C.Value -> real, fl: real -> real, items: seq<C.Value>, v: C.Value, rs: seq<S.Record>, r: S.Record)
    requires ParseRecords(num, fl, items) == Some(rs) && ParseRecord(num, fl, v) == Some(r)
    ensures ParseRecords(num, fl, items + [v]) == Some(rs + [r])
  {
    assert (items + [v])[..|items|] == items;
  }

  lemma Lasts(num: C.Value -> real, es: seq<Entry>)
    requires es != [] && AllWritable(es)
    ensures var k := |es| - 1;
            && MapsOf(num, es) == MapsOf(num, es[..k]) + [C.Map(PairsOf(num, es[k]))]
            && RecordsIn(num, es) == RecordsIn(num, es[..k]) + [RecordIn(num, es[k])]
            && ReadingsIn(num, es) == ReadingsIn(num, es[..k]) + [ReadingIn(num, es[k])]
  {
  }

  lemma {:induction false} RecordsAreParsed(num: C.Value -> real, fl: real -> real, es: seq<Entry>)
    requires AllWritable(es)
    ensures ParseRecords(num, fl, MapsOf(num, es)) == Some(RecordsIn(num, es))
  {
    if es != [] {
      var k := |es| - 1;
      RecordsAreParsed(num, fl, es[..k]);
      RecordIsParsed(num, fl, es[k]);
      Lasts(num, es);
      ParseNext(num, fl, MapsOf(num, es[..k]), C.Map(PairsOf(num, es[k])), RecordsIn(num, es[..k]), RecordIn(num, es[k]));
    }
  }

  function ReadingIn(num: C.Value -> real, e: Entry): S.Reading
    requires Carriable(e.value)
  {
    S.Reading(Chars(e.name), ValueIn(num, e.value), num(C.Double(e.time)))
  }

  function ReadingsIn(num: C.Value -> real, es: seq<Entry>): (rs: seq<S.Reading>)
    requires AllWritable(es)
    ensures |rs| == |es|
  {
    seq(|es|, i requires 0 <= i < |es| => ReadingIn(num, es[i]))
  }

  // Adding nothing to a float64 rounds nothing.
  ghost predicate KeepsFloats(num: C.Value -> real, fl: real -> real) {
    forall bits: nat :: fl(num(C.Double(bits))) == num(C.Double(bits))
  }

  lemma {:induction false} FlatBases(rs: seq<S.Record>)
    requires forall r <- rs :: r.baseName.None? && r.baseTime.None?
    ensures S.BaseNameInForce(rs) == "" && S.BaseTimeInForce(rs) == 0.0
  {
    if rs != [] {
      FlatBases(rs[..|rs| - 1]);
    }
  }

  lemma RecordReads(num: C.Value -> real, e: Entry)
    requires Writable(e)
    ensures var r := RecordIn(num, e);
            && S.ValueFields(r) == 1 && S.AnyField(r) == Some(ValueIn(num, e.value)) && r.name != ""
            && r.baseName.None? && r.baseTime.None? && r.baseSum.None? && r.data.None? && r.sum.None?
  {
    assert |Chars(e.name)| == |e.name|;
  }

  lemma RecordsAreFlat(num: C.Value -> real, es: seq<Entry>)
    requires AllWritable(es)
    ensures forall r <- RecordsIn(num, es) :: r.baseName.None? && r.baseTime.None?
    ensures SenmlBases.Plain(RecordsIn(num, es))
  {
    var rs := RecordsIn(num, es);
    forall i | 0 <= i < |rs|
      ensures rs[i].baseName.None? && rs[i].baseTime.None? && rs[i].baseSum.None? && rs[i].data.None? && rs[i].sum.None?
    {
      RecordReads(num, es[i]);
    }
  }

  lemma ReadNext(fl: real -> real, rs: seq<S.Record>, r: S.Record, out: seq<S.Reading>, v: Value)
    requires S.SequentialReadings(fl, rs) == Some(out) && S.ValueFields(r) == 1 && S.AnyField(r) == Some(v)
    requires S.BaseNameInForce(rs + [r]) == "" && S.BaseTimeInForce(rs + [r]) == 0.0 && r.name != ""
    ensures S.SequentialReadings(fl, rs + [r]) == Some(out + [S.Reading(r.name, v, fl(r.time))])
  {
    assert (rs + [r])[..|rs|] == rs;
    assert "" + r.name == r.name;
  }

  lemma {:induction false} FlatReadings(num: C.Value -> real, fl: real -> real, es: seq<Entry>)
    requires KeepsFloats(num, fl) && AllWritable(es)
    ensures S.SequentialReadings(fl, RecordsIn(num, es)) == Some(ReadingsIn(num, es))
  {
    if es != [] {
      var k := |es| - 1;
      FlatReadings(num, fl, es[..k]);
      RecordReads(num, es[k]);
      RecordsAreFlat(num, es);
      FlatBases(RecordsIn(num, es));
      Lasts(num, es);
      ReadNext(fl, RecordsIn(num, es[..k]), RecordIn(num, es[k]), ReadingsIn(num, es[..k]), ValueIn(num, es[k].value));
    }
  }

  // ---------- The round trip through bytes ----------

  predicate AllFit(es: seq<Entry>) {
    |es| < C.TWO_64 && forall i :: 0 <= i < |es| ==> Fits(es[i])
  }

  // Stable: entries of the same name keep their order.
  function EncodeSenml(num: C.Value -> real, es: seq<Entry>): Option<seq<byte>>
    requires AllFit(es)
  {
    SortedEntries(es);
    if AllWritable(es) then Some(Payload(num, SortBy(es, KeyOf))) else None
  }

  lemma SortedEntries(es: seq<Entry>)
    ensures |SortBy(es, KeyOf)| == |es|
    ensures AllFit(es) ==> AllFit(SortBy(es, KeyOf))
    ensures AllWritable(es) <==> AllWritable(SortBy(es, KeyOf))
  {
    SortByFits(es, KeyOf);
    SameMembers(es, SortBy(es, KeyOf));
    SameMembers(SortBy(es, KeyOf), es);
  }

  lemma SameMembers(es: seq<Entry>, s: seq<Entry>)
    requires multiset(es) == multiset(s)
    ensures |s| == |es| && (AllFit(es) ==> AllFit(s)) && (AllWritable(es) ==> AllWritable(s))
  {
    assert |multiset(s)| == |multiset(es)|;
    forall i | 0 <= i < |s| ensures exists k :: 0 <= k < |es| && es[k] == s[i] {
      assert s[i] in multiset(es);
    }
  }

  lemma {:induction false} MapsAreSafe(num: C.Value -> real, es: seq<Entry>)
    requires AllWritable(es)
    ensures CborPanics.ItemsHashable(MapsOf(num, es))
  {
    if es != [] {
      MapsCons(num, es);
      MapsAreSafe(num, es[1..]);
      PairsAreSafe(PairsOf(num, es[0]));
      assert MapsOf(num, es)[1..] == MapsOf(num, es[1..]);
    }
  }

  lemma {:induction false} PairsAreSafe(ps: Pairs)
    requires forall i :: 0 <= i < |ps| ==> ps[i].0.Int? && (Carriable(ps[i].1) || ps[i].1.Text? || ps[i].1.Double?)
    ensures CborPanics.PairsHashable(ps)
  {
    if ps != [] {
      PairsAreSafe(ps[1..]);
      var (k, v) := ps[0];
      assert k == ps[0].0 && v == ps[0].1;
      assert v.Int? || v.Double? || v.Text? || v.Bool?;
      assert CborPanics.KeysHashable(v);
    }
  }

  lemma PayloadIsSafe(num: C.Value -> real, es: seq<Entry>)
    requires |es| < C.TWO_64 && AllWritable(es)
    ensures !CborPanics.Panics(Payload(num, es))
  {
    PayloadRoundTrip(num, es);
    MapsAreSafe(num, es);
    CborPanics.PanicsExactly(Payload(num, es), C.Array(MapsOf(num, es)), []);
  }

  lemma PayloadIsRead(num: C.Value -> real, fl: real -> real, es: seq<Entry>)
    requires KeepsFloats(num, fl) && |es| < C.TWO_64 && AllWritable(es)
    ensures RecordsAt(num, fl, Payload(num, es)) == Some(RecordsIn(num, es))
    ensures DecodeSenml(num, fl, Payload(num, es)) == Some(ReadingsIn(num, es))
  {
    PayloadRoundTrip(num, es);
    RecordsAreParsed(num, fl, es);
    FlatReadings(num, fl, es);
  }

  // Every list of named, typed values comes back from its bytes sorted, with values and times
  // unchanged, and without a panic; any other list is refused.
  lemma BytesRoundTrip(num: C.Value -> real, fl: real -> real, es: seq<Entry>)
    requires KeepsFloats(num, fl) && AllFit(es)
    ensures EncodeSenml(num, es).Some? <==> AllWritable(es)
    ensures var sorted := SortBy(es, KeyOf);
            AllWritable(es) ==>
              && AllWritable(sorted)
              && !CborPanics.Panics(EncodeSenml(num, es).value)
              && DecodeSenml(num, fl, EncodeSenml(num, es).value) == Some(ReadingsIn(num, sorted))
  {
    SortedEntries(es);
    var sorted := SortBy(es, KeyOf);
    if AllWritable(es) {
      PayloadIsSafe(num, sorted);
      PayloadIsRead(num, fl, sorted);
    }
  }

  // The records a payload's bytes hold.
  function RecordsAt(num: C.Value -> real, fl: real -> real, data: seq<byte>): Option<seq<S.Record>> {
    match C.Decode(data)
    case None => None
    case Some(v) => if v.Array? then ParseRecords(num, fl, v.items) else None
  }

  // The bytes of a flat payload mean the same to the daemon.
  lemma FlatPayloadReadsTheSame(num: C.Value -> real, fl: real -> real, es: seq<Entry>)
    requires KeepsFloats(num, fl) && AllFit(es) && AllWritable(es)
    ensures var sorted, rs := SortBy(es, KeyOf), RecordsAt(num, fl, EncodeSenml(num, es).value);
            AllWritable(sorted) && rs.Some? && S.DaemonReadings(fl, rs.value) == Some(ReadingsIn(num, sorted))
  {
    SortedEntries(es);
    var sorted := SortBy(es, KeyOf);
    PayloadIsRead(num, fl, sorted);
    RecordsAreFlat(num, sorted);
    FlatReadings(num, fl, sorted);
    SenmlBases.BasesFirstMeansSame(fl, RecordsIn(num, sorted));
  }

  // ---------- The code ----------

  lemma {:induction false} EncodeRecordsSnoc(num: C.Value -> real, es: seq<Entry>, e: Entry)
    requires AllWritable(es) && Fits(e) && Writable(e)
    ensures EncodeRecords(num, es + [e]) == EncodeRecords(num, es) + EncodeRecord(num, e)
  {
    if es == [] {
      assert [e][1..] == [] && es + [e] == [e];
    } else {
      assert (es + [e])[1..] == es[1..] + [e];
      EncodeRecordsSnoc(num, es[1..], e);
    }
  }

  // One record: the map head counts the pairs that follow.
  method AppendRecord(num: C.Value -> real, b: seq<byte>, e: Entry) returns (r: Option<seq<byte>>)
    requires Fits(e)
    ensures r.Some? <==> Writable(e)
    ensures r.Some? ==> r.value == b + EncodeRecord(num, e)
  {
    if e.name == [] || !(e.value.Int? || e.value.Double? || e.value.Text? || e.value.Bool?) {
      return None;
    }
    PairsAreEncodable(num, e);
    ghost var ps := PairsOf(num, e);
    var timed := num(C.Double(e.time)) != 0.0;
    var count := 2;
    if timed {
      count := count + 1;
    }
    var buf := b + C.EncodeHead(5, count);
    buf := buf + C.EncodeInt(LABEL_NAME) + C.Encode(C.Text(e.name));
    var after := CborCode.AppendValue(buf + C.EncodeInt(LabelFor(e.value)), e.value);
    buf := after.value;
    if timed {
      buf := buf + C.EncodeInt(LABEL_TIME) + C.Encode(C.Double(e.time));
    }
    PairsSpelled(num, e, b, buf);
    r := Some(buf);
  }

  lemma PairsSpelled(num: C.Value -> real, e: Entry, b: seq<byte>, buf: seq<byte>)
    requires Fits(e) && Writable(e)
    requires var timed := num(C.Double(e.time)) != 0.0;
             buf == b + C.EncodeHead(5, if timed then 3 else 2) + C.EncodeInt(LABEL_NAME) + C.Encode(C.Text(e.name))
                    + C.EncodeInt(LabelFor(e.value)) + C.Encode(e.value)
                    + (if timed then C.EncodeInt(LABEL_TIME) + C.Encode(C.Double(e.time)) else [])
    ensures buf == b + EncodeRecord(num, e)
  {
    var ps, timed := PairsOf(num, e), num(C.Double(e.time)) != 0.0;
    var n, v := (C.Int(LABEL_NAME), C.Text(e.name)), (C.Int(LabelFor(e.value)), e.value);
    var t := (C.Int(LABEL_TIME), C.Double(e.time));
    PairsAreEncodable(num, e);
    if timed {
      assert ps == [n, v, t];
      ThreePairs(n, v, t);
      Joined(b, C.EncodeHead(5, 3), C.Encode(n.0), C.Encode(n.1), C.Encode(v.0), C.Encode(v.1),
             C.Encode(t.0) + C.Encode(t.1));
    } else {
      assert ps == [n, v];
      TwoPairs(n, v);
      Joined(b, C.EncodeHead(5, 2), C.Encode(n.0), C.Encode(n.1), C.Encode(v.0), C.Encode(v.1), []);
    }
  }

  // A record byte by byte, with the labels of section 6 of RFC 8428: a map of two or three pairs
  // with the name under 0, the value under 2, 3 or 4 by its type, and the time under 6.
  lemma RecordLayout(num: C.Value -> real, e: Entry)
    requires Fits(e) && Writable(e)
    ensures var timed := num(C.Double(e.time)) != 0.0;
            EncodeRecord(num, e)
            == [if timed then 0xA3 else 0xA2] + [0x00] + C.Encode(C.Text(e.name))
               + [if e.value.Text? then 0x03 else if e.value.Bool? then 0x04 else 0x02] + C.Encode(e.value)
               + (if timed then [0x06] + C.Encode(C.Double(e.time)) else [])
  {
    var timed := num(C.Double(e.time)) != 0.0;
    var head: seq<byte> := [if timed then 0xA3 else 0xA2];
    var name, value := C.Encode(C.Text(e.name)), C.Encode(e.value);
    var l: seq<byte> := [if e.value.Text? then 0x03 else if e.value.Bool? then 0x04 else 0x02];
    var tail: seq<byte> := if timed then [0x06] + C.Encode(C.Double(e.time)) else [];
    LabelBytes(e, timed);
    var buf := [] + head + [0x00] + name + l + value + tail;
    PairsSpelled(num, e, [], buf);
    SameJoin(head, [0x00], name, l, value, tail);
  }

  lemma LabelBytes(e: Entry, timed: bool)
    ensures C.EncodeHead(5, if timed then 3 else 2) == [if timed then 0xA3 else 0xA2]
    ensures C.EncodeInt(LABEL_NAME) == [0x00] && C.EncodeInt(LABEL_TIME) == [0x06]
    ensures C.EncodeInt(LabelFor(e.value)) == [if e.value.Text? then 0x03 else if e.value.Bool? then 0x04 else 0x02]
  {
    C.HeadLayout(5, if timed then 3 else 2);
    C.SmallNumber(LABEL_NAME, []);
    C.SmallNumber(LabelFor(e.value), []);
    C.SmallNumber(LABEL_TIME, []);
  }

  lemma SameJoin(a: seq<byte>, b: seq<byte>, c: seq<byte>, d: seq<byte>, e: seq<byte>, f: seq<byte>)
    ensures [] + a + b + c + d + e + f == a + b + c + d + e + f
  {
    assert [] + a == a;
  }

  lemma OnePair(t: (C.Value, C.Value))
    requires EncodablePair(t)
    ensures EncodePairs([t]) == C.Encode(t.0) + C.Encode(t.1)
  {
    assert [t][1..] == [];
  }

  lemma TwoPairs(n: (C.Value, C.Value), v: (C.Value, C.Value))
    requires EncodablePair(n) && EncodablePair(v)
    ensures EncodablePairs([n, v])
    ensures EncodePairs([n, v]) == C.Encode(n.0) + C.Encode(n.1) + (C.Encode(v.0) + C.Encode(v.1) + [])
  {
    OnePair(v);
    assert [n, v][1..] == [v];
  }

  lemma ThreePairs(n: (C.Value, C.Value), v: (C.Value, C.Value), t: (C.Value, C.Value))
    requires EncodablePair(n) && EncodablePair(v) && EncodablePair(t)
    ensures EncodablePairs([n, v, t])
    ensures EncodePairs([n, v, t])
            == C.Encode(n.0) + C.Encode(n.1) + (C.Encode(v.0) + C.Encode(v.1) + (C.Encode(t.0) + C.Encode(t.1)))
  {
    OnePair(t);
    assert [n, v, t][1..] == [v, t] && [v, t][1..] == [t];
  }

  lemma Joined(b: seq<byte>, h: seq<byte>, n: seq<byte>, name: seq<byte>, k: seq<byte>, v: seq<byte>, rest: seq<byte>)
    ensures b + h + n + name + k + v + rest == b + (h + (n + name + (k + v + rest)))
  {
  }

  method EncodeSenML(num: C.Value -> real, es: seq<Entry>) returns (r: Option<seq<byte>>)
    requires AllFit(es)
    ensures r == EncodeSenml(num, es)
  {
    SortedEntries(es);
    r := EncodeSorted(num, SortBy(es, KeyOf));
  }

  method EncodeSorted(num: C.Value -> real, sorted: seq<Entry>) returns (r: Option<seq<byte>>)
    requires AllFit(sorted)
    ensures r.Some? <==> AllWritable(sorted)
    ensures r.Some? ==> r.value == Payload(num, sorted)
  {
    var b := C.EncodeHead(C.MAJOR_ARRAY, |sorted|);
    ghost var head := b;
    for i := 0 to |sorted|
      invariant AllWritable(sorted[..i]) && b == head + EncodeRecords(num, sorted[..i])
    {
      var next := AppendRecord(num, b, sorted[i]);
      if next.None? {
        return None;
      }
      Extended(num, sorted, i, head);
      b := next.value;
    }
    assert sorted[..|sorted|] == sorted;
    r := Some(b);
  }

  lemma Extended(num: C.Value -> real, es: seq<Entry>, i: nat, head: seq<byte>)
    requires i < |es| && AllWritable(es[..i]) && Fits(es[i]) && Writable(es[i])
    ensures AllWritable(es[..i + 1])
    ensures head + EncodeRecords(num, es[..i]) + EncodeRecord(num, es[i]) == head + EncodeRecords(num, es[..i + 1])
  {
    var init, e := es[..i], es[i];
    assert es[..i + 1] == init + [e];
    EncodeRecordsSnoc(num, init, e);
    Rejoin(head, EncodeRecords(num, init), EncodeRecord(num, e));
  }

  lemma Rejoin(a: seq<byte>, b: seq<byte>, c: seq<byte>)
    ensures a + b + c == a + (b + c)
  {
  }

  // ---------- The reader's loop ----------

  lemma {:induction false} RefusedStays(num: C.Value -> real, fl: real -> real, items: seq<C.Value>, k: nat)
    requires k <= |items| && ReadItems(num, fl, items[..k]).None?
    ensures ReadItems(num, fl, items).None?
  {
    var n := |items|;
    if k == n {
      assert items[..k] == items;
    } else {
      assert items[..n - 1][..k] == items[..k];
      RefusedStays(num, fl, items[..n - 1], k);
      RefusedNext(num, fl, items);
    }
  }

  lemma RefusedNext(num: C.Value -> real, fl: real -> real, items: seq<C.Value>)
    requires items != [] && ReadItems(num, fl, items[..|items| - 1]).None?
    ensures ReadItems(num, fl, items).None?
  {
    var init := items[..|items| - 1];
    if ParseRecords(num, fl, items).Some? {
      var rs := ParseRecords(num, fl, items).value;
      assert rs[..|rs| - 1] == ParseRecords(num, fl, init).value;
    }
  }

  // The records parsed so far, the bases in force and the readings they give.
  ghost predicate Reached(num: C.Value -> real, fl: real -> real, items: seq<C.Value>,
                          rs: seq<S.Record>, base: string, time: real, out: seq<S.Reading>) {
    && ParseRecords(num, fl, items) == Some(rs) && S.SequentialReadings(fl, rs) == Some(out)
    && base == S.BaseNameInForce(rs) && time == S.BaseTimeInForce(rs)
  }

  // The next record either is refused or extends what has been reached.
  lemma ReachNext(num: C.Value -> real, fl: real -> real, items: seq<C.Value>, v: C.Value,
                  rs: seq<S.Record>, base: string, time: real, out: seq<S.Reading>)
    requires Reached(num, fl, items, rs, base, time, out)
    ensures var r := ParseRecord(num, fl, v);
            if r.None? then ReadItems(num, fl, items + [v]).None?
            else
              var base' := if r.value.baseName.Some? then r.value.baseName.value else base;
              var time' := if r.value.baseTime.Some? then r.value.baseTime.value else time;
              var name, field := base' + r.value.name, S.AnyField(r.value);
              if S.ValueFields(r.value) > 1 || (field.Some? && name == "") then ReadItems(num, fl, items + [v]).None?
              else Reached(num, fl, items + [v], rs + [r.value], base', time',
                           if field.None? then out else out + [S.Reading(name, field.value, fl(r.value.time + time'))])
  {
    assert (items + [v])[..|items|] == items;
    var r := ParseRecord(num, fl, v);
    if r.Some? {
      assert (rs + [r.value])[..|rs|] == rs;
    }
  }

  // The reader panics exactly where the CBOR reader does.
  method DecodeSenML(num: C.Value -> real, fl: real -> real, data: seq<byte>)
    returns (panicked: bool, r: Option<seq<S.Reading>>)
    ensures panicked <==> CborPanics.Panics(data)
    ensures !panicked ==> r == DecodeSenml(num, fl, data)
  {
    var read := CborCode.ReadValue(data);
    if !read.Got? || read.rest != [] || !read.value.Array? {
      return read.Panicked?, None;
    }
    panicked := false;
    r := ReadRecords(num, fl, read.value.items);
  }

  method ReadRecords(num: C.Value -> real, fl: real -> real, items: seq<C.Value>) returns (r: Option<seq<S.Reading>>)
    ensures r == ReadItems(num, fl, items)
  {
    var baseName, baseTime, out := "", 0.0, [];
    ghost var rs := [];
    for i := 0 to |items|
      invariant Reached(num, fl, items[..i], rs, baseName, baseTime, out)
    {
      assert items[..i + 1] == items[..i] + [items[i]];
      var ok;
      ok, baseName, baseTime, out, rs := TakeRecord(num, fl, items[i], baseName, baseTime, out, items[..i], rs);
      if !ok {
        RefusedStays(num, fl, items, i + 1);
        return None;
      }
    }
    assert items[..|items|] == items;
    r := Some(out);
  }

  // One round of the loop: the bases in force after the record, and its reading if it has one.
  method TakeRecord(num: C.Value -> real, fl: real -> real, v: C.Value, baseName: string, baseTime: real,
                    out: seq<S.Reading>, ghost before: seq<C.Value>, ghost rs: seq<S.Record>)
    returns (ok: bool, base': string, time': real, out': seq<S.Reading>, ghost rs': seq<S.Record>)
    requires Reached(num, fl, before, rs, baseName, baseTime, out)
    ensures if ok then Reached(num, fl, before + [v], rs', base', time', out')
            else ReadItems(num, fl, before + [v]).None?
  {
    ReachNext(num, fl, before, v, rs, baseName, baseTime, out);
    base', time', out', rs' := baseName, baseTime, out, rs;
    var record := ParseRecord(num, fl, v);
    if record.None? || S.ValueFields(record.value) > 1 {
      return false, base', time', out', rs';
    }
    if record.value.baseName.Some? {
      base' := record.value.baseName.value;
    }
    if record.value.baseTime.Some? {
      time' := record.value.baseTime.value;
    }
    rs' := rs + [record.value];
    var field := S.AnyField(record.value);
    if field.None? {
      return true, base', time', out', rs';
    }
    var name := base' + record.value.name;
    if name == "" {
      return false, base', time', out', rs';
    }
    out' := out + [S.Reading(name, field.value, fl(record.value.time + time'))];
    ok := true;
  }
}
