/** The hand-written CBOR reader and writer (section 3 of RFC 8949). */
module Cbor {
  import opened Common
  import opened Bytes

  const TWO_63: int := 0x8000_0000_0000_0000
  const TWO_64: int := 0x1_0000_0000_0000_0000

  const MAJOR_UINT := 0
  const MAJOR_NEGINT := 1
  const MAJOR_BYTES := 2
  const MAJOR_TEXT := 3
  const MAJOR_ARRAY := 4
  const MAJOR_TAG := 6
  const MAJOR_SIMPLE := 7

  // Floats are kept as the bit patterns of the width they were read in. A map is the list of
  // its pairs as read.
  datatype Value =
    | Null
    | Bool(b: bool)
    | Int(i: int)
    | Uint(u: nat)
    | Double(bits: nat)
    | Single(bits: nat)
    | Half(bits: nat)
    | Text(text: seq<byte>)
    | Bytes(bytes: seq<byte>)
    | Tag(number: nat, content: Value)
    | Array(items: seq<Value>)
    | Map(pairs: seq<(Value, Value)>)

  lemma Powers()
    ensures Pow256(1) == 0x100 && Pow256(2) == 0x1_0000 && Pow256(4) == 0x1_0000_0000 && Pow256(8) == TWO_64
  {
    assert Pow256(4) == 256 * Pow256(3);
    assert Pow256(6) == 256 * Pow256(5) == 65536 * Pow256(4);
    assert Pow256(8) == 256 * Pow256(7) == 65536 * Pow256(6);
  }

  // ---------- Heads ----------

  // How many argument bytes follow an initial byte with this additional information.
  function ArgBytes(ai: nat): nat {
    if ai < 24 then 0 else if ai == 24 then 1 else if ai == 25 then 2 else if ai == 26 then 4 else 8
  }

  // The shortest additional information that can carry the argument.
  function InfoFor(arg: nat): nat {
    if arg < 24 then arg
    else if arg <= 0xFF then 24
    else if arg <= 0xFFFF then 25
    else if arg <= 0xFFFF_FFFF then 26
    else 27
  }

  function EncodeHead(major: nat, arg: nat): (r: seq<byte>)
    requires major < 8 && arg < TWO_64
    ensures |r| == 1 + ArgBytes(InfoFor(arg))
  {
    Powers();
    [32 * major + InfoFor(arg)] + (if arg < 24 then [] else BigEndian(arg, ArgBytes(InfoFor(arg))))
  }

  function Major(b: byte): nat {
    b / 32
  }

  function Info(b: byte): nat {
    b % 32
  }

  // The argument of a head and what follows it; None when it is cut short.
  function DecodeArg(data: seq<byte>): (r: Option<(nat, seq<byte>)>)
    requires data != [] && Info(data[0]) <= 27
    ensures r.Some? ==> r.value.0 < TWO_64 && |r.value.1| < |data|
    ensures r.Some? ==> r.value.1 == data[|data| - |r.value.1|..]
  {
    var ai, rest := Info(data[0]), data[1..];
    var k := ArgBytes(ai);
    Powers();
    if ai < 24 then Some((ai, rest))
    else if |rest| < k then None
    else Some((FromBigEndian(rest[..k]), rest[k..]))
  }

  lemma HeadRoundTrip(major: nat, arg: nat, rest: seq<byte>)
    requires major < 8 && arg < TWO_64
    ensures var data := EncodeHead(major, arg) + rest;
            && Major(data[0]) == major && Info(data[0]) <= 27
            && DecodeArg(data) == Some((arg, rest))
  {
    Powers();
    var data, k := EncodeHead(major, arg) + rest, ArgBytes(InfoFor(arg));
    if arg < 24 {
      assert data[1..] == rest;
    } else {
      assert data[1..] == BigEndian(arg, k) + rest;
      assert data[1..][..k] == BigEndian(arg, k) && data[1..][k..] == rest;
      BigEndianRoundTrip(arg, k);
    }
  }

  // Among all heads the reader accepts for an argument, the writer's is the shortest
  // (section 4.2.1 of RFC 8949).
  lemma HeadIsShortest(data: seq<byte>)
    requires data != [] && Info(data[0]) <= 27 && DecodeArg(data).Some?
    ensures var (arg, rest) := DecodeArg(data).value;
            |EncodeHead(Major(data[0]), arg)| <= |data| - |rest|
  {
    Powers();
  }

  // ---------- Writing ----------

  predicate Encodable(v: Value) {
    match v
    case Null => true
    case Bool(_) => true
    case Int(i) => -TWO_63 <= i < TWO_63
    case Uint(u) => u < TWO_64
    case Double(bits) => bits < TWO_64
    case Text(t) => |t| < TWO_64
    case Bytes(b) => |b| < TWO_64
    case Tag(n, c) => n < TWO_64 && Encodable(c)
    case Array(items) => |items| < TWO_64 && forall x <- items :: Encodable(x)
    case _ => false
  }

  function EncodeInt(i: int): seq<byte>
    requires -TWO_63 <= i < TWO_63
  {
    if i < 0 then EncodeHead(MAJOR_NEGINT, -(i + 1)) else EncodeHead(MAJOR_UINT, i)
  }

  function Encode(v: Value): (r: seq<byte>)
    requires Encodable(v)
    ensures r != []
    decreases v, 0
  {
    Powers();
    match v
    case Null => [0xF6]
    case Bool(b) => [if b then 0xF5 else 0xF4]
    case Int(i) => EncodeInt(i)
    case Uint(u) => EncodeHead(MAJOR_UINT, u)
    case Double(bits) => [0xFB] + BigEndian(bits, 8)
    case Text(t) => EncodeHead(MAJOR_TEXT, |t|) + t
    case Bytes(b) => EncodeHead(MAJOR_BYTES, |b|) + b
    case Tag(n, c) => EncodeHead(MAJOR_TAG, n) + Encode(c)
    case Array(items) => EncodeHead(MAJOR_ARRAY, |items|) + EncodeItems(items)
  }

  function EncodeItems(items: seq<Value>): (r: seq<byte>)
    requires forall x <- items :: Encodable(x)
    ensures |r| >= |items|
    decreases items, 1
  {
    if items == [] then [] else Encode(items[0]) + EncodeItems(items[1..])
  }

  // ---------- Reading ----------

  type Read<T> = Option<(T, seq<byte>)>

  function DecodeValue(data: seq<byte>): (r: Read<Value>)
    ensures r.Some? ==> |r.value.1| < |data| && r.value.1 == data[|data| - |r.value.1|..]
    decreases |data|, 0
  {
    if data == [] || Info(data[0]) == 31 then None
    else if Major(data[0]) == MAJOR_SIMPLE then DecodeSimple(data)
    else if Info(data[0]) > 27 then None
    else
      match DecodeArg(data)
      case None => None
      case Some((arg, rest)) => DecodeContent(Major(data[0]), arg, rest)
  }

  // What follows a head of one of the major types 0 to 6.
  function DecodeContent(major: nat, arg: nat, rest: seq<byte>): (r: Read<Value>)
    ensures r.Some? ==> |r.value.1| <= |rest| && r.value.1 == rest[|rest| - |r.value.1|..]
    decreases |rest|, arg + 2
  {
    if major == MAJOR_UINT then Some((if arg >= TWO_63 then Uint(arg) else Int(arg), rest))
    else if major == MAJOR_NEGINT then (if arg >= TWO_63 then None else Some((Int(-1 - arg), rest)))
    else if major == MAJOR_TAG then
      match DecodeValue(rest)
      case None => None
      case Some((c, more)) => Some((Tag(arg, c), more))
    else if arg > |rest| then None
    else if major == MAJOR_TEXT then Some((Text(rest[..arg]), rest[arg..]))
    else if major == MAJOR_BYTES then Some((Bytes(rest[..arg]), rest[arg..]))
    else if major == MAJOR_ARRAY then
      match DecodeItems(arg, rest)
      case None => None
      case Some((items, more)) => Some((Array(items), more))
    else
      match DecodePairs(arg, rest)
      case None => None
      case Some((pairs, more)) => Some((Map(pairs), more))
  }

  function DecodeItems(n: nat, data: seq<byte>): (r: Read<seq<Value>>)
    ensures r.Some? ==> |r.value.1| <= |data| && r.value.1 == data[|data| - |r.value.1|..]
    ensures r.Some? ==> |r.value.0| == n
    decreases |data|, n + 1
  {
    if n == 0 then Some(([], data))
    else
      match DecodeValue(data)
      case None => None
      case Some((v, rest)) =>
        match DecodeItems(n - 1, rest)
        case None => None
        case Some((vs, more)) => Some(([v] + vs, more))
  }

  function DecodePairs(n: nat, data: seq<byte>): (r: Read<seq<(Value, Value)>>)
    ensures r.Some? ==> |r.value.1| <= |data| && r.value.1 == data[|data| - |r.value.1|..]
    ensures r.Some? ==> |r.value.0| == n
    decreases |data|, n + 1
  {
    if n == 0 then Some(([], data))
    else
      match DecodeValue(data)
      case None => None
      case Some((k, rest)) =>
        match DecodeValue(rest)
        case None => None
        case Some((v, rest')) =>
          match DecodePairs(n - 1, rest')
          case None => None
          case Some((ps, more)) => Some(([(k, v)] + ps, more))
  }

  function DecodeSimple(data: seq<byte>): (r: Read<Value>)
    requires data != []
    ensures r.Some? ==> |r.value.1| < |data| && r.value.1 == data[|data| - |r.value.1|..]
  {
    var ai, rest := Info(data[0]), data[1..];
    if ai == 20 then Some((Bool(false), rest))
    else if ai == 21 then Some((Bool(true), rest))
    else if ai == 22 then Some((Null, rest))
    else if ai == 25 && |rest| >= 2 then Some((Half(FromBigEndian(rest[..2])), rest[2..]))
    else if ai == 26 && |rest| >= 4 then Some((Single(FromBigEndian(rest[..4])), rest[4..]))
    else if ai == 27 && |rest| >= 8 then Some((Double(FromBigEndian(rest[..8])), rest[8..]))
    else None
  }

  // One item and nothing after it.
  function Decode(data: seq<byte>): Option<Value> {
    match DecodeValue(data)
    case None => None
    case Some((v, rest)) => if rest == [] then Some(v) else None
  }

  // ---------- Round trip ----------

  // What the reader makes of a value: an unsigned that fits int64 comes back signed.
  function Normal(v: Value): Value
    decreases v, 0
  {
    match v
    case Uint(u) => if u < TWO_63 then Int(u) else v
    case Tag(n, c) => Tag(n, Normal(c))
    case Array(items) => Array(NormalItems(items))
    case _ => v
  }

  function NormalItems(items: seq<Value>): seq<Value>
    decreases items, 1
  {
    if items == [] then [] else [Normal(items[0])] + NormalItems(items[1..])
  }

  // For every value tree and every trailer, reading what was written returns the value and
  // leaves the trailer untouched.
  lemma {:induction false} RoundTrip(v: Value, rest: seq<byte>)
    requires Encodable(v)
    ensures DecodeValue(Encode(v) + rest) == Some((Normal(v), rest))
    decreases v, 0
  {
    match v
    case Tag(n, c) =>
      RoundTrip(c, rest);
      TagRoundTrip(n, c, rest);
    case Array(items) =>
      ItemsRoundTrip(items, rest);
      ArrayRoundTrip(items, rest);
    case Double(bits) => DoubleRoundTrip(bits, rest);
    case Text(t) => StringRoundTrip(MAJOR_TEXT, t, rest);
    case Bytes(b) => StringRoundTrip(MAJOR_BYTES, b, rest);
    case Null => SimpleRoundTrip(v, rest);
    case Bool(_) => SimpleRoundTrip(v, rest);
    case Int(i) => IntRoundTrip(i, rest);
    case Uint(u) => HeadDispatch(MAJOR_UINT, u, rest);
  }

  // Reading a written head hands its argument to the reader of the content.
  lemma HeadDispatch(major: nat, arg: nat, rest: seq<byte>)
    requires major < MAJOR_SIMPLE && arg < TWO_64
    ensures DecodeValue(EncodeHead(major, arg) + rest) == DecodeContent(major, arg, rest)
  {
    HeadRoundTrip(major, arg, rest);
  }

  lemma IntRoundTrip(i: int, rest: seq<byte>)
    requires -TWO_63 <= i < TWO_63
    ensures DecodeValue(EncodeInt(i) + rest) == Some((Int(i), rest))
  {
    HeadDispatch(if i < 0 then MAJOR_NEGINT else MAJOR_UINT, if i < 0 then -(i + 1) else i, rest);
  }

  lemma SimpleRoundTrip(v: Value, rest: seq<byte>)
    requires v.Null? || v.Bool?
    ensures DecodeValue(Encode(v) + rest) == Some((v, rest))
  {
    assert (Encode(v) + rest)[1..] == rest;
  }

  lemma TagRoundTrip(n: nat, c: Value, rest: seq<byte>)
    requires Encodable(Tag(n, c)) && DecodeValue(Encode(c) + rest) == Some((Normal(c), rest))
    ensures DecodeValue(Encode(Tag(n, c)) + rest) == Some((Normal(Tag(n, c)), rest))
  {
    assert Encode(Tag(n, c)) + rest == EncodeHead(MAJOR_TAG, n) + (Encode(c) + rest);
    HeadDispatch(MAJOR_TAG, n, Encode(c) + rest);
  }

  lemma ArrayRoundTrip(items: seq<Value>, rest: seq<byte>)
    requires Encodable(Array(items))
    requires DecodeItems(|items|, EncodeItems(items) + rest) == Some((NormalItems(items), rest))
    ensures DecodeValue(Encode(Array(items)) + rest) == Some((Normal(Array(items)), rest))
  {
    var body := EncodeItems(items) + rest;
    assert Encode(Array(items)) + rest == EncodeHead(MAJOR_ARRAY, |items|) + body;
    HeadDispatch(MAJOR_ARRAY, |items|, body);
    ArrayContent(|items|, body, NormalItems(items), rest);
  }

  lemma ArrayContent(n: nat, body: seq<byte>, items: seq<Value>, rest: seq<byte>)
    requires n < TWO_64 && n <= |body| && DecodeItems(n, body) == Some((items, rest))
    ensures DecodeContent(MAJOR_ARRAY, n, body) == Some((Array(items), rest))
  {
  }

  lemma {:induction false} ItemsRoundTrip(items: seq<Value>, rest: seq<byte>)
    requires forall x <- items :: Encodable(x)
    ensures DecodeItems(|items|, EncodeItems(items) + rest) == Some((NormalItems(items), rest))
    decreases items, 1
  {
    if items == [] {
      assert EncodeItems(items) + rest == rest;
    } else {
      assert EncodeItems(items) + rest == Encode(items[0]) + (EncodeItems(items[1..]) + rest);
      RoundTrip(items[0], EncodeItems(items[1..]) + rest);
      ItemsRoundTrip(items[1..], rest);
    }
  }

  lemma StringRoundTrip(major: nat, t: seq<byte>, rest: seq<byte>)
    requires (major == MAJOR_TEXT || major == MAJOR_BYTES) && |t| < TWO_64
    ensures DecodeValue(EncodeHead(major, |t|) + t + rest)
            == Some((if major == MAJOR_TEXT then Text(t) else Bytes(t), rest))
  {
    assert EncodeHead(major, |t|) + t + rest == EncodeHead(major, |t|) + (t + rest);
    HeadDispatch(major, |t|, t + rest);
    assert (t + rest)[..|t|] == t && (t + rest)[|t|..] == rest;
  }

  lemma DoubleRoundTrip(bits: nat, rest: seq<byte>)
    requires bits < TWO_64
    ensures DecodeValue(Encode(Double(bits)) + rest) == Some((Double(bits), rest))
  {
    Powers();
    var data := Encode(Double(bits)) + rest;
    assert data[1..] == BigEndian(bits, 8) + rest;
    assert data[1..][..8] == BigEndian(bits, 8) && data[1..][8..] == rest;
    BigEndianRoundTrip(bits, 8);
  }

  // No encoding is a proper prefix of another, and values that differ for the reader never
  // share an encoding.
  lemma EncodingIsPrefixFree(v: Value, w: Value)
    requires Encodable(v) && Encodable(w) && Encode(v) <= Encode(w)
    ensures Encode(v) == Encode(w) && Normal(v) == Normal(w)
  {
    var rest := Encode(w)[|Encode(v)|..];
    assert Encode(w) == Encode(v) + rest == Encode(w) + [];
    RoundTrip(v, rest);
    RoundTrip(w, []);
  }

  // ---------- The bytes themselves ----------

  // The initial byte of each kind of value (section 3.1 of RFC 8949).
  ghost predicate Announces(b: byte, v: Value) {
    && (0x00 <= b <= 0x1B <==> v.Uint? || (v.Int? && v.i >= 0))
    && (0x20 <= b <= 0x3B <==> v.Int? && v.i < 0)
    && (0x40 <= b <= 0x5B <==> v.Bytes?)
    && (0x60 <= b <= 0x7B <==> v.Text?)
    && (0x80 <= b <= 0x9B <==> v.Array?)
    && (0xA0 <= b <= 0xBB <==> v.Map?)
    && (0xC0 <= b <= 0xDB <==> v.Tag?)
    && (b == 0xF4 <==> v == Bool(false)) && (b == 0xF5 <==> v == Bool(true)) && (b == 0xF6 <==> v.Null?)
    && (b == 0xF9 <==> v.Half?) && (b == 0xFA <==> v.Single?) && (b == 0xFB <==> v.Double?)
  }

  lemma InitialByte(major: nat, arg: nat)
    requires major < 8 && arg < TWO_64
    ensures 32 * major <= EncodeHead(major, arg)[0] <= 32 * major + 27
  {
  }

  // What is written starts as its kind does.
  lemma KindIsWritten(v: Value)
    ensures Encodable(v) ==> Announces(Encode(v)[0], v)
  {
    if Encodable(v) {
      match v
      case Int(i) => InitialByte(if i < 0 then 1 else 0, if i < 0 then -(i + 1) else i);
      case Uint(u) => InitialByte(0, u);
      case Bytes(b) => InitialByte(2, |b|);
      case Text(t) => InitialByte(3, |t|);
      case Array(items) => InitialByte(4, |items|);
      case Tag(n, _) => InitialByte(6, n);
      case _ =>
    }
  }

  // What is read is of the kind its first byte announces.
  lemma KindIsRead(data: seq<byte>)
    ensures DecodeValue(data).Some? ==> data != [] && Announces(data[0], DecodeValue(data).value.0)
  {
    if DecodeValue(data).Some? && Major(data[0]) != MAJOR_SIMPLE {
      var (arg, rest) := DecodeArg(data).value;
      ContentKind(Major(data[0]), arg, rest);
    }
  }

  lemma ContentKind(major: nat, arg: nat, rest: seq<byte>)
    requires major < 7 && DecodeContent(major, arg, rest).Some?
    ensures var v := DecodeContent(major, arg, rest).value.0;
            && (major == 0 ==> v.Uint? || (v.Int? && v.i >= 0)) && (major == 1 ==> v.Int? && v.i < 0)
            && (major == 2 ==> v.Bytes?) && (major == 3 ==> v.Text?) && (major == 4 ==> v.Array?)
            && (major == 5 ==> v.Map?) && (major == 6 ==> v.Tag?)
  {
  }

  // Small numbers are one byte; -1 is 0x20.
  lemma SmallNumber(i: int, rest: seq<byte>)
    requires -24 <= i < 24
    ensures Encode(Int(i)) == [if i >= 0 then i else 0x20 + (-1 - i)]
    ensures DecodeValue([if i >= 0 then i else 0x20 + (-1 - i)] + rest) == Some((Int(i), rest))
  {
    HeadLayout(if i < 0 then 1 else 0, if i < 0 then -1 - i else i);
    IntRoundTrip(i, rest);
  }

  // Short strings follow a byte with their length.
  lemma ShortString(t: seq<byte>, rest: seq<byte>)
    requires |t| < 24
    ensures Encode(Text(t)) == [0x60 + |t|] + t && Encode(Bytes(t)) == [0x40 + |t|] + t
    ensures DecodeValue([0x60 + |t|] + t + rest) == Some((Text(t), rest))
    ensures DecodeValue([0x40 + |t|] + t + rest) == Some((Bytes(t), rest))
  {
    HeadLayout(3, |t|);
    HeadLayout(2, |t|);
    StringRoundTrip(3, t, rest);
    StringRoundTrip(2, t, rest);
  }

  // The head of every argument, byte by byte.
  lemma HeadLayout(major: nat, arg: nat)
    requires major < 8 && arg < TWO_64
    ensures arg < 24 ==> EncodeHead(major, arg) == [32 * major + arg]
    ensures 24 <= arg <= 0xFF ==> EncodeHead(major, arg) == [32 * major + 24, arg]
    ensures 0xFF < arg <= 0xFFFF ==> EncodeHead(major, arg) == [32 * major + 25, arg / 256, arg % 256]
    ensures 0xFFFF < arg <= 0xFFFF_FFFF ==>
              EncodeHead(major, arg)
              == [32 * major + 26, arg / 256 / 256 / 256, arg / 256 / 256 % 256, arg / 256 % 256, arg % 256]
    ensures arg > 0xFFFF_FFFF ==> |EncodeHead(major, arg)| == 9 && EncodeHead(major, arg)[0] == 32 * major + 27
  {
    Powers();
    if 24 <= arg <= 0xFF {
      Octets(arg, 1);
      assert BigEndian(arg, 1) == [] + [arg];
    } else if 0xFF < arg <= 0xFFFF {
      Octets(arg, 2);
      Octets(arg / 256, 1);
    } else if 0xFFFF < arg <= 0xFFFF_FFFF {
      Octets(arg, 4);
      Octets(arg / 256, 3);
      Octets(arg / 256 / 256, 2);
      Octets(arg / 256 / 256 / 256, 1);
    }
  }

  lemma Octets(n: nat, k: nat)
    requires k > 0 && n < Pow256(k)
    ensures n / 256 < Pow256(k - 1) && BigEndian(n, k) == BigEndian(n / 256, k - 1) + [n % 256]
    ensures k == 1 ==> BigEndian(n, k) == [n]
  {
  }
}
