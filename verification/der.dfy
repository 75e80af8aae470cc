/** DER: a nested, length-computing TLV writer and a strict reader (sections 8 and 10 of X.690). */
module Der {
  import opened Common
  import opened Bytes

  const MAX_LENGTH: nat := 0x1_0000_0000

  datatype Tlv =
    | Prim(tag: byte, content: seq<byte>)
    | Cons(tag: byte, children: seq<Tlv>)

  // ---------- Writing ----------

  // Short form below 128, else the count of the fewest length bytes and those bytes.
  function DerLength(n: nat): (r: seq<byte>)
    ensures r != []
  {
    if n < 128 then [n] else [(128 + |Minimal(n)|) % 256] + Minimal(n)
  }

  function Wrap(tag: byte, body: seq<byte>): (r: seq<byte>)
    ensures |r| > |body|
  {
    [tag] + DerLength(|body|) + body
  }

  function Enc(t: Tlv): (r: seq<byte>)
    ensures r != []
    decreases t, 0
  {
    match t
    case Prim(tag, content) => Wrap(tag, content)
    case Cons(tag, children) => Wrap(tag, EncAll(children))
  }

  function EncAll(ts: seq<Tlv>): (r: seq<byte>)
    decreases ts, 1
  {
    if ts == [] then [] else Enc(ts[0]) + EncAll(ts[1..])
  }

  // ---------- Reading ----------

  predicate Constructed(tag: byte) {
    tag / 32 % 2 == 1
  }

  predicate SingleByteTag(tag: byte) {
    tag % 32 != 31
  }

  // A definite, minimal length of at most four bytes.
  function ParseLength(data: seq<byte>): (r: Option<(nat, seq<byte>)>)
    ensures r.Some? ==> |r.value.1| < |data|
  {
    if data == [] then None
    else if data[0] < 128 then Some((data[0], data[1..]))
    else
      var k, rest := data[0] - 128, data[1..];
      if k == 0 || k > 4 || |rest| < k || rest[0] == 0 || FromBigEndian(rest[..k]) < 128 then None
      else Some((FromBigEndian(rest[..k]), rest[k..]))
  }

  function ParseTlv(data: seq<byte>): (r: Option<(Tlv, seq<byte>)>)
    ensures r.Some? ==> |r.value.1| < |data|
    decreases |data|, 0
  {
    if data == [] || !SingleByteTag(data[0]) then None
    else
      match ParseLength(data[1..])
      case None => None
      case Some((n, rest)) =>
        if n > |rest| then None
        else if !Constructed(data[0]) then Some((Prim(data[0], rest[..n]), rest[n..]))
        else
          match ParseAll(rest[..n])
          case None => None
          case Some(ts) => Some((Cons(data[0], ts), rest[n..]))
  }

  function ParseAll(data: seq<byte>): Option<seq<Tlv>>
    decreases |data|, 1
  {
    if data == [] then Some([])
    else
      match ParseTlv(data)
      case None => None
      case Some((t, rest)) =>
        match ParseAll(rest)
        case None => None
        case Some(ts) => Some([t] + ts)
  }

  // One value and nothing after it.
  function Parse(data: seq<byte>): Option<Tlv> {
    match ParseTlv(data)
    case None => None
    case Some((t, rest)) => if rest == [] then Some(t) else None
  }

  // ---------- Round trip ----------

  predicate Tagged(t: Tlv) {
    && SingleByteTag(t.tag)
    && match t
       case Prim(tag, _) => !Constructed(tag)
       case Cons(tag, children) => Constructed(tag) && forall c <- children :: Tagged(c)
  }

  lemma TaggedCons(tag: byte, children: seq<Tlv>)
    requires SingleByteTag(tag) && Constructed(tag) && forall i :: 0 <= i < |children| ==> Tagged(children[i])
    ensures Tagged(Cons(tag, children))
  {
  }

  lemma {:induction false} MinimalSize(n: nat, k: nat)
    requires n < Pow256(k)
    ensures |Minimal(n)| <= k
  {
    if n > 0 && k > 0 {
      MinimalSize(n / 256, k - 1);
    }
  }

  lemma LongLengthSize(n: nat)
    requires 128 <= n < MAX_LENGTH
    ensures 1 <= |Minimal(n)| <= 4
  {
    assert Pow256(4) == 256 * Pow256(3) == 65536 * Pow256(2);
    MinimalSize(n, 4);
  }

  lemma LengthRoundTrip(n: nat, rest: seq<byte>)
    requires n < MAX_LENGTH
    ensures ParseLength(DerLength(n) + rest) == Some((n, rest))
  {
    if n < 128 {
      ShortLength(n, rest);
    } else {
      LongLengthSize(n);
      LongLength(n, Minimal(n), rest);
      assert (128 + |Minimal(n)|) % 256 == 128 + |Minimal(n)|;
    }
  }

  lemma ShortLength(n: nat, rest: seq<byte>)
    requires n < 128
    ensures ParseLength([n] + rest) == Some((n, rest))
  {
    assert ([n] + rest)[1..] == rest;
  }

  lemma LongLength(n: nat, m: seq<byte>, rest: seq<byte>)
    requires n >= 128 && m == Minimal(n) && 1 <= |m| <= 4
    ensures ParseLength([128 + |m|] + m + rest) == Some((n, rest))
  {
    var data := [128 + |m|] + m + rest;
    MinimalRoundTrip(n);
    assert data[1..] == m + rest;
    assert (m + rest)[..|m|] == m && (m + rest)[|m|..] == rest;
  }

  // What a reader sees in front of a wrapped body.
  lemma WrapParses(tag: byte, body: seq<byte>, rest: seq<byte>)
    requires |body| < MAX_LENGTH
    ensures var data := Wrap(tag, body) + rest;
            && data[0] == tag
            && ParseLength(data[1..]) == Some((|body|, body + rest))
            && (body + rest)[..|body|] == body && (body + rest)[|body|..] == rest
  {
    var data := Wrap(tag, body) + rest;
    assert data[1..] == DerLength(|body|) + (body + rest);
    LengthRoundTrip(|body|, body + rest);
  }

  lemma {:induction false} RoundTrip(t: Tlv, rest: seq<byte>)
    requires Tagged(t) && |Enc(t)| < MAX_LENGTH
    ensures ParseTlv(Enc(t) + rest) == Some((t, rest))
    decreases t, 0
  {
    match t
    case Prim(tag, content) => WrapParses(tag, content, rest);
    case Cons(tag, children) =>
      WrapParses(tag, EncAll(children), rest);
      AllRoundTrip(children);
  }

  lemma {:induction false} AllRoundTrip(ts: seq<Tlv>)
    requires (forall t <- ts :: Tagged(t)) && |EncAll(ts)| < MAX_LENGTH
    ensures ParseAll(EncAll(ts)) == Some(ts)
    decreases ts, 1
  {
    if ts != [] {
      var first, rest := Enc(ts[0]), EncAll(ts[1..]);
      assert EncAll(ts) == first + rest && |rest| <= |EncAll(ts)|;
      RoundTrip(ts[0], rest);
      AllRoundTrip(ts[1..]);
      ParseAllCons(ts[0], ts[1..], first + rest, rest);
      assert ts == [ts[0]] + ts[1..];
    }
  }

  lemma ParseAllCons(t: Tlv, ts: seq<Tlv>, data: seq<byte>, rest: seq<byte>)
    requires data != [] && ParseTlv(data) == Some((t, rest)) && ParseAll(rest) == Some(ts)
    ensures ParseAll(data) == Some([t] + ts)
  {
  }

  // Reading back what was written returns the same tree.
  lemma {:induction false} ParseOfEnc(t: Tlv)
    requires Tagged(t) && |Enc(t)| < MAX_LENGTH
    ensures Parse(Enc(t)) == Some(t)
  {
    RoundTrip(t, []);
    assert Enc(t) + [] == Enc(t);
  }

  // ---------- Integers and object identifiers ----------

  // A non-negative INTEGER: fewest bytes, with a zero in front when the top bit is set.
  function IntContent(n: nat): (r: seq<byte>)
    ensures r != []
  {
    var m := Minimal(n);
    if m == [] then [0] else if m[0] >= 128 then [0] + m else m
  }

  function Integer(n: nat): Tlv {
    Prim(0x02, IntContent(n))
  }

  function ParseInt(content: seq<byte>): Option<nat> {
    if content == [] || content[0] >= 128 then None
    else if |content| > 1 && content[0] == 0 && content[1] < 128 then None
    else Some(FromBigEndian(content))
  }

  lemma IntRoundTrip(n: nat)
    ensures ParseInt(IntContent(n)) == Some(n)
  {
    MinimalRoundTrip(n);
    if n == 0 {
      assert FromBigEndian([0]) == FromBigEndian([]) * 256;
    } else {
      LeadingZero(Minimal(n));
    }
  }

  // The content of a non-negative INTEGER: no sign bit, no zero byte that could be left out, and
  // the number itself (section 8.3 of X.690).
  lemma IntContentShape(n: nat)
    ensures var c := IntContent(n);
            c[0] < 128 && (|c| > 1 && c[0] == 0 ==> c[1] >= 128) && FromBigEndian(c) == n
  {
    IntRoundTrip(n);
    MinimalRoundTrip(n);
    LeadingZero(Minimal(n));
    assert FromBigEndian([0]) == FromBigEndian([]) * 256;
  }

  // Base 128, all but the last byte with the top bit set.
  function Base128(n: nat): seq<byte>
    decreases n
  {
    Continued(n / 128) + [n % 128]
  }

  function Continued(n: nat): seq<byte> {
    if n == 0 then [] else Continued(n / 128) + [128 + n % 128]
  }

  function OidTail(arcs: seq<nat>): seq<byte> {
    if arcs == [] then [] else Base128(arcs[0]) + OidTail(arcs[1..])
  }

  function Oid(first: nat, second: nat, arcs: seq<nat>): Tlv
    requires 40 * first + second < 128
  {
    Prim(0x06, [40 * first + second] + OidTail(arcs))
  }

  function BitString(bytes: seq<byte>): Tlv {
    Prim(0x03, [0] + bytes)
  }

  lemma {:induction false} EncAllConcat(a: seq<Tlv>, b: seq<Tlv>)
    ensures EncAll(a + b) == EncAll(a) + EncAll(b)
  {
    if a == [] {
      assert a + b == b;
    } else {
      assert (a + b)[1..] == a[1..] + b;
      EncAllConcat(a[1..], b);
    }
  }
}
