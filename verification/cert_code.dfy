/**
 The daemon's reconstruction of the device certificate, with its hand-computed headers and
 lengths, proved to write the reference tree byte for byte.
 */
module CertCode {
  import opened Common
  import opened Bytes
  import opened Der
  import opened CertReference

  // The fields are what the response parser has checked the lengths of.
  datatype CertParams = CertParams(
    publicKey: seq<byte>, deviceId: seq<byte>, serial: seq<byte>, authKeyId: seq<byte>,
    signature: seq<byte>, issue: Date)

  const CERT_EXPIRE_YEARS := 31

  // Fixed in the firmware and the daemon.
  const CERT_ISSUER := Name(Ascii("US"), [], [], Ascii("Arduino LLC US"), Ascii("IT"), Ascii("Arduino"))

  predicate LengthsChecked(p: CertParams) {
    && |p.publicKey| == 64 && |p.deviceId| == 36 && |p.serial| == 16
    && |p.authKeyId| == 20 && |p.signature| == 64
  }

  function SubjectOf(p: CertParams): Name {
    Name([], [], [], [], [], p.deviceId)
  }

  function CertOf(p: CertParams): DeviceCert {
    DeviceCert(SubjectOf(p), p.publicKey, p.serial, p.authKeyId, p.issue)
  }

  function Truncate(n: int): byte {
    n % 256
  }

  // ---------- Lengths ----------

  lemma OneByte(n: nat)
    requires 0 < n < 256
    ensures Minimal(n) == [n]
  {
    assert n / 256 == 0 && n % 256 == n;
    assert Minimal(0) == [];
  }

  lemma TwoBytes(n: nat)
    requires 256 <= n < 65536
    ensures Minimal(n) == [n / 256, n % 256]
  {
    OneByte(n / 256);
  }

  function AppendSequenceHeader(buf: seq<byte>, length: nat): seq<byte> {
    if length > 255 then buf + [0x30] + [0x82, Truncate(length / 256), Truncate(length)]
    else if length > 127 then buf + [0x30] + [0x81, Truncate(length)]
    else buf + [0x30] + [Truncate(length)]
  }

  lemma LengthBytes(n: nat)
    requires n < 65536
    ensures n > 255 ==> DerLength(n) == [0x82, Truncate(n / 256), Truncate(n)]
    ensures 127 < n <= 255 ==> DerLength(n) == [0x81, Truncate(n)]
    ensures n <= 127 ==> DerLength(n) == [Truncate(n)]
  {
    if n > 255 {
      TwoBytes(n);
      assert Truncate(n / 256) == n / 256;
    } else if n > 127 {
      OneByte(n);
    }
  }

  lemma SequenceHeader(buf: seq<byte>, body: seq<byte>)
    requires |body| < 65536
    ensures AppendSequenceHeader(buf, |body|) + body == buf + Wrap(0x30, body)
  {
    LengthBytes(|body|);
    Associate(buf, [0x30], DerLength(|body|), body);
  }

  lemma Associate(w: seq<byte>, x: seq<byte>, y: seq<byte>, z: seq<byte>)
    ensures w + x + y + z == w + (x + y + z)
  {
  }

  lemma {:induction false} EncAllSnoc(ts: seq<Tlv>, t: Tlv)
    ensures EncAll(ts + [t]) == EncAll(ts) + Enc(t)
  {
    EncAllConcat(ts, [t]);
    EncOne(t);
  }

  lemma EncOne(t: Tlv)
    ensures EncAll([t]) == Enc(t)
  {
    assert [t][1..] == [];
    assert EncAll([t]) == Enc(t) + EncAll([]);
  }

  lemma EncPair(t: Tlv, u: Tlv)
    ensures EncAll([t, u]) == Enc(t) + Enc(u)
  {
    assert [t, u] == [t] + [u];
    EncAllSnoc([t], u);
    EncOne(t);
  }

  lemma ShortWrap(tag: byte, content: seq<byte>)
    requires |content| < 128
    ensures Wrap(tag, content) == [tag, |content|] + content
    ensures Enc(Prim(tag, content)) == [tag, |content|] + content
  {
  }

  lemma ShortCons(tag: byte, t: Tlv, body: seq<byte>)
    requires Enc(t) == body && |body| < 128
    ensures Enc(Cons(tag, [t])) == [tag, |body|] + body
  {
    EncOne(t);
    ShortWrap(tag, body);
  }

  lemma ShortConsPair(tag: byte, t: Tlv, u: Tlv, a: seq<byte>, b: seq<byte>)
    requires Enc(t) == a && Enc(u) == b && |a| + |b| < 128
    ensures Enc(Cons(tag, [t, u])) == [tag, |a| + |b|] + (a + b)
  {
    EncPair(t, u);
    ShortWrap(tag, a + b);
  }

  // ---------- Names ----------

  function Emit(buf: seq<byte>, value: seq<byte>, typ: byte): seq<byte> {
    if value == [] then buf
    else
      var l := |value|;
      buf + [0x31, Truncate(l + 9)] + [0x30, Truncate(l + 7)] + [0x06, 0x03, 0x55, 0x04, typ]
      + [0x13, Truncate(l)] + value
  }

  lemma NameOid(arc: nat)
    requires arc < 128
    ensures Enc(Oid(2, 5, [4, arc])) == [0x06, 0x03, 0x55, 0x04, arc]
  {
    SmallArcs([4, arc]);
  }

  lemma EmitWritesRdn(buf: seq<byte>, a: Attribute)
    requires a.arc < 128 && 0 < |a.value| <= 118
    ensures Emit(buf, a.value, a.arc) == buf + Enc(Rdn(a))
    ensures |Enc(Rdn(a))| == 11 + |a.value|
  {
    var l := |a.value|;
    var oid, text := Oid(2, 5, [4, a.arc]), Prim(0x13, a.value);
    NameOid(a.arc);
    ShortWrap(0x13, a.value);
    ShortConsPair(0x30, oid, text, [0x06, 0x03, 0x55, 0x04, a.arc], [0x13, l] + a.value);
    var pair := [0x30, l + 7] + ([0x06, 0x03, 0x55, 0x04, a.arc] + ([0x13, l] + a.value));
    ShortCons(0x31, Cons(0x30, [oid, text]), pair);
    assert Emit(buf, a.value, a.arc) == buf + ([0x31, l + 9] + pair);
  }

  function AppendName(buf: seq<byte>, n: Name): seq<byte> {
    var c := Emit(buf, n.country, 0x06);
    var st := Emit(c, n.state, 0x08);
    var l := Emit(st, n.locality, 0x07);
    var o := Emit(l, n.org, 0x0A);
    var ou := Emit(o, n.orgUnit, 0x0B);
    Emit(ou, n.commonName, 0x03)
  }

  predicate ShortValues(attrs: seq<Attribute>) {
    forall i :: 0 <= i < |attrs| ==> |attrs[i].value| <= 118 && attrs[i].arc < 128
  }

  lemma EmitNext(buf: seq<byte>, attrs: seq<Attribute>, a: Attribute)
    requires a.arc < 128 && |a.value| <= 118
    ensures Emit(buf + EncAll(Rdns(attrs)), a.value, a.arc) == buf + EncAll(Rdns(attrs + [a]))
    ensures |EncAll(Rdns(attrs + [a]))| == |EncAll(Rdns(attrs))| + (if a.value == [] then 0 else 11 + |a.value|)
  {
    assert (attrs + [a])[..|attrs|] == attrs;
    if a.value == [] {
      assert Rdns(attrs + [a]) == Rdns(attrs);
    } else {
      EmitWritesRdn(buf + EncAll(Rdns(attrs)), a);
      EncAllSnoc(Rdns(attrs), Rdn(a));
    }
  }

  function EmitAll(buf: seq<byte>, attrs: seq<Attribute>): seq<byte>
    requires forall i :: 0 <= i < |attrs| ==> attrs[i].arc < 128
  {
    if attrs == [] then buf
    else
      var a := attrs[|attrs| - 1];
      Emit(EmitAll(buf, attrs[..|attrs| - 1]), a.value, a.arc)
  }

  lemma {:induction false} EmitAllWrites(buf: seq<byte>, attrs: seq<Attribute>)
    requires ShortValues(attrs)
    ensures EmitAll(buf, attrs) == buf + EncAll(Rdns(attrs))
  {
    if attrs == [] {
      assert buf + [] == buf;
    } else {
      var init, a := attrs[..|attrs| - 1], attrs[|attrs| - 1];
      EmitAllWrites(buf, init);
      assert init + [a] == attrs;
      EmitNext(buf, init, a);
    }
  }

  lemma EmitAllSnoc(buf: seq<byte>, init: seq<Attribute>, a: Attribute, attrs: seq<Attribute>)
    requires attrs == init + [a] && forall i :: 0 <= i < |attrs| ==> attrs[i].arc < 128
    ensures forall i :: 0 <= i < |init| ==> init[i].arc < 128
    ensures a.arc < 128 && EmitAll(buf, attrs) == Emit(EmitAll(buf, init), a.value, a.arc)
  {
    assert attrs[..|attrs| - 1] == init && attrs[|attrs| - 1] == a;
    assert forall i :: 0 <= i < |init| ==> attrs[i] == init[i];
  }

  // How many bytes the emits write: eleven and the value, for each value there is.
  function HandLength(attrs: seq<Attribute>): nat {
    if attrs == [] then 0
    else
      HandLength(attrs[..|attrs| - 1])
      + (var v := attrs[|attrs| - 1].value; if v == [] then 0 else 11 + |v|)
  }

  lemma LengthSize(n: nat)
    ensures |DerLength(n)| >= 1 && (|DerLength(n)| == 1 <==> n < 128)
  {
  }

  // One length byte per level is enough exactly for values of up to 118 bytes.
  lemma RdnSize(a: Attribute)
    requires a.arc < 128 && a.value != []
    ensures |Enc(Rdn(a))| >= 11 + |a.value|
    ensures |Enc(Rdn(a))| == 11 + |a.value| <==> |a.value| <= 118
  {
    var oid, text := Oid(2, 5, [4, a.arc]), Prim(0x13, a.value);
    NameOid(a.arc);
    EncPair(oid, text);
    EncOne(Cons(0x30, [oid, text]));
    LengthSize(|a.value|);
    LengthSize(|Enc(oid) + Enc(text)|);
    LengthSize(|Enc(Cons(0x30, [oid, text]))|);
  }

  predicate SmallArcsIn(attrs: seq<Attribute>) {
    forall i :: 0 <= i < |attrs| ==> attrs[i].arc < 128
  }

  lemma {:induction false} NamesSize(attrs: seq<Attribute>)
    requires SmallArcsIn(attrs)
    ensures |EncAll(Rdns(attrs))| >= HandLength(attrs)
    ensures |EncAll(Rdns(attrs))| == HandLength(attrs) <==> ShortValues(attrs)
  {
    if attrs != [] {
      var init, a := attrs[..|attrs| - 1], attrs[|attrs| - 1];
      NamesSize(init);
      ShortSnoc(init, a);
      assert attrs == init + [a];
      if a.value != [] {
        RdnSize(a);
        EncAllSnoc(Rdns(init), Rdn(a));
      } else {
        assert Rdns(attrs) == Rdns(init);
      }
    }
  }

  lemma ShortSnoc(init: seq<Attribute>, a: Attribute)
    requires a.arc < 128
    ensures ShortValues(init + [a]) <==> ShortValues(init) && |a.value| <= 118
  {
    var attrs := init + [a];
    assert attrs[|init|] == a;
    assert forall i :: 0 <= i < |init| ==> attrs[i] == init[i];
  }

  lemma {:induction false} EmitAllSize(buf: seq<byte>, attrs: seq<Attribute>)
    requires SmallArcsIn(attrs)
    ensures |EmitAll(buf, attrs)| == |buf| + HandLength(attrs)
  {
    if attrs != [] {
      EmitAllSize(buf, attrs[..|attrs| - 1]);
    }
  }

  // The six emits write the RDNs of the attributes that are present, in order, exactly when no
  // value needs a longer length field.
  lemma NameIsWritten(buf: seq<byte>, n: Name)
    ensures AppendName(buf, n) == buf + EncAll(Rdns(AllAttributes(n))) <==> ShortValues(AllAttributes(n))
  {
    var all := AllAttributes(n);
    SixEmits(buf, n, Attribute(6, n.country), Attribute(8, n.state), Attribute(7, n.locality),
             Attribute(10, n.org), Attribute(11, n.orgUnit), Attribute(3, n.commonName));
    NamesSize(all);
    EmitAllSize(buf, all);
    if ShortValues(all) {
      EmitAllWrites(buf, all);
    }
  }

  lemma SixEmits(buf: seq<byte>, n: Name,
                 a: Attribute, b: Attribute, c: Attribute, d: Attribute, e: Attribute, f: Attribute)
    requires a == Attribute(6, n.country) && b == Attribute(8, n.state) && c == Attribute(7, n.locality)
    requires d == Attribute(10, n.org) && e == Attribute(11, n.orgUnit) && f == Attribute(3, n.commonName)
    ensures AppendName(buf, n) == EmitAll(buf, [a, b, c, d, e, f])
  {
    ThreeEmits(buf, [], a, b, c);
    ThreeEmits(buf, [a, b, c], d, e, f);
    assert [] + [a, b, c] == [a, b, c] && [a, b, c] + [d, e, f] == [a, b, c, d, e, f];
  }

  lemma ThreeEmits(buf: seq<byte>, init: seq<Attribute>, a: Attribute, b: Attribute, c: Attribute)
    requires a.arc < 128 && b.arc < 128 && c.arc < 128 && forall i :: 0 <= i < |init| ==> init[i].arc < 128
    ensures EmitAll(buf, init + [a, b, c])
            == Emit(Emit(Emit(EmitAll(buf, init), a.value, a.arc), b.value, b.arc), c.value, c.arc)
  {
    EmitAllSnoc(buf, init, a, init + [a]);
    EmitAllSnoc(buf, init + [a], b, init + [a, b]);
    EmitAllSnoc(buf, init + [a, b], c, init + [a, b, c]);
  }

  // The length computed by hand is the length of what is written, and of the RDNs exactly when
  // no value needs a longer length field.
  method NameLength(n: Name) returns (total: nat)
    ensures total == HandLength(AllAttributes(n))
    ensures total == |EncAll(Rdns(AllAttributes(n)))| <==> ShortValues(AllAttributes(n))
  {
    var fields := AllAttributes(n);
    total := 0;
    for i := 0 to |fields|
      invariant total == HandLength(fields[..i])
    {
      assert fields[..i + 1][..i] == fields[..i];
      if |fields[i].value| > 0 {
        total := total + 11 + |fields[i].value|;
      }
    }
    assert fields[..|fields|] == fields;
    NamesSize(fields);
  }

  // ---------- Integers ----------

  // The content octets of a fixed-width big-endian number are those of the number.
  method DerInteger(b: seq<byte>) returns (r: seq<byte>)
    requires b != []
    ensures r == IntContent(FromBigEndian(b)) && |r| <= |b| + 1
  {
    var i := 0;
    while i < |b| - 1 && b[i] == 0
      invariant 0 <= i < |b| && FromBigEndian(b[i..]) == FromBigEndian(b)
    {
      assert b[i..] == [0] + b[i + 1..];
      LeadingZero(b[i + 1..]);
      i := i + 1;
    }
    var v := b[i..];
    StripIsMinimal(v);
    assert v[0] == 0 ==> v == [0] && v[1..] == [];
    r := if v[0] >= 128 then [0] + v else v;
  }

  lemma IntContentOf(s: seq<byte>)
    requires s != [] ==> s[0] != 0
    ensures IntContent(FromBigEndian(s)) == if s == [] then [0] else if s[0] >= 128 then [0] + s else s
  {
    MinimalOfNumber(s);
  }

  // What the three branches append: tag, one length byte, content.
  function SerialBytes(s: seq<byte>): seq<byte> {
    if s == [] then [0x02, 0x01, 0x00]
    else if s[0] >= 128 then [0x02] + [Truncate(|s| + 1), 0x00] + s
    else [0x02] + [Truncate(|s|)] + s
  }

  lemma SerialContent(s: seq<byte>, content: seq<byte>)
    requires content == if s == [] then [0] else if s[0] >= 128 then [0] + s else s
    ensures [0x02, Truncate(|content|)] + content == SerialBytes(s)
  {
  }

  lemma OneLengthByte(tag: byte, c: seq<byte>)
    ensures [tag, Truncate(|c|)] + c == Wrap(tag, c) <==> |c| < 128
  {
    LengthSize(|c|);
    if |c| < 128 {
      ShortWrap(tag, c);
    } else {
      assert |Wrap(tag, c)| > |[tag, Truncate(|c|)] + c|;
    }
  }

  // It is the INTEGER of the stripped number exactly when one length byte is enough.
  lemma SerialExactly(s: seq<byte>, n: nat)
    requires (s != [] ==> s[0] != 0) && FromBigEndian(s) == n
    ensures |SerialBytes(s)| <= |s| + 3
    ensures Enc(Integer(n)) == SerialBytes(s) <==> |IntContent(n)| < 128
  {
    IntContentOf(s);
    SerialContent(s, IntContent(n));
    OneLengthByte(0x02, IntContent(n));
  }

  method StripLeadingZeros(serial: seq<byte>) returns (s: seq<byte>)
    ensures (s != [] ==> s[0] != 0) && FromBigEndian(s) == FromBigEndian(serial) && |s| <= |serial|
  {
    s := serial;
    while s != [] && s[0] == 0
      invariant FromBigEndian(s) == FromBigEndian(serial) && |s| <= |serial|
      decreases |s|
    {
      assert s == [0] + s[1..];
      LeadingZero(s[1..]);
      s := s[1..];
    }
  }

  method AppendSerialNumber(buf: seq<byte>, serial: seq<byte>) returns (r: seq<byte>)
    ensures r == buf + Enc(Integer(FromBigEndian(serial))) <==> |IntContent(FromBigEndian(serial))| < 128
    ensures |r| <= |buf| + |serial| + 3
  {
    var s := StripLeadingZeros(serial);
    ghost var n := FromBigEndian(serial);
    if s == [] {
      r := buf + [0x02, 0x01, 0x00];
    } else if s[0] >= 128 {
      r := buf + [0x02] + [Truncate(|s| + 1), 0x00] + s;
    } else {
      r := buf + [0x02] + [Truncate(|s|)] + s;
    }
    assert r == buf + SerialBytes(s);
    SerialExactly(s, n);
    Suffixed(buf, SerialBytes(s), Enc(Integer(n)));
  }

  lemma Suffixed(buf: seq<byte>, x: seq<byte>, y: seq<byte>)
    ensures buf + x == buf + y <==> x == y
  {
    assert (buf + x)[|buf|..] == x && (buf + y)[|buf|..] == y;
  }

  // A sixteen-byte serial always fits.
  lemma SerialFits(serial: seq<byte>)
    requires |serial| < 127
    ensures |IntContent(FromBigEndian(serial))| < 128
  {
    StripIsMinimal(serial);
  }

  // ---------- Dates ----------

  function Digits(tens: int, units: int): seq<byte> {
    [Truncate(0x30 + tens), Truncate(0x30 + units)]
  }

  // Division that truncates toward zero.
  function Quot(n: int): int {
    if n >= 0 then n / 10 else -(-n / 10)
  }

  function Pair(n: int): seq<byte> {
    Digits(Quot(n), n - 10 * Quot(n))
  }

  function YearBytes(year: int): seq<byte> {
    if year > 2049 then [0x18, 0x0F] + Digits(year / 1000, year % 1000 / 100) + Digits(year % 100 / 10, year % 10)
    else [0x17, 0x0D] + Pair(year - 2000)
  }

  function DateBytes(buf: seq<byte>, d: Date): seq<byte> {
    buf + YearBytes(d.year) + Pair(d.month) + Pair(d.day) + Pair(d.hour) + [0x30, 0x30] + [0x30, 0x30] + [0x5A]
  }

  // Fields the writer has two digits for. The calendar is not consulted.
  predicate TwoDigits(d: Date) {
    0 <= d.month < 100 && 0 <= d.day < 100 && 0 <= d.hour < 100
  }

  predicate InWindow(d: Date) {
    2000 <= d.year <= 9968 && TwoDigits(d)
  }

  lemma PairIsTwo(n: int)
    requires 0 <= n < 100
    ensures Pair(n) == Two(n)
  {
  }

  lemma DigitsOfTwo(n: int)
    requires 0 <= n < 100
    ensures Digits(n / 10, n % 10) == Two(n)
  {
  }

  // The four digits of a GeneralizedTime year, hundreds and units.
  lemma FourDigits(year: int)
    requires 0 <= year < 10000
    ensures Digits(year / 1000, year % 1000 / 100) == Two(year / 100)
    ensures Digits(year % 100 / 10, year % 10) == Two(year % 100)
  {
    var h, u := year / 100, year % 100;
    Hundreds(h, u);
    DigitsOfTwo(h);
    DigitsOfTwo(u);
  }

  lemma Hundreds(h: int, u: int)
    requires 0 <= h < 100 && 0 <= u < 100
    ensures var year := 100 * h + u; year / 1000 == h / 10 && year % 1000 / 100 == h % 10 && year % 10 == u % 10
  {
    var t := h / 10;
    assert 100 * h + u == 1000 * t + (100 * (h - 10 * t) + u);
  }

  // What the reference writes for the tag, length and year.
  function YearReference(year: int): seq<byte> {
    if year > 2049 then [0x18, 0x0F] + (Two(year / 100) + Two(year % 100)) else [0x17, 0x0D] + Two(year % 100)
  }

  // The year goes out as the reference writes it exactly from 2000 to 9999: before, the
  // subtraction goes negative and the bytes are no digits.
  lemma YearExactly(year: int)
    requires 0 <= year < 10031
    ensures YearBytes(year) == YearReference(year) <==> 2000 <= year < 10000
  {
    if year >= 10000 {
      TooLate(year);
    } else if year > 2049 {
      FourDigits(year);
    } else if year >= 2000 {
      PairIsTwo(year - 2000);
      assert year % 100 == year - 2000;
    } else {
      NegativeYear(2000 - year);
      Suffix([0x17, 0x0D], Pair(year - 2000), Two(year % 100));
    }
  }

  lemma Suffix(head: seq<byte>, x: seq<byte>, y: seq<byte>)
    requires x != y
    ensures head + x != head + y
  {
    assert (head + x)[|head|..] == x && (head + y)[|head|..] == y;
  }

  lemma TooLate(year: int)
    requires 10000 <= year < 10031
    ensures YearBytes(year) != YearReference(year)
  {
    assert year / 1000 == 10;
    assert YearBytes(year)[2] == 0x3A;
    assert YearReference(year)[2] == Two(year / 100)[0] < 0x3A;
  }

  lemma NegativeYear(back: int)
    requires 0 < back <= 2000
    ensures Pair(-back)[0] < 0x30 || Pair(-back)[1] < 0x30 || Pair(-back)[0] >= 0x3A
    ensures Pair(-back) != Two((2000 - back) % 100)
  {
  }

  lemma TimeEncoding(d: Date)
    requires 0 <= d.year
    ensures Enc(TimeTree(d))
            == YearReference(d.year) + (Two(d.month) + Two(d.day) + Two(d.hour) + [0x30, 0x30, 0x30, 0x30, 0x5A])
  {
    var t := TimeTree(d);
    ShortWrap(t.tag, t.content);
    var rest := Two(d.month) + Two(d.day) + Two(d.hour) + [0x30, 0x30, 0x30, 0x30, 0x5A];
    if d.year > 2049 {
      assert t.content == Two(d.year / 100) + Two(d.year % 100) + rest;
    }
  }

  // A date is written as DER exactly when its year is in the writer's range.
  lemma DateExactly(buf: seq<byte>, d: Date)
    requires TwoDigits(d) && 0 <= d.year < 10031
    ensures DateBytes(buf, d) == buf + Enc(TimeTree(d)) <==> 2000 <= d.year < 10000
    ensures |Enc(TimeTree(d))| == if d.year > 2049 then 17 else 15
  {
    TimeEncoding(d);
    YearExactly(d.year);
    PairIsTwo(d.month);
    PairIsTwo(d.day);
    PairIsTwo(d.hour);
    Spliced(buf, YearBytes(d.year), YearReference(d.year), Two(d.month), Two(d.day), Two(d.hour));
  }

  lemma Spliced(buf: seq<byte>, x: seq<byte>, y: seq<byte>, m: seq<byte>, d: seq<byte>, h: seq<byte>)
    requires |x| == |y|
    ensures var rest := m + d + h + [0x30, 0x30, 0x30, 0x30, 0x5A];
            (buf + x + m + d + h + [0x30, 0x30] + [0x30, 0x30] + [0x5A] == buf + (y + rest)) <==> (x == y)
  {
    var rest := m + d + h + [0x30, 0x30, 0x30, 0x30, 0x5A];
    var l, r := buf + (x + rest), buf + (y + rest);
    assert buf + x + m + d + h + [0x30, 0x30] + [0x30, 0x30] + [0x5A] == l;
    assert l[|buf|..][..|x|] == x && r[|buf|..][..|y|] == y;
  }

  method AppendDate(buf: seq<byte>, d: Date) returns (r: seq<byte>)
    ensures r == buf + DateBytes([], d) && |r| == |buf| + (if d.year > 2049 then 17 else 15)
    ensures TwoDigits(d) && 2000 <= d.year < 10000 ==> r == buf + Enc(TimeTree(d))
  {
    r := DateBytes(buf, d);
    DateFrom(buf, d);
    if TwoDigits(d) && 2000 <= d.year < 10000 {
      DateExactly(buf, d);
    }
  }

  lemma DateFrom(buf: seq<byte>, d: Date)
    ensures DateBytes(buf, d) == buf + DateBytes([], d)
    ensures |DateBytes([], d)| == if d.year > 2049 then 17 else 15
  {
    var y, m, day, h := YearBytes(d.year), Pair(d.month), Pair(d.day), Pair(d.hour);
    Prepended(buf, y, m, day, h);
    assert [] + y == y;
    assert |y| == if d.year > 2049 then 6 else 4;
  }

  lemma Prepended(buf: seq<byte>, y: seq<byte>, m: seq<byte>, d: seq<byte>, h: seq<byte>)
    ensures buf + y + m + d + h + [0x30, 0x30] + [0x30, 0x30] + [0x5A]
            == buf + ([] + y + m + d + h + [0x30, 0x30] + [0x30, 0x30] + [0x5A])
  {
  }

  // ---------- Keys, algorithms, extensions ----------

  // Arcs below 128 are their own encoding.
  lemma {:induction false} SmallArcs(arcs: seq<byte>)
    requires forall i :: 0 <= i < |arcs| ==> arcs[i] < 128
    ensures OidTail(arcs) == arcs
  {
    if arcs != [] {
      SmallArcs(arcs[1..]);
      assert Continued(0) == [];
      assert Base128(arcs[0]) == [arcs[0]];
      assert arcs == [arcs[0]] + arcs[1..];
    }
  }

  lemma TwoByteArc(n: nat)
    requires 128 <= n < 128 * 128
    ensures Base128(n) == [128 + n / 128, n % 128]
  {
    assert Continued(0) == [];
    assert n / 128 / 128 == 0 && n / 128 % 128 == n / 128;
    assert Continued(n / 128) == [128 + n / 128];
  }

  // The 1.2.840.10045 arc of ANSI X9.62.
  lemma X962(arcs: seq<nat>, small: seq<byte>)
    requires |arcs| >= 2 && arcs[0] == 840 && arcs[1] == 10045 && arcs[2..] == small
    requires forall i :: 0 <= i < |small| ==> small[i] < 128
    ensures OidTail(arcs) == [0x86, 0x48, 0xCE, 0x3D] + small
  {
    SmallArcs(small);
    TwoByteArc(840);
    TwoByteArc(10045);
    assert arcs[1..][1..] == small;
    assert OidTail(arcs[1..]) == [0xCE, 0x3D] + small;
  }

  lemma X962Oid(arcs: seq<nat>, small: seq<byte>)
    requires |arcs| >= 2 && arcs[0] == 840 && arcs[1] == 10045 && arcs[2..] == small && |small| < 100
    requires forall i :: 0 <= i < |small| ==> small[i] < 128
    ensures Enc(Oid(1, 2, arcs)) == [0x06, 5 + |small|, 0x2A, 0x86, 0x48, 0xCE, 0x3D] + small
  {
    X962(arcs, small);
    ShortWrap(0x06, [0x2A] + ([0x86, 0x48, 0xCE, 0x3D] + small));
  }

  lemma AlgorithmOid()
    ensures Enc(Oid(1, 2, [840, 10045, 4, 3, 2])) == [0x06, 0x08, 0x2A, 0x86, 0x48, 0xCE, 0x3D, 0x04, 0x03, 0x02]
  {
    X962Oid([840, 10045, 4, 3, 2], [4, 3, 2]);
  }

  lemma KeyOids()
    ensures Enc(Oid(1, 2, [840, 10045, 2, 1])) == [0x06, 0x07, 0x2A, 0x86, 0x48, 0xCE, 0x3D, 0x02, 0x01]
    ensures Enc(Oid(1, 2, [840, 10045, 3, 1, 7])) == [0x06, 0x08, 0x2A, 0x86, 0x48, 0xCE, 0x3D, 0x03, 0x01, 0x07]
  {
    X962Oid([840, 10045, 2, 1], [2, 1]);
    X962Oid([840, 10045, 3, 1, 7], [3, 1, 7]);
  }

  function AppendEcdsaWithSHA256(buf: seq<byte>): seq<byte> {
    buf + [0x30, 0x0A, 0x06, 0x08, 0x2A, 0x86, 0x48, 0xCE, 0x3D, 0x04, 0x03, 0x02]
  }

  lemma AlgorithmIsWritten()
    ensures Enc(Algorithm()) == [0x30, 0x0A, 0x06, 0x08, 0x2A, 0x86, 0x48, 0xCE, 0x3D, 0x04, 0x03, 0x02]
  {
    AlgorithmOid();
    EncOne(Oid(1, 2, [840, 10045, 4, 3, 2]));
  }

  function AppendPublicKey(buf: seq<byte>, key: seq<byte>): seq<byte> {
    buf + [0x30, 2 + 9 + 10 + 4 + 64] + [0x30, 0x13]
    + [0x06, 0x07, 0x2A, 0x86, 0x48, 0xCE, 0x3D, 0x02, 0x01]
    + [0x06, 0x08, 0x2A, 0x86, 0x48, 0xCE, 0x3D, 0x03, 0x01, 0x07]
    + [0x03, 0x42, 0x00, 0x04] + key
  }

  lemma PublicKeyIsWritten(buf: seq<byte>, key: seq<byte>)
    requires |key| == 64
    ensures AppendPublicKey(buf, key) == buf + Enc(PublicKeyTree(key))
    ensures |Enc(PublicKeyTree(key))| == 91
  {
    KeyOids();
    var a: seq<byte> := [0x06, 0x07, 0x2A, 0x86, 0x48, 0xCE, 0x3D, 0x02, 0x01];
    var b: seq<byte> := [0x06, 0x08, 0x2A, 0x86, 0x48, 0xCE, 0x3D, 0x03, 0x01, 0x07];
    var ta, tb := Oid(1, 2, [840, 10045, 2, 1]), Oid(1, 2, [840, 10045, 3, 1, 7]);
    ShortConsPair(0x30, ta, tb, a, b);
    ShortWrap(0x03, [0] + ([0x04] + key));
    var alg, bits := [0x30, 0x13] + (a + b), [0x03, 0x42] + ([0] + ([0x04] + key));
    ShortConsPair(0x30, Cons(0x30, [ta, tb]), BitString([0x04] + key), alg, bits);
    assert AppendPublicKey(buf, key) == buf + ([0x30, 0x59] + (alg + bits));
  }

  function AppendAuthorityKeyId(buf: seq<byte>, aki: seq<byte>): seq<byte> {
    buf + [0xA3, 0x23] + [0x30, 0x21] + [0x30, 0x1F] + [0x06, 0x03, 0x55, 0x1D, 0x23]
    + [0x04, 0x18] + [0x30, 0x16] + [0x80, 0x14] + aki
  }

  ghost function ExtensionBytes(aki: seq<byte>): seq<byte> {
    [0x30, 0x1F] + ([0x06, 0x03, 0x55, 0x1D, 0x23] + ([0x04, 0x18] + ([0x30, 0x16] + ([0x80, 0x14] + aki))))
  }

  lemma ExtensionIsWritten(aki: seq<byte>)
    requires |aki| == 20
    ensures Enc(Cons(0x30, [Oid(2, 5, [29, 35]), Prim(0x04, Enc(KeyIdentifier(aki)))])) == ExtensionBytes(aki)
  {
    ShortWrap(0x80, aki);
    ShortCons(0x30, Prim(0x80, aki), [0x80, 0x14] + aki);
    var kid := [0x30, 0x16] + ([0x80, 0x14] + aki);
    ShortWrap(0x04, kid);
    SmallArcs([29, 35]);
    ShortWrap(0x06, [0x55] + [29, 35]);
    ShortConsPair(0x30, Oid(2, 5, [29, 35]), Prim(0x04, kid), [0x06, 0x03, 0x55, 0x1D, 0x23], [0x04, 0x18] + kid);
  }

  lemma ExtensionsAreWritten(buf: seq<byte>, aki: seq<byte>)
    requires |aki| == 20
    ensures (if AnyNonZero(aki) then AppendAuthorityKeyId(buf, aki) else buf + [0xA3, 0x02, 0x30, 0x00])
            == buf + Enc(ExtensionsTree(aki))
    ensures |Enc(ExtensionsTree(aki))| <= 37
  {
    if AnyNonZero(aki) {
      ExtensionIsWritten(aki);
      OneExtension(Cons(0x30, [Oid(2, 5, [29, 35]), Prim(0x04, Enc(KeyIdentifier(aki)))]), ExtensionBytes(aki));
      KeyIdBytes(buf, aki);
    } else {
      NoExtensions();
    }
  }

  lemma OneExtension(ext: Tlv, bytes: seq<byte>)
    requires Enc(ext) == bytes && |bytes| == 33
    ensures Enc(Cons(0xA3, [Cons(0x30, [ext])])) == [0xA3, 0x23] + ([0x30, 0x21] + bytes)
  {
    ShortCons(0x30, ext, bytes);
    ShortCons(0xA3, Cons(0x30, [ext]), [0x30, 0x21] + bytes);
  }

  lemma KeyIdBytes(buf: seq<byte>, aki: seq<byte>)
    ensures AppendAuthorityKeyId(buf, aki) == buf + ([0xA3, 0x23] + ([0x30, 0x21] + ExtensionBytes(aki)))
  {
  }

  lemma NoExtensions()
    ensures Enc(Cons(0xA3, [Cons(0x30, [])])) == [0xA3, 0x02, 0x30, 0x00]
  {
    ShortWrap(0x30, []);
    ShortCons(0xA3, Cons(0x30, []), [0x30, 0x00]);
  }

  method AuthorityKeyIdSet(aki: seq<byte>) returns (set_: bool)
    ensures set_ == AnyNonZero(aki)
  {
    for i := 0 to |aki|
      invariant forall k :: 0 <= k < i ==> aki[k] == 0
    {
      if aki[i] != 0 {
        assert aki[i] in aki;
        return true;
      }
    }
    return false;
  }

  // ---------- Signature ----------

  // The BIT STRING around SEQUENCE { r, s }, lengths by hand.
  function AppendSignatureValue(buf: seq<byte>, r: seq<byte>, s: seq<byte>): seq<byte> {
    buf + [0x03, Truncate(|r| + |s| + 7), 0x00] + [0x30, Truncate(|r| + |s| + 4)]
    + [0x02, Truncate(|r|)] + r + [0x02, Truncate(|s|)] + s
  }

  lemma SignatureValueIsWritten(buf: seq<byte>, a: nat, b: nat, r: seq<byte>, s: seq<byte>)
    requires r == IntContent(a) && s == IntContent(b) && |r| <= 33 && |s| <= 33
    ensures AppendSignatureValue(buf, r, s) == buf + Enc(BitString(Enc(Cons(0x30, [Integer(a), Integer(b)]))))
  {
    ShortWrap(0x02, r);
    ShortWrap(0x02, s);
    var rb, sb := [0x02, |r|] + r, [0x02, |s|] + s;
    ShortConsPair(0x30, Integer(a), Integer(b), rb, sb);
    var value := [0x30, |rb| + |sb|] + (rb + sb);
    ShortWrap(0x03, [0] + value);
    SignatureBytes(buf, r, s, rb, sb);
  }

  lemma SignatureBytes(buf: seq<byte>, r: seq<byte>, s: seq<byte>, rb: seq<byte>, sb: seq<byte>)
    requires |r| <= 33 && |s| <= 33 && rb == [0x02, |r|] + r && sb == [0x02, |s|] + s
    ensures AppendSignatureValue(buf, r, s)
            == buf + ([0x03, |rb| + |sb| + 3] + ([0] + ([0x30, |rb| + |sb|] + (rb + sb))))
  {
  }

  method AppendSignature(buf: seq<byte>, signature: seq<byte>) returns (out: seq<byte>)
    requires |signature| == 64
    ensures out == buf + Enc(Algorithm()) + Enc(BitString(Enc(SignatureValue(signature))))
    ensures |out| <= |buf| + 100
  {
    AlgorithmIsWritten();
    out := AppendEcdsaWithSHA256(buf);
    var r := DerInteger(signature[..32]);
    var s := DerInteger(signature[32..]);
    SignatureValueIsWritten(out, FromBigEndian(signature[..32]), FromBigEndian(signature[32..]), r, s);
    out := AppendSignatureValue(out, r, s);
  }

  // ---------- The certificate ----------

  lemma VersionIsWritten()
    ensures Enc(Cons(0xA0, [Integer(2)])) == [0xA0, 0x03, 0x02, 0x01, 0x02]
  {
    OneByte(2);
    ShortWrap(0x02, [2]);
    ShortCons(0xA0, Integer(2), [0x02, 0x01, 0x02]);
  }

  // A whole Name: header from the hand-computed length, then the RDNs.
  method AppendFullName(buf: seq<byte>, n: Name) returns (r: seq<byte>)
    requires ShortValues(AllAttributes(n))
    ensures r == buf + Enc(NameTree(n))
    ensures |r| <= |buf| + 3 + 6 * 129 + 1
  {
    var length := NameLength(n);
    var body := EncAll(Rdns(AllAttributes(n)));
    NameSize(AllAttributes(n));
    NameIsWritten(AppendSequenceHeader(buf, length), n);
    SequenceHeader(buf, body);
    r := AppendName(AppendSequenceHeader(buf, length), n);
  }

  lemma {:induction false} NameSize(attrs: seq<Attribute>)
    requires ShortValues(attrs)
    ensures |EncAll(Rdns(attrs))| <= 129 * |attrs|
  {
    if attrs != [] {
      var init, a := attrs[..|attrs| - 1], attrs[|attrs| - 1];
      NameSize(init);
      assert init + [a] == attrs;
      EmitNext([], init, a);
    }
  }

  function ValidityLength(year: int, later: int): nat {
    30 + (if year > 2049 then 2 else 0) + (if later > 2049 then 2 else 0)
  }

  function Expiry(d: Date): Date {
    d.(year := d.year + CERT_EXPIRE_YEARS)
  }

  // The Validity bytes of any date at all.
  function HandValidity(d: Date): seq<byte> {
    [0x30, Truncate(ValidityLength(d.year, Expiry(d).year))] + (DateBytes([], d) + DateBytes([], Expiry(d)))
  }

  lemma ValidityReference(d: Date)
    requires TwoDigits(d) && 0 <= d.year < 10000
    ensures Enc(ValidityTree(d))
            == [0x30, ValidityLength(d.year, NotAfter(d).year)] + (Enc(TimeTree(d)) + Enc(TimeTree(NotAfter(d))))
  {
    DateExactly([], d);
    DateExactly([], NotAfter(d));
    ShortConsPair(0x30, TimeTree(d), TimeTree(NotAfter(d)), Enc(TimeTree(d)), Enc(TimeTree(NotAfter(d))));
  }

  // Two pairs of equally long parts.
  lemma PartsExactly(head: seq<byte>, a: seq<byte>, b: seq<byte>, x: seq<byte>, y: seq<byte>)
    requires |a| == |x| && |b| == |y|
    ensures (head + (a + b) == head + (x + y)) <==> (a == x && b == y)
  {
    var l, r := head + (a + b), head + (x + y);
    assert l[|head|..][..|a|] == a && r[|head|..][..|a|] == x;
    assert l[|head|..][|a|..] == b && r[|head|..][|a|..] == y;
  }

  lemma DateCompares(d: Date)
    requires TwoDigits(d) && 0 <= d.year < 10031
    ensures |DateBytes([], d)| == |Enc(TimeTree(d))|
    ensures DateBytes([], d) == Enc(TimeTree(d)) <==> 2000 <= d.year < 10000
  {
    DateExactly([], d);
    DateFrom([], d);
    assert [] + Enc(TimeTree(d)) == Enc(TimeTree(d));
  }

  // The Validity written by hand is DER exactly when both years are in the writer's range.
  lemma ValidityExactly(d: Date)
    requires TwoDigits(d) && 0 <= d.year < 10000
    ensures |HandValidity(d)| == |Enc(ValidityTree(d))|
    ensures HandValidity(d) == Enc(ValidityTree(d)) <==> InWindow(d)
  {
    var later := NotAfter(d);
    ValidityReference(d);
    DateCompares(d);
    DateCompares(later);
    BothExactly(ValidityLength(d.year, later.year), DateBytes([], d), DateBytes([], later),
                Enc(TimeTree(d)), Enc(TimeTree(later)));
  }

  lemma BothExactly(n: nat, a: seq<byte>, b: seq<byte>, x: seq<byte>, y: seq<byte>)
    requires n < 256 && |a| == |x| && |b| == |y|
    ensures |[0x30, Truncate(n)] + (a + b)| == |[0x30, n] + (x + y)|
    ensures ([0x30, Truncate(n)] + (a + b) == [0x30, n] + (x + y)) <==> (a == x && b == y)
  {
    PartsExactly([0x30, n], a, b, x, y);
  }

  // Both times under the hand-computed validity length.
  method AppendValidity(buf: seq<byte>, d: Date) returns (r: seq<byte>)
    ensures r == buf + HandValidity(d) && |r| <= |buf| + 36
    ensures InWindow(d) ==> r == buf + Enc(ValidityTree(d))
  {
    var notAfter := Expiry(d);
    var valLen := 30;
    if d.year > 2049 {
      valLen := valLen + 2;
    }
    if notAfter.year > 2049 {
      valLen := valLen + 2;
    }
    r := buf + [0x30, Truncate(valLen)];
    r := AppendDate(r, d);
    r := AppendDate(r, notAfter);
    Regroup(buf, [0x30, Truncate(valLen)], DateBytes([], d), DateBytes([], notAfter));
    if InWindow(d) {
      ValidityExactly(d);
    }
  }

  lemma Regroup(w: seq<byte>, x: seq<byte>, y: seq<byte>, z: seq<byte>)
    ensures w + x + y + z == w + (x + (y + z))
  {
  }

  // Each step below extends the buffer from the first k children to the first k + 1.

  lemma Grown(ts: seq<Tlv>, k: nat, buf: seq<byte>, t: Tlv)
    requires k < |ts| && ts[k] == t && buf == EncAll(ts[..k])
    ensures EncAll(ts[..k + 1]) == buf + Enc(t)
  {
    assert ts[..k + 1] == ts[..k] + [ts[k]];
    EncAllSnoc(ts[..k], ts[k]);
  }

  method AppendHead(p: CertParams, ghost ts: seq<Tlv>) returns (r: seq<byte>)
    requires |p.serial| == 16 && |ts| >= 3
    requires ts[0] == Cons(0xA0, [Integer(2)]) && ts[1] == Integer(FromBigEndian(p.serial)) && ts[2] == Algorithm()
    ensures r == EncAll(ts[..3]) && |r| <= 40
  {
    VersionIsWritten();
    assert EncAll(ts[..0]) == [];
    Grown(ts, 0, [], Cons(0xA0, [Integer(2)]));
    r := [0xA0, 0x03, 0x02, 0x01, 0x02];
    Grown(ts, 1, r, Integer(FromBigEndian(p.serial)));
    SerialFits(p.serial);
    r := AppendSerialNumber(r, p.serial);
    AlgorithmIsWritten();
    Grown(ts, 2, r, Algorithm());
    r := AppendEcdsaWithSHA256(r);
  }

  method AddName(buf: seq<byte>, n: Name, ghost ts: seq<Tlv>, ghost k: nat) returns (r: seq<byte>)
    requires k < |ts| && ts[k] == NameTree(n) && buf == EncAll(ts[..k]) && ShortValues(AllAttributes(n))
    ensures r == EncAll(ts[..k + 1]) && |r| <= |buf| + 800
  {
    Grown(ts, k, buf, NameTree(n));
    r := AppendFullName(buf, n);
  }

  // The authority key identifier, or an empty extensions container.
  method AppendExtensions(buf: seq<byte>, aki: seq<byte>) returns (r: seq<byte>)
    requires |aki| == 20
    ensures r == buf + Enc(ExtensionsTree(aki)) && |r| <= |buf| + 37
  {
    ExtensionsAreWritten(buf, aki);
    var hasKeyId := AuthorityKeyIdSet(aki);
    r := if hasKeyId then AppendAuthorityKeyId(buf, aki) else buf + [0xA3, 0x02, 0x30, 0x00];
  }

  lemma NamesAreShort(p: CertParams)
    requires |p.deviceId| == 36
    ensures ShortValues(AllAttributes(CERT_ISSUER)) && ShortValues(AllAttributes(SubjectOf(p)))
  {
  }

  method BuildNames(p: CertParams, ghost ts: seq<Tlv>) returns (inner: seq<byte>)
    requires |p.serial| == 16 && |ts| == 8
    requires ts[0] == Cons(0xA0, [Integer(2)]) && ts[1] == Integer(FromBigEndian(p.serial)) && ts[2] == Algorithm()
    requires ts[3] == NameTree(CERT_ISSUER) && ShortValues(AllAttributes(CERT_ISSUER))
    ensures inner == EncAll(ts[..4]) && |inner| <= 840
  {
    inner := AppendHead(p, ts);
    inner := AddName(inner, CERT_ISSUER, ts, 3);
  }

  // What follows the Validity.
  function AfterValidity(p: CertParams): seq<byte> {
    Enc(NameTree(SubjectOf(p))) + Enc(PublicKeyTree(p.publicKey)) + Enc(ExtensionsTree(p.authKeyId))
  }

  method BuildRest(buf: seq<byte>, p: CertParams) returns (inner: seq<byte>)
    requires LengthsChecked(p) && ShortValues(AllAttributes(SubjectOf(p)))
    ensures inner == buf + AfterValidity(p) && |inner| <= |buf| + 928
  {
    inner := AppendFullName(buf, SubjectOf(p));
    PublicKeyIsWritten(inner, p.publicKey);
    inner := AppendPublicKey(inner, p.publicKey);
    inner := AppendExtensions(inner, p.authKeyId);
    Associate(buf, Enc(NameTree(SubjectOf(p))), Enc(PublicKeyTree(p.publicKey)), Enc(ExtensionsTree(p.authKeyId)));
  }

  lemma Eight(ts: seq<Tlv>, a: Tlv, b: Tlv, c: Tlv, d: Tlv, e: Tlv, f: Tlv, g: Tlv, h: Tlv)
    requires ts == [a, b, c, d, e, f, g, h]
    ensures |ts| == 8 && ts[0] == a && ts[1] == b && ts[2] == c && ts[3] == d
    ensures ts[4] == e && ts[5] == f && ts[6] == g && ts[7] == h
  {
  }

  lemma TbsParts(p: CertParams, ts: seq<Tlv>)
    requires ts == TbsChildren(CertOf(p))
    ensures |ts| == 8
    ensures ts[0] == Cons(0xA0, [Integer(2)]) && ts[1] == Integer(FromBigEndian(p.serial)) && ts[2] == Algorithm()
    ensures ts[3] == NameTree(ISSUER) && ts[4] == ValidityTree(p.issue) && ts[5] == NameTree(SubjectOf(p))
    ensures ts[6] == PublicKeyTree(p.publicKey) && ts[7] == ExtensionsTree(p.authKeyId)
  {
    Eight(ts, Cons(0xA0, [Integer(2)]), Integer(FromBigEndian(p.serial)), Algorithm(), NameTree(ISSUER),
          ValidityTree(p.issue), NameTree(SubjectOf(p)), PublicKeyTree(p.publicKey), ExtensionsTree(p.authKeyId));
  }

  // What precedes the Validity.
  function BeforeValidity(p: CertParams): seq<byte> {
    EncAll(TbsChildren(CertOf(p))[..4])
  }

  method BuildInner(p: CertParams) returns (inner: seq<byte>)
    requires LengthsChecked(p)
    ensures inner == BeforeValidity(p) + HandValidity(p.issue) + AfterValidity(p) && |inner| < 2000
  {
    ghost var ts := TbsChildren(CertOf(p));
    TbsParts(p, ts);
    NamesAreShort(p);
    inner := BuildNames(p, ts);
    inner := AppendValidity(inner, p.issue);
    inner := BuildRest(inner, p);
  }

  // A header in front of a body is the body wrapped.
  method Enclose(body: seq<byte>) returns (r: seq<byte>)
    requires |body| < 65536
    ensures r == Wrap(0x30, body) && |r| <= |body| + 4
  {
    SequenceHeader([], body);
    r := AppendSequenceHeader([], |body|);
    r := r + body;
  }

  // The certificate with these bytes for its Validity and the reference encoding elsewhere.
  function TbsWith(p: CertParams, validity: seq<byte>): seq<byte> {
    Wrap(0x30, BeforeValidity(p) + validity + AfterValidity(p))
  }

  function SignaturePart(p: CertParams): seq<byte>
    requires |p.signature| == 64
  {
    Enc(Algorithm()) + Enc(BitString(Enc(SignatureValue(p.signature))))
  }

  function CertWith(p: CertParams, validity: seq<byte>): seq<byte>
    requires |p.signature| == 64
  {
    Wrap(0x30, TbsWith(p, validity) + SignaturePart(p))
  }

  lemma SplitAtFour(ts: seq<Tlv>)
    requires |ts| == 8
    ensures EncAll(ts) == EncAll(ts[..4]) + Enc(ts[4]) + (Enc(ts[5]) + Enc(ts[6]) + Enc(ts[7]))
  {
    EncAllConcat(ts[..5], ts[5..]);
    assert ts == ts[..5] + ts[5..] && ts[..5] == ts[..4] + [ts[4]] && ts[5..] == [ts[5], ts[6]] + [ts[7]];
    EncAllSnoc(ts[..4], ts[4]);
    EncAllSnoc([ts[5], ts[6]], ts[7]);
    EncPair(ts[5], ts[6]);
  }

  lemma TbsReference(p: CertParams)
    ensures Enc(TbsTree(CertOf(p))) == TbsWith(p, Enc(ValidityTree(p.issue)))
  {
    var ts := TbsChildren(CertOf(p));
    TbsParts(p, ts);
    SplitAtFour(ts);
  }

  lemma CertReferenceIs(p: CertParams)
    requires |p.signature| == 64
    ensures Enc(CertTree(CertOf(p), p.signature)) == CertWith(p, Enc(ValidityTree(p.issue)))
  {
    TbsReference(p);
    CertificateBody(TbsTree(CertOf(p)), Algorithm(), BitString(Enc(SignatureValue(p.signature))),
                    TbsWith(p, Enc(ValidityTree(p.issue))), SignaturePart(p));
  }

  lemma CertificateBody(t: Tlv, alg: Tlv, bits: Tlv, tbs: seq<byte>, sig: seq<byte>)
    requires tbs == Enc(t) && sig == Enc(alg) + Enc(bits)
    ensures Enc(Cons(0x30, [t, alg, bits])) == Wrap(0x30, tbs + sig)
  {
    EncAllConcat([t], [alg, bits]);
    assert [t] + [alg, bits] == [t, alg, bits];
    EncOne(t);
    EncPair(alg, bits);
  }

  lemma WrapExactly(tag: byte, x: seq<byte>, y: seq<byte>)
    requires |x| == |y|
    ensures Wrap(tag, x) == Wrap(tag, y) <==> x == y
  {
    var k := 1 + |DerLength(|x|)|;
    assert Wrap(tag, x)[k..] == x && Wrap(tag, y)[k..] == y;
  }

  lemma BetweenExactly(a: seq<byte>, x: seq<byte>, y: seq<byte>, b: seq<byte>)
    requires |x| == |y|
    ensures (a + x + b == a + y + b) <==> (x == y)
  {
    assert (a + x + b)[|a|..|a| + |x|] == x && (a + y + b)[|a|..|a| + |x|] == y;
  }

  lemma NestedExactly(a: seq<byte>, v: seq<byte>, w: seq<byte>, b: seq<byte>, c: seq<byte>)
    requires |v| == |w|
    ensures Wrap(0x30, Wrap(0x30, a + v + b) + c) == Wrap(0x30, Wrap(0x30, a + w + b) + c) <==> v == w
  {
    var x, y := Wrap(0x30, a + v + b), Wrap(0x30, a + w + b);
    BetweenExactly(a, v, w, b);
    WrapExactly(0x30, a + v + b, a + w + b);
    FollowedExactly(x, y, c);
    WrapExactly(0x30, x + c, y + c);
  }

  lemma FollowedExactly(x: seq<byte>, y: seq<byte>, c: seq<byte>)
    requires |x| == |y|
    ensures (x + c == y + c) <==> (x == y)
  {
    assert (x + c)[..|x|] == x && (y + c)[..|x|] == y;
  }

  // Certificates that differ only in Validity bytes of one length differ.
  lemma WithExactly(p: CertParams, v: seq<byte>, w: seq<byte>)
    requires |p.signature| == 64 && |v| == |w|
    ensures CertWith(p, v) == CertWith(p, w) <==> v == w
  {
    NestedExactly(BeforeValidity(p), v, w, AfterValidity(p), SignaturePart(p));
  }

  // For every field and every date a not_before can spell in digits, the bytes rebuilt by hand
  // are the DER of the certificate exactly when the year is 2000 to 9968.
  lemma CertExactly(p: CertParams)
    requires LengthsChecked(p) && TwoDigits(p.issue) && 0 <= p.issue.year < 10000
    ensures CertWith(p, HandValidity(p.issue)) == Enc(CertTree(CertOf(p), p.signature)) <==> InWindow(p.issue)
  {
    CertReferenceIs(p);
    ValidityExactly(p.issue);
    WithExactly(p, HandValidity(p.issue), Enc(ValidityTree(p.issue)));
  }

  method BuildTbs(p: CertParams) returns (tbs: seq<byte>)
    requires LengthsChecked(p)
    ensures tbs == TbsWith(p, HandValidity(p.issue)) && |tbs| < 2010
    ensures InWindow(p.issue) ==> tbs == Enc(TbsTree(CertOf(p)))
  {
    var inner := BuildInner(p);
    tbs := Enclose(inner);
    TbsReference(p);
    if InWindow(p.issue) {
      ValidityExactly(p.issue);
    }
  }

  method BuildCert(p: CertParams) returns (cert: seq<byte>)
    requires LengthsChecked(p)
    ensures cert == CertWith(p, HandValidity(p.issue)) && |cert| < 3000
    ensures TwoDigits(p.issue) && 0 <= p.issue.year < 10000 ==>
              (cert == Enc(CertTree(CertOf(p), p.signature)) <==> InWindow(p.issue))
  {
    var tbs := BuildTbs(p);
    var sig := AppendSignature([], p.signature);
    assert [] + Enc(Algorithm()) == Enc(Algorithm());
    cert := Enclose(tbs + sig);
    if TwoDigits(p.issue) && 0 <= p.issue.year < 10000 {
      CertExactly(p);
    }
  }
}
