/**
 Who issues and who reads a rebuilt certificate: the CA that signs the same fields, and a strict
 reader that gets every field back from the bytes.
 */
module CertFields {
  import opened Common
  import opened Bytes
  import opened Der
  import opened CertReference
  import opened CertCode

  // ---------- The CA ----------

  // Signs nothing a firmware could not rebuild: no character outside PrintableString, no day
  // that is missing from the year the validity ends in.
  function CaCertificate(c: DeviceCert, signature: seq<byte>): Option<seq<byte>> {
    if |c.publicKey| != 64 || |c.serial| != 16 || |c.aki| != 20 || |signature| != 64 then None
    else if Present(AllAttributes(c.subject)) == [] || !PrintableName(c.subject) then None
    else if !ValidDate(NotAfter(c.notBefore)) || !(1950 <= c.notBefore.year < 10000 - DEVICE_EXPIRE_YEARS) then None
    else Some(Enc(CertTree(c, signature)))
  }

  function Present(attrs: seq<Attribute>): seq<Attribute> {
    if attrs == [] then []
    else
      Present(attrs[..|attrs| - 1])
      + (var a := attrs[|attrs| - 1]; if a.value == [] then [] else [a])
  }

  lemma OnlyCommonName(id: seq<byte>)
    requires id != []
    ensures Present(AllAttributes(Name([], [], [], [], [], id))) == [Attribute(3, id)]
  {
    var all := AllAttributes(Name([], [], [], [], [], id));
    AllAbsent(all[..5]);
  }

  lemma {:induction false} AllAbsent(attrs: seq<Attribute>)
    requires forall a <- attrs :: a.value == []
    ensures Present(attrs) == []
  {
    if attrs != [] {
      AllAbsent(attrs[..|attrs| - 1]);
    }
  }

  // For the fields the daemon accepts and a real date of issue, the CA signs exactly when the
  // device id is printable, the date is not 29 February and both years fit their time types.
  lemma CaSignsExactly(p: CertParams)
    requires LengthsChecked(p) && ValidDate(p.issue)
    ensures CaCertificate(CertOf(p), p.signature).Some?
            <==> && Printable(p.deviceId) && !(p.issue.month == 2 && p.issue.day == 29)
                 && 1950 <= p.issue.year <= 9968
  {
    OnlyCommonName(p.deviceId);
    NotAfterIsADate(p.issue);
  }

  // ---------- The reader ----------

  datatype Fields = Fields(
    serial: nat, issuer: seq<Attribute>, notBefore: Date, notAfter: Date, subject: seq<Attribute>,
    publicKey: seq<byte>, keyId: Option<seq<byte>>, r: nat, s: nat)

  function Number(hi: byte, lo: byte): int {
    10 * (hi - 0x30) + (lo - 0x30)
  }

  predicate DigitsAt(c: seq<byte>, i: nat)
    requires i + 1 < |c|
  {
    0x30 <= c[i] <= 0x39 && 0x30 <= c[i + 1] <= 0x39
  }

  // The century of a UTCTime (section 4.1.2.5.1 of RFC 5280).
  function FullYear(yy: int): int {
    if yy < 50 then 2000 + yy else 1900 + yy
  }

  function ReadTime(t: Tlv): Option<Date> {
    if !t.Prim? then None
    else
      var c := t.content;
      if t.tag == 0x17 && |c| == 13 && c[8..] == ON_THE_HOUR
         && DigitsAt(c, 0) && DigitsAt(c, 2) && DigitsAt(c, 4) && DigitsAt(c, 6)
      then
        Some(Date(FullYear(Number(c[0], c[1])), Number(c[2], c[3]), Number(c[4], c[5]), Number(c[6], c[7])))
      else if t.tag == 0x18 && |c| == 15 && c[10..] == ON_THE_HOUR
              && DigitsAt(c, 0) && DigitsAt(c, 2) && DigitsAt(c, 4) && DigitsAt(c, 6) && DigitsAt(c, 8)
      then
        Some(Date(100 * Number(c[0], c[1]) + Number(c[2], c[3]),
                  Number(c[4], c[5]), Number(c[6], c[7]), Number(c[8], c[9])))
      else None
  }

  function ReadValidity(t: Tlv): Option<(Date, Date)> {
    if t.Cons? && t.tag == 0x30 && |t.children| == 2 then
      match (ReadTime(t.children[0]), ReadTime(t.children[1]))
      case (Some(a), Some(b)) => Some((a, b))
      case (_, _) => None
    else None
  }

  function ReadInteger(t: Tlv): Option<nat> {
    if t.Prim? && t.tag == 0x02 then ParseInt(t.content) else None
  }

  // An RDN of one attribute under the 2.5.4 arc.
  function ReadRdn(t: Tlv): Option<Attribute> {
    if t.Cons? && t.tag == 0x31 && |t.children| == 1
       && t.children[0].Cons? && t.children[0].tag == 0x30 && |t.children[0].children| == 2
    then
      var oid, text := t.children[0].children[0], t.children[0].children[1];
      if oid.Prim? && text.Prim? && oid.tag == 0x06 && text.tag == 0x13
         && |oid.content| == 3 && oid.content[..2] == [0x55, 0x04]
      then Some(Attribute(oid.content[2], text.content)) else None
    else None
  }

  function ReadRdns(ts: seq<Tlv>): Option<seq<Attribute>> {
    if ts == [] then Some([])
    else
      match (ReadRdns(ts[..|ts| - 1]), ReadRdn(ts[|ts| - 1]))
      case (Some(attrs), Some(a)) => Some(attrs + [a])
      case (_, _) => None
  }

  function ReadName(t: Tlv): Option<seq<Attribute>> {
    if t.Cons? && t.tag == 0x30 then ReadRdns(t.children) else None
  }

  // The uncompressed point in the BIT STRING of a SubjectPublicKeyInfo for P-256.
  function ReadPublicKey(t: Tlv): Option<seq<byte>> {
    if t.Cons? && t.tag == 0x30 && |t.children| == 2
       && t.children[0] == KeyAlgorithm() && t.children[1].Prim? && t.children[1].tag == 0x03
    then
      ReadPoint(t.children[1].content)
    else None
  }

  function ReadPoint(bits: seq<byte>): Option<seq<byte>> {
    if |bits| == 66 && bits[0] == 0 && bits[1] == 4 then Some(bits[2..]) else None
  }

  function ReadKeyIdentifier(t: Tlv): Option<seq<byte>> {
    if t.Cons? && t.tag == 0x30 && |t.children| == 1 && t.children[0].Prim? && t.children[0].tag == 0x80
    then Some(t.children[0].content) else None
  }

  // The identifier inside the OCTET STRING of an extension.
  function ReadExtension(t: Tlv): Option<seq<byte>> {
    if t.Cons? && t.tag == 0x30 && |t.children| == 2
       && t.children[0] == Oid(2, 5, [29, 35]) && t.children[1].Prim? && t.children[1].tag == 0x04
    then
      match Parse(t.children[1].content)
      case None => None
      case Some(inner) => ReadKeyIdentifier(inner)
    else None
  }

  // One extension or none.
  function ReadExtensions(t: Tlv): Option<Option<seq<byte>>> {
    if !(t.Cons? && t.tag == 0xA3 && |t.children| == 1 && t.children[0].Cons? && t.children[0].tag == 0x30) then None
    else
      var exts := t.children[0].children;
      if exts == [] then Some(None)
      else if |exts| == 1 then
        match ReadExtension(exts[0])
        case None => None
        case Some(id) => Some(Some(id))
      else None
  }

  function ReadScalars(t: Tlv): Option<(nat, nat)> {
    if t.Cons? && t.tag == 0x30 && |t.children| == 2 then
      match (ReadInteger(t.children[0]), ReadInteger(t.children[1]))
      case (Some(r), Some(s)) => Some((r, s))
      case (_, _) => None
    else None
  }

  function ReadSignature(t: Tlv): Option<(nat, nat)> {
    if t.Prim? && t.tag == 0x03 && t.content != [] && t.content[0] == 0 then
      match Parse(t.content[1..])
      case None => None
      case Some(value) => ReadScalars(value)
    else None
  }

  function ReadTbs(ts: seq<Tlv>, sig: (nat, nat)): Option<Fields>
    requires |ts| == 8
  {
    if ts[0] != Version() || ts[2] != Algorithm() then None
    else
      match (ReadInteger(ts[1]), ReadName(ts[3]), ReadValidity(ts[4]))
      case (Some(serial), Some(issuer), Some(dates)) =>
        (match (ReadName(ts[5]), ReadPublicKey(ts[6]), ReadExtensions(ts[7]))
         case (Some(subject), Some(key), Some(id)) =>
           Some(Fields(serial, issuer, dates.0, dates.1, subject, key, id, sig.0, sig.1))
         case (_, _, _) => None)
      case (_, _, _) => None
  }

  function ReadTree(t: Tlv): Option<Fields> {
    if t.Cons? && t.tag == 0x30 && |t.children| == 3 && t.children[1] == Algorithm()
       && t.children[0].Cons? && t.children[0].tag == 0x30 && |t.children[0].children| == 8
    then
      match ReadSignature(t.children[2])
      case None => None
      case Some(sig) => ReadTbs(t.children[0].children, sig)
    else None
  }

  function ReadCert(data: seq<byte>): Option<Fields> {
    match Parse(data)
    case None => None
    case Some(t) => ReadTree(t)
  }

  // ---------- What was written is what is read ----------

  function FieldsOf(p: CertParams): Fields
    requires LengthsChecked(p)
  {
    Fields(FromBigEndian(p.serial), Present(AllAttributes(ISSUER)), p.issue, NotAfter(p.issue),
           [Attribute(3, p.deviceId)], p.publicKey, if AnyNonZero(p.authKeyId) then Some(p.authKeyId) else None,
           ScalarsOf(p.signature).0, ScalarsOf(p.signature).1)
  }

  function ScalarsOf(signature: seq<byte>): (nat, nat)
    requires |signature| == 64
  {
    (FromBigEndian(signature[..32]), FromBigEndian(signature[32..]))
  }

  predicate Reads(s: seq<byte>, n: int) {
    |s| == 2 && DigitsAt(s, 0) && Number(s[0], s[1]) == n
  }

  // Pairs of digits laid out as a UTCTime, and as a GeneralizedTime with the century in front.
  lemma UtcIsRead(y: seq<byte>, m: seq<byte>, d: seq<byte>, h: seq<byte>, date: Date)
    requires date.year < 2050 && Reads(y, date.year - 2000)
    requires Reads(m, date.month) && Reads(d, date.day) && Reads(h, date.hour)
    ensures ReadTime(Prim(0x17, y + (m + d + h + ON_THE_HOUR))) == Some(date)
  {
    var c := y + (m + d + h + ON_THE_HOUR);
    assert c[8..] == ON_THE_HOUR;
  }

  lemma GeneralizedIsRead(c: seq<byte>, y: seq<byte>, m: seq<byte>, d: seq<byte>, h: seq<byte>, date: Date)
    requires Reads(c, date.year / 100) && Reads(y, date.year % 100)
    requires Reads(m, date.month) && Reads(d, date.day) && Reads(h, date.hour)
    ensures ReadTime(Prim(0x18, c + y + (m + d + h + ON_THE_HOUR))) == Some(date)
  {
    var bytes := c + y + (m + d + h + ON_THE_HOUR);
    assert bytes[10..] == ON_THE_HOUR;
    assert date.year == 100 * (date.year / 100) + date.year % 100;
  }

  lemma UtcTree(d: Date, y: seq<byte>, m: seq<byte>, day: seq<byte>, h: seq<byte>)
    requires 2000 <= d.year <= 2049 && y == Two(d.year - 2000) && m == Two(d.month) && day == Two(d.day) && h == Two(d.hour)
    ensures TimeTree(d) == Prim(0x17, y + (m + day + h + ON_THE_HOUR))
  {
  }

  lemma GeneralizedTree(d: Date, c: seq<byte>, y: seq<byte>, m: seq<byte>, day: seq<byte>, h: seq<byte>)
    requires d.year > 2049 && c == Two(d.year / 100) && y == Two(d.year % 100)
    requires m == Two(d.month) && day == Two(d.day) && h == Two(d.hour)
    ensures TimeTree(d) == Prim(0x18, c + y + (m + day + h + ON_THE_HOUR))
  {
  }

  // The two digits of a number, by what a reader makes of them.
  lemma DigitPair(n: int) returns (s: seq<byte>)
    requires 0 <= n < 100
    ensures s == Two(n) && Reads(s, n)
  {
    s := Two(n);
  }

  lemma TimeIsRead(d: Date)
    requires 2000 <= d.year < 10000 && TwoDigits(d)
    ensures ReadTime(TimeTree(d)) == Some(d)
  {
    var m := DigitPair(d.month);
    var day := DigitPair(d.day);
    var h := DigitPair(d.hour);
    if d.year > 2049 {
      var c := DigitPair(d.year / 100);
      var y := DigitPair(d.year % 100);
      GeneralizedTree(d, c, y, m, day, h);
      GeneralizedIsRead(c, y, m, day, h, d);
    } else {
      var y := DigitPair(d.year - 2000);
      UtcTree(d, y, m, day, h);
      UtcIsRead(y, m, day, h, d);
    }
  }

  lemma TimeIsTagged(d: Date)
    ensures Tagged(TimeTree(d))
  {
  }

  lemma IntegerIsRead(n: nat)
    ensures ReadInteger(Integer(n)) == Some(n)
  {
    IntRoundTrip(n);
  }

  lemma RdnIsRead(a: Attribute)
    requires a.arc < 128
    ensures ReadRdn(Rdn(a)) == Some(a)
    ensures Tagged(Rdn(a))
  {
    SmallArcs([4, a.arc]);
    var oid, text := Oid(2, 5, [4, a.arc]), Prim(0x13, a.value);
    assert oid.content == [0x55, 0x04, a.arc];
    assert Tagged(oid) && Tagged(text);
    assert Tagged(Cons(0x30, [oid, text]));
  }

  lemma {:induction false} RdnsAreRead(attrs: seq<Attribute>)
    requires forall a <- attrs :: a.arc < 128
    ensures ReadRdns(Rdns(attrs)) == Some(Present(attrs))
    ensures forall t <- Rdns(attrs) :: Tagged(t)
  {
    if attrs != [] {
      var init, a := attrs[..|attrs| - 1], attrs[|attrs| - 1];
      RdnsAreRead(init);
      RdnIsRead(a);
      if a.value == [] {
        assert Rdns(attrs) == Rdns(init) && Present(attrs) == Present(init);
      } else {
        var ts := Rdns(attrs);
        assert ts == Rdns(init) + [Rdn(a)];
        assert ts[..|ts| - 1] == Rdns(init);
      }
    }
  }

  lemma ArcsAreSmall(n: Name)
    ensures forall a <- AllAttributes(n) :: a.arc < 128
  {
  }

  lemma RdnSequence(attrs: seq<Attribute>)
    requires forall a <- attrs :: a.arc < 128
    ensures ReadName(Cons(0x30, Rdns(attrs))) == Some(Present(attrs))
    ensures Tagged(Cons(0x30, Rdns(attrs)))
  {
    RdnsAreRead(attrs);
    TaggedCons(0x30, Rdns(attrs));
  }

  lemma NameIsRead(n: Name)
    ensures ReadName(NameTree(n)) == Some(Present(AllAttributes(n)))
    ensures Tagged(NameTree(n))
  {
    ArcsAreSmall(n);
    RdnSequence(AllAttributes(n));
  }

  lemma OidIsTagged(first: nat, second: nat, arcs: seq<nat>)
    requires 40 * first + second < 128
    ensures Tagged(Oid(first, second, arcs))
  {
  }

  lemma PointIsRead(key: seq<byte>)
    requires |key| == 64
    ensures BitString([0x04] + key).content == [0, 4] + key && ReadPoint([0, 4] + key) == Some(key)
  {
    assert [0] + ([0x04] + key) == [0, 4] + key;
    assert ([0, 4] + key)[2..] == key;
  }

  lemma KeyInfoIsRead(alg: Tlv, bits: Tlv, key: seq<byte>)
    requires alg == KeyAlgorithm() && bits.Prim? && bits.tag == 0x03 && ReadPoint(bits.content) == Some(key)
    ensures ReadPublicKey(Cons(0x30, [alg, bits])) == Some(key)
  {
  }

  lemma KeyAlgorithmIsTagged()
    ensures Tagged(KeyAlgorithm())
  {
    OidIsTagged(1, 2, [840, 10045, 2, 1]);
    OidIsTagged(1, 2, [840, 10045, 3, 1, 7]);
    TaggedCons(0x30, KeyAlgorithm().children);
  }

  lemma KeyIsRead(key: seq<byte>)
    requires |key| == 64
    ensures ReadPublicKey(PublicKeyTree(key)) == Some(key)
    ensures Tagged(PublicKeyTree(key))
  {
    var bits := BitString([0x04] + key);
    PointIsRead(key);
    KeyInfoIsRead(KeyAlgorithm(), bits, key);
    KeyAlgorithmIsTagged();
    assert Tagged(bits);
    TaggedCons(0x30, [KeyAlgorithm(), bits]);
  }

  lemma IdentifierIsParsed(aki: seq<byte>)
    requires |aki| == 20
    ensures Parse(Enc(KeyIdentifier(aki))) == Some(KeyIdentifier(aki))
  {
    ShortWrap(0x80, aki);
    ShortCons(0x30, Prim(0x80, aki), [0x80, 20] + aki);
    assert Tagged(Prim(0x80, aki));
    ParseOfEnc(KeyIdentifier(aki));
  }

  lemma ExtensionsAreRead(aki: seq<byte>)
    requires |aki| == 20
    ensures ReadExtensions(ExtensionsTree(aki)) == Some(if AnyNonZero(aki) then Some(aki) else None)
    ensures Tagged(ExtensionsTree(aki))
  {
    if AnyNonZero(aki) {
      IdentifierIsParsed(aki);
      var oid, octets := Oid(2, 5, [29, 35]), Prim(0x04, Enc(KeyIdentifier(aki)));
      assert Tagged(oid) && Tagged(octets);
      assert Tagged(Cons(0x30, [oid, octets]));
      assert Tagged(Cons(0x30, [Cons(0x30, [oid, octets])]));
    } else {
      assert Tagged(Cons(0x30, []));
    }
  }

  lemma ScalarSize(bs: seq<byte>)
    requires |bs| == 32
    ensures |Enc(Integer(FromBigEndian(bs)))| <= 35
  {
    MinimalSize(FromBigEndian(bs), 32);
    ShortWrap(0x02, IntContent(FromBigEndian(bs)));
  }

  lemma ScalarsAreParsed(a: Tlv, b: Tlv)
    requires a.Prim? && b.Prim? && a.tag == 0x02 == b.tag && |Enc(a)| <= 35 && |Enc(b)| <= 35
    ensures Parse(Enc(Cons(0x30, [a, b]))) == Some(Cons(0x30, [a, b]))
  {
    ShortConsPair(0x30, a, b, Enc(a), Enc(b));
    assert Tagged(a) && Tagged(b);
    ParseOfEnc(Cons(0x30, [a, b]));
  }

  lemma SignatureIsRead(signature: seq<byte>)
    requires |signature| == 64
    ensures ReadSignature(BitString(Enc(SignatureValue(signature))))
            == Some(ScalarsOf(signature))
  {
    var x, y := FromBigEndian(signature[..32]), FromBigEndian(signature[32..]);
    ScalarSize(signature[..32]);
    ScalarSize(signature[32..]);
    ScalarsAreParsed(Integer(x), Integer(y));
    IntegerIsRead(x);
    IntegerIsRead(y);
    var body := Enc(SignatureValue(signature));
    assert ([0] + body)[1..] == body;
  }

  lemma DatesAreRead(t: Tlv, u: Tlv, a: Date, b: Date)
    requires ReadTime(t) == Some(a) && ReadTime(u) == Some(b) && Tagged(t) && Tagged(u)
    ensures ReadValidity(Cons(0x30, [t, u])) == Some((a, b))
    ensures Tagged(Cons(0x30, [t, u]))
  {
    TaggedCons(0x30, [t, u]);
  }

  lemma ValidityIsRead(d: Date)
    requires InWindow(d)
    ensures ReadValidity(ValidityTree(d)) == Some((d, NotAfter(d)))
    ensures Tagged(ValidityTree(d))
  {
    TimeIsRead(d);
    TimeIsRead(NotAfter(d));
    TimeIsTagged(d);
    TimeIsTagged(NotAfter(d));
    DatesAreRead(TimeTree(d), TimeTree(NotAfter(d)), d, NotAfter(d));
  }

  lemma TbsIsRead(p: CertParams, ts: seq<Tlv>, sig: (nat, nat))
    requires LengthsChecked(p) && InWindow(p.issue) && ts == TbsChildren(CertOf(p))
    requires sig == ScalarsOf(p.signature)
    ensures |ts| == 8 && ReadTbs(ts, sig) == Some(FieldsOf(p))
  {
    TbsParts(p, ts);
    IntegerIsRead(FromBigEndian(p.serial));
    NameIsRead(ISSUER);
    NameIsRead(SubjectOf(p));
    OnlyCommonName(p.deviceId);
    ValidityIsRead(p.issue);
    KeyIsRead(p.publicKey);
    ExtensionsAreRead(p.authKeyId);
  }

  lemma AllEight(ts: seq<Tlv>)
    requires |ts| == 8 && Tagged(ts[0]) && Tagged(ts[1]) && Tagged(ts[2]) && Tagged(ts[3])
    requires Tagged(ts[4]) && Tagged(ts[5]) && Tagged(ts[6]) && Tagged(ts[7])
    ensures Tagged(Cons(0x30, ts))
  {
    TaggedCons(0x30, ts);
  }

  lemma VersionIsTagged(t: Tlv)
    requires t == Cons(0xA0, [Integer(2)])
    ensures Tagged(t)
  {
    TaggedCons(0xA0, [Integer(2)]);
  }

  lemma IntegerIsTagged(n: nat)
    ensures Tagged(Integer(n))
  {
  }

  lemma TbsIsTagged(p: CertParams, ts: seq<Tlv>)
    requires LengthsChecked(p) && InWindow(p.issue) && ts == TbsChildren(CertOf(p))
    ensures Tagged(Cons(0x30, ts))
  {
    TbsParts(p, ts);
    VersionIsTagged(ts[0]);
    IntegerIsTagged(FromBigEndian(p.serial));
    AlgorithmIsTagged();
    NameIsRead(ISSUER);
    ValidityIsRead(p.issue);
    NameIsRead(SubjectOf(p));
    KeyIsRead(p.publicKey);
    ExtensionsAreRead(p.authKeyId);
    AllEight(ts);
  }

  lemma AlgorithmIsTagged()
    ensures Tagged(Algorithm())
  {
    assert Tagged(Oid(1, 2, [840, 10045, 4, 3, 2]));
  }

  ghost predicate ReadsAs(tbs: seq<Tlv>, sig: (nat, nat), f: Fields) {
    |tbs| == 8 && ReadTbs(tbs, sig) == Some(f) && Tagged(Cons(0x30, tbs))
  }

  lemma TbsReadsAs(p: CertParams)
    requires LengthsChecked(p) && InWindow(p.issue)
    ensures ReadsAs(TbsChildren(CertOf(p)), ScalarsOf(p.signature), FieldsOf(p))
  {
    TbsIsRead(p, TbsChildren(CertOf(p)), ScalarsOf(p.signature));
    TbsIsTagged(p, TbsChildren(CertOf(p)));
  }

  lemma PartsAreRead(head: Tlv, alg: Tlv, bits: Tlv, sig: (nat, nat))
    requires head.Cons? && head.tag == 0x30 && |head.children| == 8 && alg == Algorithm()
    requires ReadSignature(bits) == Some(sig)
    ensures ReadTree(Cons(0x30, [head, alg, bits])) == ReadTbs(head.children, sig)
  {
  }

  lemma TreeIsRead(tbs: seq<Tlv>, alg: Tlv, bits: Tlv, sig: (nat, nat), f: Fields)
    requires ReadsAs(tbs, sig, f) && ReadSignature(bits) == Some(sig) && alg == Algorithm()
    ensures var t := Cons(0x30, [Cons(0x30, tbs), alg, bits]); ReadTree(t) == Some(f) && Tagged(t)
  {
    AlgorithmIsTagged();
    BitsAreTagged(bits);
    ThreeTagged(Cons(0x30, tbs), alg, bits);
    PartsAreRead(Cons(0x30, tbs), alg, bits, sig);
  }

  lemma BitsAreTagged(t: Tlv)
    requires ReadSignature(t).Some?
    ensures Tagged(t)
  {
  }

  lemma ThreeTagged(a: Tlv, b: Tlv, c: Tlv)
    requires Tagged(a) && Tagged(b) && Tagged(c)
    ensures Tagged(Cons(0x30, [a, b, c]))
  {
    TaggedCons(0x30, [a, b, c]);
  }

  lemma CertIsRead(p: CertParams)
    requires LengthsChecked(p) && InWindow(p.issue) && |Enc(CertTree(CertOf(p), p.signature))| < MAX_LENGTH
    ensures ReadCert(Enc(CertTree(CertOf(p), p.signature))) == Some(FieldsOf(p))
  {
    TbsReadsAs(p);
    SignatureIsRead(p.signature);
    TreeIsRead(TbsChildren(CertOf(p)), Algorithm(), BitString(Enc(SignatureValue(p.signature))),
               ScalarsOf(p.signature), FieldsOf(p));
    ParseOfEnc(CertTree(CertOf(p), p.signature));
  }

  lemma CaDates(p: CertParams)
    requires LengthsChecked(p) && CaCertificate(CertOf(p), p.signature).Some?
    ensures TwoDigits(p.issue) && 0 <= p.issue.year < 10000 && (InWindow(p.issue) <==> p.issue.year >= 2000)
    ensures CaCertificate(CertOf(p), p.signature).value == Enc(CertTree(CertOf(p), p.signature))
    ensures Printable(p.deviceId)
  {
  }

  // The certificate says what the answer said: dates 31 years apart, the fixed issuer, the
  // device id as the only subject attribute.
  ghost predicate Carries(f: Fields, p: CertParams)
    requires LengthsChecked(p)
  {
    && f.serial == FromBigEndian(p.serial)
    && f.issuer == [Attribute(6, [0x55, 0x53]),                                        // C=US
                    Attribute(10, [0x41, 0x72, 0x64, 0x75, 0x69, 0x6E, 0x6F, 0x20,
                                   0x4C, 0x4C, 0x43, 0x20, 0x55, 0x53]),               // O=Arduino LLC US
                    Attribute(11, [0x49, 0x54]),                                       // OU=IT
                    Attribute(3, [0x41, 0x72, 0x64, 0x75, 0x69, 0x6E, 0x6F])]          // CN=Arduino
    && f.notBefore == p.issue
    && f.notAfter == Date(p.issue.year + 31, p.issue.month, p.issue.day, p.issue.hour)
    && f.subject == [Attribute(3, p.deviceId)] && f.publicKey == p.publicKey
    && f.keyId == (if exists b <- p.authKeyId :: b != 0 then Some(p.authKeyId) else None)
    && f.r == FromBigEndian(p.signature[..32]) && f.s == FromBigEndian(p.signature[32..])
  }

  lemma IssuerIsPresent()
    ensures Present(AllAttributes(ISSUER))
            == [Attribute(6, ISSUER.country), Attribute(10, ISSUER.org),
                Attribute(11, ISSUER.orgUnit), Attribute(3, ISSUER.commonName)]
  {
    var all := AllAttributes(ISSUER);
    assert all[..0] == [] && Present(all[..0]) == [];
    PresentNext(all, 0);
    PresentNext(all, 1);
    PresentNext(all, 2);
    PresentNext(all, 3);
    PresentNext(all, 4);
    PresentNext(all, 5);
    assert all[..6] == all;
  }

  lemma PresentNext(attrs: seq<Attribute>, k: nat)
    requires k < |attrs|
    ensures Present(attrs[..k + 1]) == Present(attrs[..k]) + if attrs[k].value == [] then [] else [attrs[k]]
  {
    assert attrs[..k + 1][..k] == attrs[..k];
  }

  lemma IssuerText()
    ensures ISSUER.country == [0x55, 0x53] && ISSUER.orgUnit == [0x49, 0x54]
    ensures ISSUER.org == [0x41, 0x72, 0x64, 0x75, 0x69, 0x6E, 0x6F, 0x20, 0x4C, 0x4C, 0x43, 0x20, 0x55, 0x53]
    ensures ISSUER.commonName == [0x41, 0x72, 0x64, 0x75, 0x69, 0x6E, 0x6F]
  {
  }

  lemma FieldsCarry(p: CertParams)
    requires LengthsChecked(p)
    ensures Carries(FieldsOf(p), p)
  {
    IssuerIsPresent();
    IssuerText();
  }

  // The rebuilt certificate is the one the CA signed exactly when the year is 2000 or later,
  // and a strict reader finds in it every field of the response.
  method Reconstruct(p: CertParams) returns (cert: seq<byte>)
    requires LengthsChecked(p)
    ensures cert == CertWith(p, HandValidity(p.issue))
    ensures TwoDigits(p.issue) && 0 <= p.issue.year < 10000 ==>
              (cert == Enc(CertTree(CertOf(p), p.signature)) <==> 2000 <= p.issue.year <= 9968)
    ensures var signed := CaCertificate(CertOf(p), p.signature);
            signed.Some? ==> (cert == signed.value <==> p.issue.year >= 2000)
    ensures 2000 <= p.issue.year <= 9968 && TwoDigits(p.issue) ==>
              ReadCert(cert).Some? && Carries(ReadCert(cert).value, p)
  {
    cert := BuildCert(p);
    if CaCertificate(CertOf(p), p.signature).Some? {
      CaDates(p);
    }
    if InWindow(p.issue) {
      CertIsRead(p);
      FieldsCarry(p);
    }
  }
}
