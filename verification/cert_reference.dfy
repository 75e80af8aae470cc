/**
 The device certificate as a tree of TLVs (section 4.1 of RFC 5280), encoded by the generic
 length-computing writer: the form the CA signs.
 */
module CertReference {
  import opened Common
  import opened Bytes
  import opened Der

  const DEVICE_EXPIRE_YEARS := 31          // the CA's; the daemon has its own

  datatype Name = Name(
    country: seq<byte>, state: seq<byte>, locality: seq<byte>,
    org: seq<byte>, orgUnit: seq<byte>, commonName: seq<byte>)

  datatype Date = Date(year: int, month: int, day: int, hour: int)

  datatype DeviceCert = DeviceCert(
    subject: Name, publicKey: seq<byte>, serial: seq<byte>, aki: seq<byte>, notBefore: Date)

  function ByteOf(c: char): byte {
    c as int % 256
  }

  function Ascii(s: string): (r: seq<byte>)
    ensures |r| == |s|
  {
    seq(|s|, i requires 0 <= i < |s| => ByteOf(s[i]))
  }

  // The issuer as the CA names itself.
  const ISSUER := Name(Ascii("US"), [], [], Ascii("Arduino LLC US"), Ascii("IT"), Ascii("Arduino"))

  // ---------- Names ----------

  datatype Attribute = Attribute(arc: nat, value: seq<byte>)

  function AllAttributes(n: Name): seq<Attribute> {
    [Attribute(6, n.country), Attribute(8, n.state), Attribute(7, n.locality),
     Attribute(10, n.org), Attribute(11, n.orgUnit), Attribute(3, n.commonName)]
  }

  // One RDN for each attribute that is present, in the firmware's order.
  function Rdns(attrs: seq<Attribute>): seq<Tlv> {
    if attrs == [] then []
    else
      Rdns(attrs[..|attrs| - 1])
      + (var a := attrs[|attrs| - 1]; if a.value == [] then [] else [Rdn(a)])
  }

  function Rdn(a: Attribute): Tlv {
    Cons(0x31, [Cons(0x30, [Oid(2, 5, [4, a.arc]), Prim(0x13, a.value)])])
  }

  function NameTree(n: Name): Tlv {
    Cons(0x30, Rdns(AllAttributes(n)))
  }

  // The PrintableString characters (section 41.4 of X.680).
  predicate PrintableChar(b: byte) {
    || 'A' as int <= b <= 'Z' as int || 'a' as int <= b <= 'z' as int || '0' as int <= b <= '9' as int
    || b in {0x20, 0x27, 0x28, 0x29, 0x2B, 0x2C, 0x2D, 0x2E, 0x2F, 0x3A, 0x3D, 0x3F}
  }

  predicate Printable(s: seq<byte>) {
    forall b <- s :: PrintableChar(b)
  }

  predicate PrintableName(n: Name) {
    && Printable(n.country) && Printable(n.state) && Printable(n.locality)
    && Printable(n.org) && Printable(n.orgUnit) && Printable(n.commonName)
  }

  // ---------- Dates ----------

  predicate Leap(year: int) {
    year % 4 == 0 && (year % 100 != 0 || year % 400 == 0)
  }

  function DaysIn(year: int, month: int): int {
    if month == 2 then (if Leap(year) then 29 else 28)
    else if month in {4, 6, 9, 11} then 30 else 31
  }

  predicate ValidDate(d: Date) {
    1 <= d.month <= 12 && 1 <= d.day <= DaysIn(d.year, d.month) && 0 <= d.hour < 24
  }

  // notBefore plus the fixed validity, with month, day and hour copied.
  function NotAfter(d: Date): Date {
    d.(year := d.year + DEVICE_EXPIRE_YEARS)
  }

  function Digit(n: int): byte {
    0x30 + n % 10
  }

  function Two(n: int): seq<byte> {
    [Digit(n / 10), Digit(n)]
  }

  const ON_THE_HOUR: seq<byte> := [0x30, 0x30, 0x30, 0x30, 0x5A]

  // UTCTime through 2049, GeneralizedTime from 2050; minutes and seconds are zero.
  function TimeTree(d: Date): Tlv {
    var rest := Two(d.month) + Two(d.day) + Two(d.hour) + ON_THE_HOUR;
    if d.year > 2049 then Prim(0x18, Two(d.year / 100) + Two(d.year % 100) + rest)
    else Prim(0x17, Two(d.year % 100) + rest)
  }

  // Adding 31 years keeps every calendar day but 29 February.
  lemma NotAfterIsADate(d: Date)
    requires ValidDate(d)
    ensures NotAfter(d) == Date(d.year + 31, d.month, d.day, d.hour)
    ensures ValidDate(NotAfter(d)) <==> !(d.month == 2 && d.day == 29)
  {
  }

  // ---------- The certificate ----------

  function Algorithm(): Tlv {
    Cons(0x30, [Oid(1, 2, [840, 10045, 4, 3, 2])])
  }

  // An elliptic-curve key on P-256.
  function KeyAlgorithm(): Tlv {
    Cons(0x30, [Oid(1, 2, [840, 10045, 2, 1]), Oid(1, 2, [840, 10045, 3, 1, 7])])
  }

  function PublicKeyTree(key: seq<byte>): Tlv {
    Cons(0x30, [KeyAlgorithm(), BitString([0x04] + key)])
  }

  function Version(): Tlv {
    Cons(0xA0, [Integer(2)])
  }

  predicate AnyNonZero(bs: seq<byte>) {
    exists b <- bs :: b != 0
  }

  function KeyIdentifier(aki: seq<byte>): Tlv {
    Cons(0x30, [Prim(0x80, aki)])
  }

  // The one extension there is, or none for an all-zero identifier.
  function ExtensionsTree(aki: seq<byte>): Tlv {
    Cons(0xA3, [Cons(0x30,
                     if AnyNonZero(aki) then [Cons(0x30, [Oid(2, 5, [29, 35]), Prim(0x04, Enc(KeyIdentifier(aki)))])]
                     else [])])
  }

  function ValidityTree(d: Date): Tlv {
    Cons(0x30, [TimeTree(d), TimeTree(NotAfter(d))])
  }

  function TbsChildren(c: DeviceCert): seq<Tlv> {
    [Version(), Integer(FromBigEndian(c.serial)), Algorithm(), NameTree(ISSUER),
     ValidityTree(c.notBefore), NameTree(c.subject), PublicKeyTree(c.publicKey), ExtensionsTree(c.aki)]
  }

  function TbsTree(c: DeviceCert): Tlv {
    Cons(0x30, TbsChildren(c))
  }

  function SignatureValue(signature: seq<byte>): Tlv
    requires |signature| == 64
  {
    Cons(0x30, [Integer(FromBigEndian(signature[..32])), Integer(FromBigEndian(signature[32..]))])
  }

  function CertTree(c: DeviceCert, signature: seq<byte>): Tlv
    requires |signature| == 64
  {
    Cons(0x30, [TbsTree(c), Algorithm(), BitString(Enc(SignatureValue(signature)))])
  }
}
