/** From the text of a provision/csr answer to the certificate: what the CA writes and what the daemon makes of it. */
module CertResponse {
  import opened Common
  import opened Bytes
  import opened CertReference
  import opened CertCode
  import opened CertFields

  const BAR: byte := 0x7C
  const DASH: byte := 0x2D
  const PLUS: byte := 0x2B

  // ---------- Splitting ----------

  function Split(s: seq<byte>): (parts: seq<seq<byte>>)
    ensures parts != []
  {
    if s == [] then [[]]
    else
      var rest := Split(s[1..]);
      if s[0] == BAR then [[]] + rest else [[s[0]] + rest[0]] + rest[1..]
  }

  function Join(parts: seq<seq<byte>>): seq<byte>
    requires parts != []
  {
    if |parts| == 1 then parts[0] else parts[0] + ([BAR] + Join(parts[1..]))
  }

  lemma {:induction false} SplitPlain(a: seq<byte>)
    requires BAR !in a
    ensures Split(a) == [a]
  {
    if a != [] {
      SplitPlain(a[1..]);
      assert [a[0]] + a[1..] == a;
    }
  }

  lemma {:induction false} SplitFirst(a: seq<byte>, rest: seq<byte>)
    requires BAR !in a
    ensures Split(a + ([BAR] + rest)) == [a] + Split(rest)
  {
    var s := a + ([BAR] + rest);
    if a == [] {
      assert s[1..] == rest;
    } else {
      assert s[1..] == a[1..] + ([BAR] + rest);
      SplitFirst(a[1..], rest);
      assert [a[0]] + a[1..] == a;
    }
  }

  lemma {:induction false} SplitOfJoin(parts: seq<seq<byte>>)
    requires parts != [] && forall p <- parts :: BAR !in p
    ensures Split(Join(parts)) == parts
  {
    if |parts| == 1 {
      SplitPlain(parts[0]);
    } else {
      SplitFirst(parts[0], Join(parts[1..]));
      SplitOfJoin(parts[1..]);
      assert [parts[0]] + parts[1..] == parts;
    }
  }

  // ---------- White space ----------

  predicate Space(b: byte) {
    9 <= b <= 13 || b == 0x20
  }

  function Trim(s: seq<byte>): seq<byte> {
    if s == [] then []
    else if Space(s[0]) then Trim(s[1..])
    else if Space(s[|s| - 1]) then Trim(s[..|s| - 1])
    else s
  }

  // What is left of a field in front of a bar.
  function TrimLeft(s: seq<byte>): (r: seq<byte>)
    ensures |r| <= |s| && (s != [] ==> (|r| == |s| <==> !Space(s[0])))
    ensures forall b <- r :: b in s
  {
    if s != [] && Space(s[0]) then TrimLeft(s[1..]) else s
  }

  lemma {:induction false} TrimFront(a: seq<byte>, rest: seq<byte>)
    requires rest != [] && !Space(rest[0]) && !Space(rest[|rest| - 1])
    ensures Trim(a + rest) == TrimLeft(a) + rest
  {
    if a == [] {
      assert a + rest == rest;
    } else {
      assert (a + rest)[1..] == a[1..] + rest;
      assert (a + rest)[|a + rest| - 1] == rest[|rest| - 1];
      if Space(a[0]) {
        TrimFront(a[1..], rest);
      }
    }
  }

  // ---------- Hexadecimal ----------

  function HexValue(b: byte): (r: Option<nat>)
    ensures r.Some? ==> r.value < 16
  {
    if 0x30 <= b <= 0x39 then Some(b - 0x30)
    else if 0x61 <= b <= 0x66 then Some(b - 0x61 + 10)
    else if 0x41 <= b <= 0x46 then Some(b - 0x41 + 10)
    else None
  }

  function FromHex(s: seq<byte>): (r: Option<seq<byte>>)
    ensures r.Some? ==> |s| == 2 * |r.value|
  {
    if s == [] then Some([])
    else if |s| == 1 then None
    else
      match (HexValue(s[0]), HexValue(s[1]), FromHex(s[2..]))
      case (Some(hi), Some(lo), Some(rest)) => Some([16 * hi + lo] + rest)
      case (_, _, _) => None
  }

  function HexChar(n: nat): byte
    requires n < 16
  {
    if n < 10 then 0x30 + n else 0x61 + n - 10
  }

  function ToHex(bs: seq<byte>): (r: seq<byte>)
    ensures |r| == 2 * |bs|
    ensures forall b <- r :: b != BAR && !Space(b)
  {
    if bs == [] then [] else [HexChar(bs[0] / 16), HexChar(bs[0] % 16)] + ToHex(bs[1..])
  }

  lemma {:induction false} HexRoundTrip(bs: seq<byte>)
    ensures FromHex(ToHex(bs)) == Some(bs)
  {
    if bs != [] {
      HexRoundTrip(bs[1..]);
      assert ToHex(bs)[2..] == ToHex(bs[1..]);
      assert [bs[0]] + bs[1..] == bs;
    }
  }

  // Both cases of the letters are read; writing uses the small ones.
  lemma HexText(n: nat, m: nat)
    requires n < 16 && m < 16
    ensures FromHex([ByteOf("0123456789abcdef"[n]), ByteOf("0123456789ABCDEF"[m])]) == Some([16 * n + m])
    ensures ToHex([16 * n + m]) == [ByteOf("0123456789abcdef"[n]), ByteOf("0123456789abcdef"[m])]
  {
    HexDigits(n);
    HexDigits(m);
    HexPair(ByteOf("0123456789abcdef"[n]), ByteOf("0123456789ABCDEF"[m]), n, m);
  }

  lemma HexDigits(n: nat)
    requires n < 16
    ensures HexValue(ByteOf("0123456789abcdef"[n])) == Some(n) && HexValue(ByteOf("0123456789ABCDEF"[n])) == Some(n)
    ensures HexChar(n) == ByteOf("0123456789abcdef"[n])
  {
  }

  lemma HexPair(a: byte, b: byte, n: nat, m: nat)
    requires HexValue(a) == Some(n) && HexValue(b) == Some(m)
    ensures FromHex([a, b]) == Some([16 * n + m]) && ToHex([16 * n + m]) == [HexChar(n), HexChar(m)]
  {
    var c: byte := 16 * n + m;
    assert c / 16 == n && c % 16 == m && [c][1..] == [] && [a, b][2..] == [];
    assert FromHex([a, b][2..]) == Some([]) && [c] + [] == [c];
    assert ToHex([c]) == [HexChar(n), HexChar(m)] + ToHex([]);
  }

  // ---------- Dates ----------

  function Decimal(s: seq<byte>): Option<nat> {
    if s == [] then Some(0)
    else
      var last := s[|s| - 1];
      match Decimal(s[..|s| - 1])
      case Some(n) => if 0x30 <= last <= 0x39 then Some(10 * n + (last - 0x30)) else None
      case None => None
  }

  // A sign, then at least one digit.
  function Atoi(s: seq<byte>): Option<int> {
    if s == [] then None
    else
      var digits := if s[0] == DASH || s[0] == PLUS then s[1..] else s;
      if digits == [] then None
      else
        match Decimal(digits)
        case None => None
        case Some(n) => Some(if s[0] == DASH then 0 - n as int else n as int)
  }

  // Year, month, day and hour at fixed offsets; what stands between and after them is not read.
  function ParseNotBefore(s: seq<byte>): Option<Date> {
    if |s| < 13 then None
    else
      match (Atoi(s[0..4]), Atoi(s[5..7]), Atoi(s[8..10]), Atoi(s[11..13]))
      case (Some(y), Some(m), Some(d), Some(h)) => Some(Date(y, m, d, h))
      case (_, _, _, _) => None
  }

  lemma DecimalSnoc(s: seq<byte>, b: byte)
    ensures Decimal(s + [b]) == match Decimal(s)
                                case Some(n) => if 0x30 <= b <= 0x39 then Some(10 * n + (b - 0x30)) else None
                                case None => None
  {
    assert (s + [b])[..|s|] == s;
  }

  // Any digits below the leading one leave it in charge.
  lemma {:induction false} DecimalBounds(s: seq<byte>)
    requires s != [] && Decimal(s).Some?
    ensures 0x30 <= s[0] <= 0x39
    ensures var lead: int, n := s[0] - 0x30, Decimal(s).value;
            && (|s| == 1 ==> n == lead)
            && (|s| == 2 ==> 10 * lead <= n < 10 * lead + 10)
            && (|s| == 3 ==> 100 * lead <= n < 100 * lead + 100)
            && (|s| == 4 ==> 1000 * lead <= n < 1000 * lead + 1000)
  {
    var init := s[..|s| - 1];
    if init == [] {
      assert Decimal(init) == Some(0);
    } else {
      DecimalBounds(init);
    }
  }

  // The year is 2000 or later exactly when the text starts with a digit from 2 on.
  lemma YearFromText(s: seq<byte>)
    requires ParseNotBefore(s).Some?
    ensures ParseNotBefore(s).value.year >= 2000 <==> 0x32 <= s[0] <= 0x39
    ensures -1000 < ParseNotBefore(s).value.year < 10000
  {
    var year := s[0..4];
    if s[0] == DASH || s[0] == PLUS {
      DecimalBounds(year[1..]);
    } else {
      DecimalBounds(year);
    }
  }

  predicate IsDigit(b: byte) {
    0x30 <= b <= 0x39
  }

  lemma TwoCharacters(a: byte, b: byte)
    requires IsDigit(a) && IsDigit(b)
    ensures Atoi([a, b]) == Some(10 * (a as int - 0x30) + (b as int - 0x30))
  {
    assert Decimal([]) == Some(0);
    DecimalSnoc([], a);
    DecimalSnoc([a], b);
    assert [] + [a] == [a] && [a] + [b] == [a, b];
  }

  lemma FourCharacters(a: byte, b: byte, c: byte, d: byte)
    requires IsDigit(a) && IsDigit(b) && IsDigit(c) && IsDigit(d)
    ensures Atoi([a, b, c, d])
            == Some(1000 * (a as int - 0x30) + 100 * (b as int - 0x30) + 10 * (c as int - 0x30) + (d as int - 0x30))
  {
    TwoCharacters(a, b);
    DecimalSnoc([a, b], c);
    DecimalSnoc([a, b, c], d);
    assert [a, b] + [c] == [a, b, c] && [a, b, c] + [d] == [a, b, c, d];
  }

  // Where the digits of a date stand: YYYY?MM?DD?HH, whatever the other characters are.
  lemma DateFromText(s: seq<byte>)
    requires |s| >= 13 && IsDigit(s[0]) && IsDigit(s[1]) && IsDigit(s[2]) && IsDigit(s[3])
    requires IsDigit(s[5]) && IsDigit(s[6]) && IsDigit(s[8]) && IsDigit(s[9]) && IsDigit(s[11]) && IsDigit(s[12])
    ensures var d := ParseNotBefore(s);
            && d.Some?
            && d.value.year == 1000 * (s[0] as int - 0x30) + 100 * (s[1] as int - 0x30)
                               + 10 * (s[2] as int - 0x30) + (s[3] as int - 0x30)
            && d.value.month == 10 * (s[5] as int - 0x30) + (s[6] as int - 0x30)
            && d.value.day == 10 * (s[8] as int - 0x30) + (s[9] as int - 0x30)
            && d.value.hour == 10 * (s[11] as int - 0x30) + (s[12] as int - 0x30)
  {
    assert s[0..4] == [s[0], s[1], s[2], s[3]];
    assert s[5..7] == [s[5], s[6]] && s[8..10] == [s[8], s[9]] && s[11..13] == [s[11], s[12]];
    FourCharacters(s[0], s[1], s[2], s[3]);
    TwoCharacters(s[5], s[6]);
    TwoCharacters(s[8], s[9]);
    TwoCharacters(s[11], s[12]);
  }

  // The layout of the CA: 2006-01-02T15:00:00Z.
  function IsoTime(d: Date): seq<byte> {
    Two(d.year / 100) + Two(d.year % 100) + [DASH] + Two(d.month) + [DASH] + Two(d.day) + [0x54] + Two(d.hour)
    + [0x3A, 0x30, 0x30, 0x3A, 0x30, 0x30, 0x5A]
  }

  lemma TwoIsNumber(n: int)
    requires 0 <= n < 100
    ensures Decimal(Two(n)) == Some(n) && Atoi(Two(n)) == Some(n)
  {
    assert Decimal([]) == Some(0);
    DecimalSnoc([], Digit(n / 10));
    DecimalSnoc([Digit(n / 10)], Digit(n));
    assert [] + [Digit(n / 10)] == [Digit(n / 10)] && [Digit(n / 10)] + [Digit(n)] == Two(n);
  }

  lemma FourIsNumber(n: int)
    requires 0 <= n < 10000
    ensures Atoi(Two(n / 100) + Two(n % 100)) == Some(n)
  {
    var hi, lo := n / 100, n % 100;
    TwoIsNumber(hi);
    DecimalSnoc(Two(hi), Digit(lo / 10));
    DecimalSnoc(Two(hi) + [Digit(lo / 10)], Digit(lo));
    assert Two(hi) + Two(lo) == (Two(hi) + [Digit(lo / 10)]) + [Digit(lo)];
  }

  lemma IsoSlices(c: seq<byte>, y: seq<byte>, m: seq<byte>, d: seq<byte>, h: seq<byte>, tail: seq<byte>)
    requires |c| == |y| == |m| == |d| == |h| == 2
    ensures var s := c + y + [DASH] + m + [DASH] + d + [0x54] + h + tail;
            |s| >= 13 && s[0..4] == c + y && s[5..7] == m && s[8..10] == d && s[11..13] == h
  {
  }

  lemma IsoIsRead(d: Date)
    requires TwoDigits(d) && 0 <= d.year < 10000
    ensures ParseNotBefore(IsoTime(d)) == Some(d)
  {
    IsoSlices(Two(d.year / 100), Two(d.year % 100), Two(d.month), Two(d.day), Two(d.hour),
              [0x3A, 0x30, 0x30, 0x3A, 0x30, 0x30, 0x5A]);
    FourIsNumber(d.year);
    TwoIsNumber(d.month);
    TwoIsNumber(d.day);
    TwoIsNumber(d.hour);
  }

  lemma IsoHasNoBar(d: Date)
    ensures BAR !in IsoTime(d)
  {
  }

  // ---------- The answer ----------

  function ResponseParts(p: CertParams): seq<seq<byte>>
    requires LengthsChecked(p)
  {
    [p.deviceId, ToHex(p.authKeyId), IsoTime(p.issue), ToHex(p.serial),
     ToHex(p.signature[..32]), ToHex(p.signature[32..])]
  }

  function ResponseBody(p: CertParams): seq<byte>
    requires LengthsChecked(p)
  {
    Join(ResponseParts(p))
  }

  predicate LengthsFit(parts: seq<seq<byte>>) {
    && |parts| == 6 && |parts[0]| == 36 && |parts[1]| == 40 && |parts[3]| == 32
    && |parts[4]| == 64 && |parts[5]| == 64
  }

  function PartsToParams(publicKey: seq<byte>, parts: seq<seq<byte>>): (r: Option<CertParams>)
    requires |publicKey| == 64
    ensures r.Some? ==> LengthsChecked(r.value)
  {
    if !LengthsFit(parts) then None
    else
      match (FromHex(parts[1]), FromHex(parts[3]), ParseNotBefore(parts[2]))
      case (Some(aki), Some(serial), Some(date)) =>
        (match (FromHex(parts[4]), FromHex(parts[5]))
         case (Some(x), Some(y)) => Some(CertParams(publicKey, parts[0], serial, aki, x + y, date))
         case (_, _) => None)
      case (_, _, _) => None
  }

  function ResponseParams(publicKey: seq<byte>, body: seq<byte>): (r: Option<CertParams>)
    requires |publicKey| == 64
    ensures r.Some? ==> LengthsChecked(r.value)
  {
    PartsToParams(publicKey, Split(Trim(body)))
  }

  lemma PartsAreRead(p: CertParams, id: seq<byte>)
    requires LengthsChecked(p) && TwoDigits(p.issue) && 0 <= p.issue.year < 10000 && |id| <= 36
    requires |id| == 36 ==> id == p.deviceId
    ensures PartsToParams(p.publicKey, [id] + ResponseParts(p)[1..]) == if |id| == 36 then Some(p) else None
  {
    HexRoundTrip(p.authKeyId);
    HexRoundTrip(p.serial);
    HexRoundTrip(p.signature[..32]);
    HexRoundTrip(p.signature[32..]);
    IsoIsRead(p.issue);
    assert p.signature[..32] + p.signature[32..] == p.signature;
  }

  lemma JoinFirst(p: CertParams) returns (rest: seq<byte>)
    requires LengthsChecked(p)
    ensures ResponseBody(p) == p.deviceId + ([BAR] + rest) && rest == Join(ResponseParts(p)[1..])
    ensures rest != [] && !Space(rest[|rest| - 1])
  {
    rest := Join(ResponseParts(p)[1..]);
    JoinEnds(ResponseParts(p)[1..]);
  }

  // A joined text ends as its last part does.
  lemma {:induction false} JoinEnds(parts: seq<seq<byte>>)
    requires parts != [] && parts[|parts| - 1] != []
    ensures var j, last := Join(parts), parts[|parts| - 1]; j != [] && j[|j| - 1] == last[|last| - 1]
  {
    if |parts| > 1 {
      JoinEnds(parts[1..]);
    }
  }

  // The daemon reads the CA's answer back unless the device id starts with white space.
  lemma ResponseIsRead(p: CertParams)
    requires LengthsChecked(p) && TwoDigits(p.issue) && 0 <= p.issue.year < 10000 && BAR !in p.deviceId
    ensures ResponseParams(p.publicKey, ResponseBody(p)) == if Space(p.deviceId[0]) then None else Some(p)
  {
    var rest := JoinFirst(p);
    var id := TrimLeft(p.deviceId);
    TrimFront(p.deviceId, [BAR] + rest);
    SplitFirst(id, rest);
    IsoHasNoBar(p.issue);
    SplitOfJoin(ResponseParts(p)[1..]);
    PartsAreRead(p, id);
  }

  // The bytes the daemon stores.
  function Rebuilt(p: CertParams): seq<byte>
    requires LengthsChecked(p)
  {
    CertWith(p, HandValidity(p.issue))
  }

  lemma PrintableIsPlain(id: seq<byte>)
    requires Printable(id)
    ensures BAR !in id && forall b <- id :: Space(b) <==> b == 0x20
  {
    assert forall b <- id :: PrintableChar(b);
  }

  // From the CA's certificate over the text of its answer to the daemon's bytes: the same
  // certificate exactly when the device id does not start with a space and the year is 2000 or
  // later.
  lemma AnswerGivesTheCertificateExactly(p: CertParams)
    requires LengthsChecked(p) && CaCertificate(CertOf(p), p.signature).Some?
    ensures var signed, r := CaCertificate(CertOf(p), p.signature).value, ResponseParams(p.publicKey, ResponseBody(p));
            r.Some? && Rebuilt(r.value) == signed <==> p.deviceId[0] != 0x20 && p.issue.year >= 2000
  {
    CaDates(p);
    PrintableIsPlain(p.deviceId);
    ResponseIsRead(p);
    CertExactly(p);
  }

  // The answer is split, its lengths are checked and its fields decoded.
  method ParseResponse(publicKey: seq<byte>, body: seq<byte>) returns (r: Option<CertParams>)
    requires |publicKey| == 64
    ensures r == ResponseParams(publicKey, body)
  {
    var parts := Split(Trim(body));
    if !LengthsFit(parts) {
      return None;
    }
    var aki, serial := FromHex(parts[1]), FromHex(parts[3]);
    if aki.None? || serial.None? {
      return None;
    }
    var x, y := FromHex(parts[4]), FromHex(parts[5]);
    if x.None? || y.None? {
      return None;
    }
    var date := ParseNotBefore(parts[2]);
    if date.None? {
      return None;
    }
    r := Some(CertParams(publicKey, parts[0], serial.value, aki.value, x.value + y.value, date.value));
  }

  function DateText(body: seq<byte>): seq<byte> {
    var parts := Split(Trim(body));
    if |parts| == 6 then parts[2] else []
  }

  lemma YearInResponse(publicKey: seq<byte>, body: seq<byte>)
    requires |publicKey| == 64 && ResponseParams(publicKey, body).Some?
    ensures DateText(body) != []
    ensures ResponseParams(publicKey, body).value.issue.year >= 2000 <==> 0x32 <= DateText(body)[0] <= 0x39
  {
    YearFromText(Split(Trim(body))[2]);
  }

  // Where the CA signed a certificate for these fields, these bytes are that certificate exactly
  // when the condition holds.
  ghost predicate SignedExactly(p: CertParams, cert: seq<byte>, condition: bool) {
    var signed := CaCertificate(CertOf(p), p.signature);
    signed.Some? ==> (cert == signed.value <==> condition)
  }

  // device_id|authority_key_identifier|not_before|serial|signature_x|signature_y
  ghost predicate InPlace(parts: seq<seq<byte>>, p: CertParams) {
    && |parts| == 6 && p.deviceId == parts[0] && FromHex(parts[1]) == Some(p.authKeyId)
    && ParseNotBefore(parts[2]) == Some(p.issue) && FromHex(parts[3]) == Some(p.serial)
    && |p.signature| == 64
    && FromHex(parts[4]) == Some(p.signature[..32]) && FromHex(parts[5]) == Some(p.signature[32..])
  }

  lemma FieldsInPlace(publicKey: seq<byte>, body: seq<byte>)
    requires |publicKey| == 64 && ResponseParams(publicKey, body).Some?
    ensures InPlace(Split(Trim(body)), ResponseParams(publicKey, body).value)
  {
    var parts := Split(Trim(body));
    var x, y := FromHex(parts[4]).value, FromHex(parts[5]).value;
    assert (x + y)[..32] == x && (x + y)[32..] == y;
  }

  // ---------- Which answers are accepted ----------

  predicate Digits(s: seq<byte>) {
    forall b <- s :: IsDigit(b)
  }

  predicate IsHex(s: seq<byte>) {
    forall b <- s :: IsDigit(b) || 0x41 <= b <= 0x46 || 0x61 <= b <= 0x66
  }

  // Digits, after a sign if there is one.
  predicate IsNumber(s: seq<byte>) {
    s != [] && (Digits(s) || (|s| > 1 && s[0] in {0x2B, 0x2D} && Digits(s[1..])))
  }

  lemma {:induction false} FromHexExactly(s: seq<byte>)
    ensures FromHex(s).Some? <==> |s| % 2 == 0 && IsHex(s)
  {
    if |s| > 1 {
      FromHexExactly(s[2..]);
      assert s[0] in s && s[1] in s && forall b <- s :: b == s[0] || b == s[1] || b in s[2..];
    }
  }

  lemma {:induction false} DecimalExactly(s: seq<byte>)
    ensures Decimal(s).Some? <==> Digits(s)
  {
    if s != [] {
      var init := s[..|s| - 1];
      DecimalExactly(init);
      assert s[|s| - 1] in s && forall b <- s :: b == s[|s| - 1] || b in init;
    }
  }

  lemma AtoiExactly(s: seq<byte>)
    ensures Atoi(s).Some? <==> IsNumber(s)
  {
    if s != [] {
      DecimalExactly(s);
      DecimalExactly(s[1..]);
    }
  }

  predicate DateCanBeRead(s: seq<byte>) {
    |s| >= 13 && IsNumber(s[0..4]) && IsNumber(s[5..7]) && IsNumber(s[8..10]) && IsNumber(s[11..13])
  }

  predicate Acceptable(parts: seq<seq<byte>>) {
    && |parts| == 6
    && |parts[0]| == 36
    && |parts[1]| == 40 && IsHex(parts[1])
    && DateCanBeRead(parts[2])
    && |parts[3]| == 32 && IsHex(parts[3])
    && |parts[4]| == 64 && IsHex(parts[4])
    && |parts[5]| == 64 && IsHex(parts[5])
  }

  // An answer is accepted for its lengths and its characters alone.
  lemma AcceptedExactly(publicKey: seq<byte>, body: seq<byte>)
    requires |publicKey| == 64
    ensures ResponseParams(publicKey, body).Some? <==> Acceptable(Split(Trim(body)))
  {
    var parts := Split(Trim(body));
    if |parts| == 6 {
      FromHexExactly(parts[1]);
      FromHexExactly(parts[3]);
      FromHexExactly(parts[4]);
      FromHexExactly(parts[5]);
      if |parts[2]| >= 13 {
        AtoiExactly(parts[2][0..4]);
        AtoiExactly(parts[2][5..7]);
        AtoiExactly(parts[2][8..10]);
        AtoiExactly(parts[2][11..13]);
      }
    }
  }

  // Where the CA signed a certificate for these fields, it is this one exactly when the date
  // starts with a digit from 2 on.
  ghost predicate SignedFromTwoThousand(p: CertParams, body: seq<byte>, cert: seq<byte>) {
    DateText(body) != [] && SignedExactly(p, cert, 0x32 <= DateText(body)[0] <= 0x39)
  }

  // A certificate is built for every answer that parses.
  method ReconstructDeviceCert(publicKey: seq<byte>, body: seq<byte>)
    returns (p: Option<CertParams>, cert: seq<byte>)
    requires |publicKey| == 64
    ensures p == ResponseParams(publicKey, body) && (p.Some? <==> Acceptable(Split(Trim(body))))
    ensures p.Some? ==> LengthsChecked(p.value) && cert == Rebuilt(p.value)
    ensures p.Some? ==> p.value.publicKey == publicKey && InPlace(Split(Trim(body)), p.value)
    ensures p.Some? ==> SignedFromTwoThousand(p.value, body, cert)
  {
    p := ParseResponse(publicKey, body);
    AcceptedExactly(publicKey, body);
    cert := [];
    if p.Some? {
      YearInResponse(publicKey, body);
      FieldsInPlace(publicKey, body);
      cert := Reconstruct(p.value);
    }
  }
}
