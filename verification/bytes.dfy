/** Bytes and big-endian numbers. */
module Bytes {
  type byte = b: int | 0 <= b < 256

  function Pow256(k: nat): nat {
    if k == 0 then 1 else 256 * Pow256(k - 1)
  }

  // The number in exactly k bytes.
  function BigEndian(n: nat, k: nat): (r: seq<byte>)
    requires n < Pow256(k)
    ensures |r| == k
  {
    if k == 0 then [] else BigEndian(n / 256, k - 1) + [n % 256]
  }

  function FromBigEndian(bs: seq<byte>): (n: nat)
    ensures n < Pow256(|bs|)
  {
    if bs == [] then 0 else FromBigEndian(bs[..|bs| - 1]) * 256 + bs[|bs| - 1]
  }

  lemma {:induction false} BigEndianRoundTrip(n: nat, k: nat)
    requires n < Pow256(k)
    ensures FromBigEndian(BigEndian(n, k)) == n
  {
    if k > 0 {
      BigEndianRoundTrip(n / 256, k - 1);
      assert BigEndian(n, k)[..k - 1] == BigEndian(n / 256, k - 1);
    }
  }

  // The number in as few bytes as possible; zero takes none.
  function Minimal(n: nat): (r: seq<byte>)
    ensures n == 0 <==> r == []
    ensures r != [] ==> r[0] != 0
  {
    if n == 0 then [] else Minimal(n / 256) + [n % 256]
  }

  lemma {:induction false} MinimalRoundTrip(n: nat)
    ensures FromBigEndian(Minimal(n)) == n
  {
    if n > 0 {
      MinimalRoundTrip(n / 256);
      assert Minimal(n)[..|Minimal(n)| - 1] == Minimal(n / 256);
    }
  }

  function StripZeros(bs: seq<byte>): (r: seq<byte>)
    ensures |r| <= |bs|
    ensures r != [] ==> r[0] != 0
  {
    if bs != [] && bs[0] == 0 then StripZeros(bs[1..]) else bs
  }

  lemma {:induction false} LeadingZero(bs: seq<byte>)
    ensures FromBigEndian([0] + bs) == FromBigEndian(bs)
  {
    if bs != [] {
      assert ([0] + bs)[..|bs|] == [0] + bs[..|bs| - 1];
      LeadingZero(bs[..|bs| - 1]);
    } else {
      assert ([0] + bs)[..0] == [];
    }
  }

  lemma LastDigit(q: nat, d: byte)
    ensures (q * 256 + d) / 256 == q && (q * 256 + d) % 256 == d
  {
  }

  lemma {:induction false} MinimalOfNumber(bs: seq<byte>)
    requires bs != [] ==> bs[0] != 0
    ensures Minimal(FromBigEndian(bs)) == bs
  {
    if bs == [] {
    } else {
      var init, d := bs[..|bs| - 1], bs[|bs| - 1];
      MinimalOfNumber(init);
      MinimalSnoc(init, d, FromBigEndian(init));
      assert bs == init + [d];
    }
  }

  lemma MinimalSnoc(init: seq<byte>, d: byte, q: nat)
    requires Minimal(q) == init && (init == [] ==> d != 0)
    ensures Minimal(q * 256 + d) == init + [d]
  {
    LastDigit(q, d);
  }

  // Stripping leading zeros leaves the shortest form of the same number.
  lemma {:induction false} StripIsMinimal(bs: seq<byte>)
    ensures FromBigEndian(StripZeros(bs)) == FromBigEndian(bs)
    ensures StripZeros(bs) == Minimal(FromBigEndian(bs))
  {
    if bs != [] && bs[0] == 0 {
      assert bs == [0] + bs[1..];
      LeadingZero(bs[1..]);
      StripIsMinimal(bs[1..]);
    } else {
      MinimalOfNumber(bs);
    }
  }
}
