/**
 * The canonical text of an IPv6 address, and that an address is judged by what it is and not by how it is
 * written (server/egress.ts:25-32, 74-85).
 */
module PublicAddress {
  import opened Wrappers
  import opened Egress
  import opened Ipv6Text

  // ----- The canonical text: section 4 of RFC 5952, and what a URL's host name is written as

  function GroupValues(b: seq<Byte>): (v: seq<nat>)
    requires |b| == 16
    ensures |v| == 8 && forall i | 0 <= i < 8 :: v[i] == 256 * (b[2 * i] as int) + b[2 * i + 1] as int
  {
    seq(8, i requires 0 <= i < 8 => 256 * (b[2 * i] as int) + b[2 * i + 1] as int)
  }

  function ZeroRun(v: seq<nat>, i: nat): (n: nat)
    requires i <= |v|
    ensures i + n <= |v| && forall j | i <= j < i + n :: v[j] == 0
    ensures i + n < |v| ==> v[i + n] != 0
    decreases |v| - i
  {
    if i == |v| || v[i] != 0 then 0 else 1 + ZeroRun(v, i + 1)
  }

  /** Where the longest run of zero groups begins, the first of several. */
  function LongestRun(v: seq<nat>, i: nat): (r: nat)
    requires i < |v|
    ensures i <= r < |v|
    ensures forall j | i <= j < |v| :: ZeroRun(v, j) <= ZeroRun(v, r) && (j < r ==> ZeroRun(v, j) < ZeroRun(v, r))
    decreases |v| - i
  {
    if i == |v| - 1 then i
    else
      var r := LongestRun(v, i + 1);
      if ZeroRun(v, r) > ZeroRun(v, i) then r else i
  }

  /** Each two bytes as a group without leading zeros. */
  function Texts(b: seq<Byte>): (r: seq<string>)
    requires |b| % 2 == 0
    ensures 2 * |r| == |b|
  {
    if b == [] then [] else [HexText(256 * (b[0] as int) + b[1] as int)] + Texts(b[2..])
  }

  /** The address with the groups from start to end left out, unless that would save only one. */
  function Shortened(b: seq<Byte>, start: nat, end: nat): Form
    requires |b| == 16 && start <= end <= 8
  {
    if end - start < 2 then Form(Texts(b), false, [], None, None)
    else Form(Texts(b[..2 * start]), true, Texts(b[2 * end..]), None, None)
  }

  /** No group of a canonical text has a leading zero, and its letters are in lower case. */
  lemma {:induction false} HexTextIsShortest(n: nat)
    ensures Lower(HexText(n)) == HexText(n)
    ensures HexText(n)[0] == '0' <==> n == 0
    ensures n == 0 ==> HexText(n) == "0"
  {
    HexTextReads(n);
    if n >= 16 {
      HexTextIsShortest(n / 16);
      HexTextReads(n / 16);
      assert HexText(n)[0] == HexText(n / 16)[0];
    }
  }

  function Canonical(b: seq<Byte>): Form
    requires |b| == 16
  {
    var start := LongestRun(GroupValues(b), 0);
    Shortened(b, start, start + ZeroRun(GroupValues(b), start))
  }

  function CanonicalText(b: seq<Byte>): string
    requires |b| == 16
  {
    Text(Canonical(b))
  }

  lemma {:induction false} BytesOfTexts(b: seq<Byte>)
    requires |b| % 2 == 0
    ensures AllGroups(Texts(b)) && BytesOfAll(Texts(b)) == b
  {
    if b != [] {
      HalfBytes(b[0], b[1]);
      BytesOfTexts(b[2..]);
      assert b == [b[0], b[1]] + b[2..];
      assert Texts(b)[1..] == Texts(b[2..]);
    }
  }

  lemma ZeroBytesOfRun(b: seq<Byte>, start: nat, end: nat)
    requires |b| == 16 && start <= end <= 8 && forall i | start <= i < end :: GroupValues(b)[i] == 0
    ensures Filled16(b[..2 * start], b[2 * end..]) == b
  {
    forall k | 2 * start <= k < 2 * end ensures b[k] == 0 {
      assert GroupValues(b)[k / 2] == 0;
    }
  }

  predicate Spells(f: Form, b: seq<Byte>) {
    WellFormed(f) && BytesOf(f) == b
  }

  lemma UnshortenedSpells(b: seq<Byte>)
    requires |b| == 16
    ensures Spells(Form(Texts(b), false, [], None, None), b)
  {
    BytesOfTexts(b);
    BytesOfUndotted(Form(Texts(b), false, [], None, None));
    FullBytes(b, []);
    assert b + [] == b;
  }

  lemma ShortenedSpells(x: seq<Byte>, y: seq<Byte>)
    requires |x| % 2 == 0 && |y| % 2 == 0 && |x| + |y| <= 14
    ensures Spells(Form(Texts(x), true, Texts(y), None, None), Filled16(x, y))
  {
    BytesOfTexts(x);
    BytesOfTexts(y);
    BytesOfShortened(Texts(x), Texts(y), x, y);
  }

  lemma ShorteningSpells(b: seq<Byte>, start: nat, end: nat)
    requires |b| == 16 && start <= end <= 8 && forall i | start <= i < end :: GroupValues(b)[i] == 0
    ensures Spells(Shortened(b, start, end), b)
  {
    if end - start < 2 {
      UnshortenedSpells(b);
    } else {
      ShortenedSpells(b[..2 * start], b[2 * end..]);
      ZeroBytesOfRun(b, start, end);
    }
  }

  lemma CanonicalSpells(b: seq<Byte>)
    requires |b| == 16
    ensures Spells(Canonical(b), b)
  {
    var start := LongestRun(GroupValues(b), 0);
    ShorteningSpells(b, start, start + ZeroRun(GroupValues(b), start));
  }

  /** Reading the canonical text gives the address back. */
  lemma CanonicalRoundTrip(b: seq<Byte>)
    requires |b| == 16
    ensures Ipv6Bytes(CanonicalText(b)) == Some(b)
  {
    CanonicalSpells(b);
    EveryTextIsRead(Canonical(b));
  }

  // ----- Judging an address

  predicate Mapped(b: seq<Byte>)
    requires |b| == 16
  {
    AllZero(b[..10]) && b[10..12] == [0xff, 0xff]
  }

  predicate Compatible(b: seq<Byte>)
    requires |b| == 16
  {
    AllZero(b[..12])
  }

  predicate Nat64(b: seq<Byte>)
    requires |b| == 16
  {
    b[..4] == [0, 0x64, 0xff, 0x9b] && AllZero(b[4..12])
  }

  predicate SixToFour(b: seq<Byte>)
    requires |b| == 16
  {
    b[..2] == [0x20, 2]
  }

  lemma EmbeddedIsFound(b: seq<Byte>)
    requires |b| == 16
    ensures EmbeddedIn(b) ==
            if Mapped(b) || Nat64(b) || (Compatible(b) && b[12..14] != [0, 0]) then Some(b[12..])
            else if SixToFour(b) then Some(b[2..6])
            else None
  {
    assert b[12..16] == b[12..];
    assert b[10] == b[10..12][0] && b[11] == b[10..12][1];
    assert b[12] == b[12..14][0] && b[13] == b[12..14][1];
    assert b[0] == b[..4][0] && b[1] == b[..4][1] && b[2] == b[..4][2] && b[3] == b[..4][3];
    assert b[0] == b[..2][0] && b[1] == b[..2][1];
  }

  lemma OneOctet(b: seq<Byte>, x: Byte)
    requires |b| == 4
    ensures InSubnet(b, Subnet([x, 0, 0, 0], 8)) <==> b[0] == x
  {
    assert b[..1] == [b[0]];
  }

  lemma TwoOctets(b: seq<Byte>, x: Byte, y: Byte)
    requires |b| == 4
    ensures InSubnet(b, Subnet([x, y, 0, 0], 16)) <==> b[0] == x && b[1] == y
  {
    assert b[..2] == [b[0], b[1]];
  }

  lemma ThreeOctets(b: seq<Byte>, x: Byte, y: Byte, z: Byte)
    requires |b| == 4
    ensures InSubnet(b, Subnet([x, y, z, 0], 24)) <==> b[0] == x && b[1] == y && b[2] == z
  {
    assert b[..3] == [b[0], b[1], b[2]];
  }

  lemma PartsOfOctets(b: seq<Byte>)
    requires |b| == 4
    ensures InSubnet(b, Subnet([100, 64, 0, 0], 10)) <==> b[0] == 100 && 64 <= b[1] <= 127
    ensures InSubnet(b, Subnet([172, 16, 0, 0], 12)) <==> b[0] == 172 && 16 <= b[1] <= 31
    ensures InSubnet(b, Subnet([198, 18, 0, 0], 15)) <==> b[0] == 198 && 18 <= b[1] <= 19
    ensures InSubnet(b, Subnet([224, 0, 0, 0], 4)) <==> 224 <= b[0] <= 239
    ensures InSubnet(b, Subnet([240, 0, 0, 0], 4)) <==> 240 <= b[0]
  {
    assert Pow2(1) == 2 && Pow2(4) == 16 && Pow2(6) == 64;
    assert b[..1] == [b[0]];
  }

  /** The blocked IPv4 addresses, octet by octet. */
  lemma Blocked4Exactly(b: seq<Byte>)
    requires |b| == 4
    ensures Blocked4(b) <==>
            || b[0] == 0 || b[0] == 10 || b[0] == 127 || b[0] >= 224
            || (b[0] == 100 && 64 <= b[1] <= 127)
            || (b[0] == 169 && b[1] == 254)
            || (b[0] == 172 && 16 <= b[1] <= 31)
            || (b[0] == 192 && ((b[1] == 0 && (b[2] == 0 || b[2] == 2)) || b[1] == 168))
            || (b[0] == 198 && (b[1] == 18 || b[1] == 19 || (b[1] == 51 && b[2] == 100)))
            || (b[0] == 203 && b[1] == 0 && b[2] == 113)
  {
    OneOctet(b, 0);
    OneOctet(b, 10);
    OneOctet(b, 127);
    TwoOctets(b, 169, 254);
    TwoOctets(b, 192, 168);
    ThreeOctets(b, 192, 0, 0);
    ThreeOctets(b, 192, 0, 2);
    ThreeOctets(b, 198, 51, 100);
    ThreeOctets(b, 203, 0, 113);
    PartsOfOctets(b);
  }

  lemma NetworkBytes(first: seq<Byte>, k: nat)
    requires |first| <= 16 && k < 16
    ensures Network(first)[k] == if k < |first| then first[k] else 0
  {
  }

  /** A network of whole bytes: all of them agree. */
  lemma WholeBytes(b: seq<Byte>, s: Subnet)
    requires |b| == |s.network| && s.prefix <= 8 * |b| && s.prefix % 8 == 0
    ensures InSubnet(b, s) <==> forall k | 0 <= k < s.prefix / 8 :: b[k] == s.network[k]
  {
    var n := s.prefix / 8;
    assert b[..n] == s.network[..n] <==> forall k | 0 <= k < n :: b[k] == s.network[k] by {
      if b[..n] == s.network[..n] {
        assert forall k | 0 <= k < n :: b[k] == b[..n][k] && s.network[k] == s.network[..n][k];
      }
    }
  }

  lemma ZeroNetwork(b: seq<Byte>)
    requires |b| == 16
    ensures InSubnet(b, Subnet(Network([]), 127)) <==> (forall k | 0 <= k < 15 :: b[k] == 0) && b[15] <= 1
  {
    assert Pow2(1) == 2;
    if forall k | 0 <= k < 15 :: b[k] == 0 {
      assert b[..15] == Network([])[..15];
    }
    if b[..15] == Network([])[..15] {
      assert forall k | 0 <= k < 15 :: b[k] == b[..15][k] && Network([])[..15][k] == 0;
    }
  }

  lemma FirstByteNetworks(b: seq<Byte>)
    requires |b| == 16
    ensures InSubnet(b, Subnet(Network([0xfc]), 7)) <==> b[0] == 0xfc || b[0] == 0xfd
    ensures InSubnet(b, Subnet(Network([0xff]), 8)) <==> b[0] == 0xff
  {
    assert Pow2(1) == 2;
    WholeBytes(b, Subnet(Network([0xff]), 8));
    assert b[..0] == Network([0xfc])[..0];
  }

  lemma SecondByteNetworks(b: seq<Byte>)
    requires |b| == 16
    ensures InSubnet(b, Subnet(Network([0xfe, 0x80]), 10)) <==> b[0] == 0xfe && 0x80 <= b[1] <= 0xbf
    ensures InSubnet(b, Subnet(Network([0xfe, 0xc0]), 10)) <==> b[0] == 0xfe && 0xc0 <= b[1]
  {
    assert Pow2(6) == 64;
    assert b[..1] == [b[0]] && Network([0xfe, 0x80])[..1] == [0xfe] && Network([0xfe, 0xc0])[..1] == [0xfe];
  }

  lemma FourByteNetworks(b: seq<Byte>)
    requires |b| == 16
    ensures InSubnet(b, Subnet(Network([0x20, 1]), 32)) <==> b[0] == 0x20 && b[1] == 1 && b[2] == 0 && b[3] == 0
    ensures InSubnet(b, Subnet(Network([0x20, 1, 0x0d, 0xb8]), 32)) <==> b[0] == 0x20 && b[1] == 1 && b[2] == 0x0d && b[3] == 0xb8
  {
    WholeBytes(b, Subnet(Network([0x20, 1]), 32));
    WholeBytes(b, Subnet(Network([0x20, 1, 0x0d, 0xb8]), 32));
  }

  lemma LongNetworks(b: seq<Byte>)
    requires |b| == 16
    ensures InSubnet(b, Subnet(Network([0, 0x64, 0xff, 0x9b, 0, 1]), 48)) <==>
            b[0] == 0 && b[1] == 0x64 && b[2] == 0xff && b[3] == 0x9b && b[4] == 0 && b[5] == 1
    ensures InSubnet(b, Subnet(Network([1]), 64)) <==> b[0] == 1 && forall k | 1 <= k < 8 :: b[k] == 0
  {
    WholeBytes(b, Subnet(Network([0, 0x64, 0xff, 0x9b, 0, 1]), 48));
    WholeBytes(b, Subnet(Network([1]), 64));
  }

  /**
   * The blocked IPv6 addresses, byte by byte: the unspecified and the loopback one, the ranges 64:ff9b:1::/48,
   * 100::/64, 2001::/32 and 2001:db8::/32, the private ones, the link-local and site-local ones, and multicast.
   */
  lemma Blocked6Exactly(b: seq<Byte>)
    requires |b| == 16
    ensures Blocked6(b) <==>
            || ((forall k | 0 <= k < 15 :: b[k] == 0) && b[15] <= 1)
            || (b[0] == 0 && b[1] == 0x64 && b[2] == 0xff && b[3] == 0x9b && b[4] == 0 && b[5] == 1)
            || (b[0] == 1 && forall k | 1 <= k < 8 :: b[k] == 0)
            || (b[0] == 0x20 && b[1] == 1 && ((b[2] == 0 && b[3] == 0) || (b[2] == 0x0d && b[3] == 0xb8)))
            || b[0] == 0xfc || b[0] == 0xfd
            || (b[0] == 0xfe && 0x80 <= b[1])
            || b[0] == 0xff
  {
    ZeroNetwork(b);
    FirstByteNetworks(b);
    SecondByteNetworks(b);
    FourByteNetworks(b);
    LongNetworks(b);
  }

  /** Of the addresses that begin with fourteen zero bytes, only the unspecified and the loopback one are blocked. */
  lemma Blocked6OfLow(b: seq<Byte>)
    requires |b| == 16 && forall k | 0 <= k < 14 :: b[k] == 0
    ensures Blocked6(b) <==> b[14] == 0 && b[15] <= 1
  {
    Blocked6Exactly(b);
    assert b[0] == 0 && b[1] == 0;
  }

  lemma LowIsJudged(b: seq<Byte>)
    requires |b| == 16 && Compatible(b) && b[12..14] == [0, 0]
    ensures Blocked4(b[12..]) && (Blocked6(b) <==> b[14] == 0 && b[15] <= 1)
  {
    assert b[12] == b[12..14][0] && b[13] == b[12..14][1];
    assert forall k | 0 <= k < 12 :: b[k] == b[..12][k];
    Blocked6OfLow(b);
    Blocked4Exactly(b[12..]);
  }

  /**
   * However it is written, an address that embeds an IPv4 address is public exactly if that is. Of the
   * IPv4-compatible ones this holds exactly if one of the first two octets is not zero, or of the
   * address is :: or ::1.
   */
  lemma EmbeddedIsJudgedAsIpv4(f: Form, b: seq<Byte>)
    requires WellFormed(f) && b == BytesOf(f)
    ensures Mapped(b) || Nat64(b) ==> (IsPublicIpv6(Text(f), b) <==> !Blocked4(b[12..]))
    ensures SixToFour(b) ==> (IsPublicIpv6(Text(f), b) <==> !Blocked4(b[2..6]))
    ensures Compatible(b) ==>
              ((IsPublicIpv6(Text(f), b) <==> !Blocked4(b[12..])) <==> b[12..14] != [0, 0] || (b[14] == 0 && b[15] <= 1))
    ensures !Mapped(b) && !Nat64(b) && !SixToFour(b) && !Compatible(b) ==> (IsPublicIpv6(Text(f), b) <==> !Blocked6(b))
  {
    EveryTextIsRead(f);
    KindsExclude(b);
    EmbeddedIsFound(b);
    if Compatible(b) && b[12..14] == [0, 0] {
      LowIsJudged(b);
    }
  }

  /** An address that embeds none is judged by the ranges of IPv6, byte by byte. */
  lemma OtherIsJudgedByItsBytes(f: Form, b: seq<Byte>)
    requires WellFormed(f) && b == BytesOf(f) && !Mapped(b) && !Nat64(b) && !SixToFour(b) && !Compatible(b)
    ensures !IsPublicIpv6(Text(f), b) <==>
            || (b[0] == 0 && b[1] == 0x64 && b[2] == 0xff && b[3] == 0x9b && b[4] == 0 && b[5] == 1)
            || (b[0] == 1 && forall k | 1 <= k < 8 :: b[k] == 0)
            || (b[0] == 0x20 && b[1] == 1 && ((b[2] == 0 && b[3] == 0) || (b[2] == 0x0d && b[3] == 0xb8)))
            || b[0] == 0xfc || b[0] == 0xfd || (b[0] == 0xfe && 0x80 <= b[1]) || b[0] == 0xff
  {
    EmbeddedIsJudgedAsIpv4(f, b);
    Blocked6Exactly(b);
    NotAllZero(b);
  }

  lemma NotAllZero(b: seq<Byte>)
    requires |b| == 16 && !Compatible(b)
    ensures exists k :: 0 <= k < 12 && b[k] != 0
  {
    var k :| 0 <= k < |b[..12]| && b[..12][k] != 0;
    assert b[k] != 0;
  }

  lemma KindsExclude(b: seq<Byte>)
    requires |b| == 16
    ensures SixToFour(b) ==> !Mapped(b) && !Nat64(b) && !Compatible(b)
    ensures Compatible(b) ==> !Mapped(b) && !Nat64(b)
  {
    assert b[0] == b[..2][0] && b[0] == b[..4][0] && b[1] == b[..4][1] && b[0] == b[..10][0] && b[0] == b[..12][0];
    assert b[10] == b[10..12][0] && b[10] == b[..12][10] && b[1] == b[..12][1];
  }

  lemma TextOfTwo()
    ensures var f := Form([], true, ["2"], None, None);
            WellFormed(f) && Text(f) == "::2" && BytesOf(f) == Filled16([], [0, 2])
  {
    assert HexValue("2") == 2 by { assert "2"[..0] == ""; }
    assert ["2"][1..] == [];
    assert BytesOfAll(["2"]) == [0, 2];
    BytesOfShortened([], ["2"], [], [0, 2]);
  }

  /** The text "::2" is judged public, though the IPv4 address 0.0.0.2 is not. */
  lemma NotEveryCompatibleAddress()
    ensures var f := Form([], true, ["2"], None, None);
            && WellFormed(f) && Text(f) == "::2" && BytesOf(f)[12..] == [0, 0, 0, 2]
            && IsPublicIpv6(Text(f), BytesOf(f)) && Blocked4(BytesOf(f)[12..])
  {
    TextOfTwo();
    TwoIsPublic(Form([], true, ["2"], None, None), Filled16([], [0, 2]));
  }

  lemma LowTwo(b: seq<Byte>)
    requires b == Filled16([], [0, 2])
    ensures |b| == 16 && Compatible(b) && b[12..14] == [0, 0] && b[12..] == [0, 0, 0, 2]
  {
  }

  lemma TwoIsPublic(f: Form, b: seq<Byte>)
    requires WellFormed(f) && BytesOf(f) == b && b == Filled16([], [0, 2])
    ensures b[12..] == [0, 0, 0, 2] && IsPublicIpv6(Text(f), b) && Blocked4(b[12..])
  {
    LowTwo(b);
    LowIsJudged(b);
    EmbeddedIsJudgedAsIpv4(f, b);
  }
}
