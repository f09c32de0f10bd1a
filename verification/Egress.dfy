/**
 * Which addresses are on the public internet (server/egress.ts): reading the text of an IPv6 address, the
 * IPv4 address embedded in one, and the ranges that are not public.
 */
module Egress {
  import opened Wrappers

  type Byte = b: int | 0 <= b < 256

  // ----- Characters and numbers

  function LowerChar(c: char): char {
    if 'A' <= c <= 'Z' then (c as int + 32) as char else c
  }

  function Lower(s: string): (r: string)
    ensures |r| == |s|
    ensures forall i | 0 <= i < |s| :: r[i] == LowerChar(s[i])
  {
    seq(|s|, i requires 0 <= i < |s| => LowerChar(s[i]))
  }

  /** The value of a hexadecimal digit, or 16. */
  function HexDigit(c: char): nat {
    if '0' <= c <= '9' then c as int - '0' as int
    else if 'a' <= c <= 'f' then c as int - 'a' as int + 10
    else if 'A' <= c <= 'F' then c as int - 'A' as int + 10
    else 16
  }

  predicate AllHex(s: string) {
    forall i | 0 <= i < |s| :: HexDigit(s[i]) < 16
  }

  function HexValue(s: string): nat {
    if s == "" then 0 else 16 * HexValue(s[..|s| - 1]) + HexDigit(s[|s| - 1])
  }

  function HexPrefix(s: string): (n: nat)
    ensures n <= |s|
  {
    if s == "" || HexDigit(s[0]) == 16 then 0 else 1 + HexPrefix(s[1..])
  }

  lemma {:induction false} HexPrefixOfAll(s: string)
    requires AllHex(s)
    ensures HexPrefix(s) == |s|
  {
    if s != "" {
      HexPrefixOfAll(s[1..]);
    }
  }

  /** `Number.parseInt(s, 16)`: the digits at the beginning, if any. */
  function ParseHex(s: string): Option<nat> {
    var n := HexPrefix(s);
    if n == 0 then None else Some(HexValue(s[..n]))
  }

  function HexChar(d: nat): (c: char)
    requires d < 16
    ensures HexDigit(c) == d && LowerChar(c) == c
  {
    if d < 10 then (d + '0' as int) as char else (d - 10 + 'a' as int) as char
  }

  /** `n.toString(16)` */
  function HexText(n: nat): string {
    if n < 16 then [HexChar(n)] else HexText(n / 16) + [HexChar(n % 16)]
  }

  lemma {:induction false} HexTextReads(n: nat)
    ensures HexText(n) != "" && AllHex(HexText(n)) && HexValue(HexText(n)) == n && Lower(HexText(n)) == HexText(n)
  {
    var s := HexText(n);
    if n < 16 {
      assert s[..0] == "";
    } else {
      HexTextReads(n / 16);
      assert s[..|s| - 1] == HexText(n / 16);
    }
  }

  predicate IsDigit(c: char) {
    '0' <= c <= '9'
  }

  predicate AllDigits(s: string) {
    forall i | 0 <= i < |s| :: IsDigit(s[i])
  }

  function DigitValue(c: char): nat {
    if IsDigit(c) then c as int - '0' as int else 0
  }

  function DecimalValue(s: string): nat {
    if s == "" then 0 else 10 * DecimalValue(s[..|s| - 1]) + DigitValue(s[|s| - 1])
  }

  function DecimalText(n: nat): string {
    var last := (n % 10 + '0' as int) as char;
    if n < 10 then [last] else DecimalText(n / 10) + [last]
  }

  lemma {:induction false} DecimalTextReads(n: nat)
    ensures DecimalText(n) != "" && AllDigits(DecimalText(n)) && DecimalValue(DecimalText(n)) == n
  {
    var s := DecimalText(n);
    if n < 10 {
      assert s[..0] == "";
    } else {
      DecimalTextReads(n / 10);
      assert s[..|s| - 1] == DecimalText(n / 10);
    }
  }

  // ----- Splitting and joining

  function Split(s: string, separator: char): (parts: seq<string>)
    ensures |parts| > 0
  {
    if s == "" then [""]
    else
      var rest := Split(s[1..], separator);
      if s[0] == separator then [""] + rest else [[s[0]] + rest[0]] + rest[1..]
  }

  function Join(parts: seq<string>, separator: char): string {
    if parts == [] then "" else if |parts| == 1 then parts[0] else parts[0] + [separator] + Join(parts[1..], separator)
  }

  /** The text of a group in a list separated by colons. */
  predicate IsPart(s: string, separator: char) {
    s != "" && separator !in s
  }

  predicate AllParts(parts: seq<string>, separator: char) {
    forall i | 0 <= i < |parts| :: IsPart(parts[i], separator)
  }

  lemma {:induction false} SplitOfPart(s: string, separator: char)
    requires separator !in s
    ensures Split(s, separator) == [s]
  {
    if s != "" {
      SplitOfPart(s[1..], separator);
      assert [s[0]] + s[1..] == s;
    }
  }

  lemma {:induction false} SplitAtSeparator(a: string, b: string, separator: char)
    requires separator !in a
    ensures Split(a + [separator] + b, separator) == [a] + Split(b, separator)
  {
    var s := a + [separator] + b;
    if a == "" {
      assert s[1..] == b;
    } else {
      SplitAtSeparator(a[1..], b, separator);
      assert s[1..] == a[1..] + [separator] + b;
      assert [a[0]] + a[1..] == a;
    }
  }

  lemma {:induction false} SplitOfJoin(parts: seq<string>, separator: char)
    requires parts != [] && AllParts(parts, separator)
    ensures Split(Join(parts, separator), separator) == parts
  {
    if |parts| == 1 {
      SplitOfPart(parts[0], separator);
    } else {
      SplitOfJoin(parts[1..], separator);
      SplitAtSeparator(parts[0], Join(parts[1..], separator), separator);
    }
  }

  lemma {:induction false} JoinOfConcat(a: seq<string>, b: seq<string>, separator: char)
    requires a != [] && b != []
    ensures Join(a + b, separator) == Join(a, separator) + [separator] + Join(b, separator)
  {
    if |a| > 1 {
      JoinOfConcat(a[1..], b, separator);
      assert (a + b)[1..] == a[1..] + b;
    } else {
      assert (a + b)[1..] == b;
    }
  }

  // ----- Reading an address

  /** Everything before the first of a character. */
  function Before(s: string, c: char): string {
    Split(s, c)[0]
  }

  function TrailingDigits(s: string): (n: nat)
    ensures n <= |s|
  {
    if s == "" || !IsDigit(s[|s| - 1]) then 0 else TrailingDigits(s[..|s| - 1]) + 1
  }

  /** A string without the run of digits at its end. */
  function Front(s: string): string {
    s[..|s| - TrailingDigits(s)]
  }

  function LastRun(s: string): string {
    s[|s| - TrailingDigits(s)..]
  }

  /** Digits at the end with a dot before them. */
  predicate HasDottedRun(s: string) {
    LastRun(s) != "" && Front(s) != "" && Front(s)[|Front(s)| - 1] == '.'
  }

  function BeforeDottedRun(s: string): string
    requires HasDottedRun(s)
  {
    Front(s)[..|Front(s)| - 1]
  }

  datatype Tail = Tail(front: string, a: nat, b: nat, c: nat, d: nat)

  /** The last four runs of digits with dots between them, and what is before them. */
  function DottedTail(s: string): Option<Tail> {
    if !HasDottedRun(s) then None
    else
      var s3 := BeforeDottedRun(s);
      if !HasDottedRun(s3) then None
      else
        var s2 := BeforeDottedRun(s3);
        if !HasDottedRun(s2) then None
        else
          var s1 := BeforeDottedRun(s2);
          if LastRun(s1) == "" then None
          else Some(Tail(Front(s1), DecimalValue(LastRun(s1)), DecimalValue(LastRun(s2)),
                         DecimalValue(LastRun(s3)), DecimalValue(LastRun(s))))
  }

  /** A dotted tail spelled as two groups; tails with a part above 255 are outside the model. */
  function Spelled(s: string): Option<string> {
    match DottedTail(s)
    case None => Some(s)
    case Some(t) =>
      if t.a > 255 || t.b > 255 || t.c > 255 || t.d > 255 then None
      else Some(t.front + HexText(256 * t.a + t.b) + ":" + HexText(256 * t.c + t.d))
  }

  /** Where the first "::" is, or the length of the string. */
  function DoubleColon(s: string): (i: nat)
    ensures i <= |s|
    ensures i < |s| ==> i + 1 < |s|
  {
    if |s| < 2 then |s| else if s[0] == ':' && s[1] == ':' then 0 else 1 + DoubleColon(s[1..])
  }

  lemma {:induction false} DoubleColonIsFirst(s: string)
    ensures var i := DoubleColon(s);
            && (i < |s| ==> s[i] == ':' && s[i + 1] == ':')
            && forall j | 0 <= j < i && j + 1 < |s| :: s[j] != ':' || s[j + 1] != ':'
  {
    if |s| >= 2 && !(s[0] == ':' && s[1] == ':') {
      DoubleColonIsFirst(s[1..]);
      forall j | 0 <= j < DoubleColon(s) && j + 1 < |s| ensures s[j] != ':' || s[j + 1] != ':' {
        assert j > 0 ==> s[j] == s[1..][j - 1] && s[j + 1] == s[1..][j];
      }
    }
  }

  function Groups(s: string): seq<string> {
    if s == "" then [] else Split(s, ':')
  }

  function Zeros(n: nat): (r: seq<string>)
    ensures |r| == n
  {
    seq(n, _ => "0")
  }

  /** The groups on both sides of a "::", with the zeros it stands for. */
  function Filled(head: seq<string>, tail: seq<string>): Option<seq<string>> {
    if |head| + |tail| > 7 then None else Some(head + Zeros(8 - |head| - |tail|) + tail)
  }

  function ExpandedGroups(s: string): Option<seq<string>> {
    var i := DoubleColon(s);
    if i == |s| then
      if |Groups(s)| == 8 then Some(Groups(s)) else None
    else
      var rest := s[i + 2..];
      Filled(Groups(s[..i]), Groups(rest[..DoubleColon(rest)]))
  }

  function BytesOfGroups(groups: seq<string>): Option<seq<Byte>> {
    if groups == [] then Some([])
    else
      var n, rest := ParseHex(groups[0]), BytesOfGroups(groups[1..]);
      if n.None? || n.value > 0xffff || rest.None? then None
      else Some([n.value / 256, n.value % 256] + rest.value)
  }

  function Ipv6Bytes(address: string): Option<seq<Byte>> {
    var spelled := Spelled(Before(Lower(address), '%'));
    var groups := if spelled.None? then None else ExpandedGroups(spelled.value);
    if groups.None? then None else BytesOfGroups(groups.value)
  }

  // ----- Ranges

  datatype Subnet = Subnet(network: seq<Byte>, prefix: nat)

  function Pow2(n: nat): (r: nat)
    ensures r > 0
  {
    if n == 0 then 1 else 2 * Pow2(n - 1)
  }

  /** The first `prefix` bits agree. */
  predicate InSubnet(b: seq<Byte>, s: Subnet)
    requires |b| == |s.network| && s.prefix <= 8 * |b|
  {
    var whole, bits := s.prefix / 8, s.prefix % 8;
    b[..whole] == s.network[..whole] && (bits == 0 || b[whole] / Pow2(8 - bits) == s.network[whole] / Pow2(8 - bits))
  }

  /** The IPv4 ranges of the block list. */
  predicate Blocked4(b: seq<Byte>)
    requires |b| == 4
  {
    || InSubnet(b, Subnet([0, 0, 0, 0], 8)) || InSubnet(b, Subnet([10, 0, 0, 0], 8))
    || InSubnet(b, Subnet([100, 64, 0, 0], 10)) || InSubnet(b, Subnet([127, 0, 0, 0], 8))
    || InSubnet(b, Subnet([169, 254, 0, 0], 16)) || InSubnet(b, Subnet([172, 16, 0, 0], 12))
    || InSubnet(b, Subnet([192, 0, 0, 0], 24)) || InSubnet(b, Subnet([192, 0, 2, 0], 24))
    || InSubnet(b, Subnet([192, 168, 0, 0], 16)) || InSubnet(b, Subnet([198, 18, 0, 0], 15))
    || InSubnet(b, Subnet([198, 51, 100, 0], 24)) || InSubnet(b, Subnet([203, 0, 113, 0], 24))
    || InSubnet(b, Subnet([224, 0, 0, 0], 4)) || InSubnet(b, Subnet([240, 0, 0, 0], 4))
  }

  function Network(first: seq<Byte>): (r: seq<Byte>)
    requires |first| <= 16
    ensures |r| == 16
  {
    first + seq(16 - |first|, _ => 0)
  }

  /** The IPv6 ranges of the block list. */
  predicate Blocked6(b: seq<Byte>)
    requires |b| == 16
  {
    || InSubnet(b, Subnet(Network([]), 127)) || InSubnet(b, Subnet(Network([0, 0x64, 0xff, 0x9b, 0, 1]), 48))
    || InSubnet(b, Subnet(Network([1]), 64)) || InSubnet(b, Subnet(Network([0x20, 1]), 32))
    || InSubnet(b, Subnet(Network([0x20, 1, 0x0d, 0xb8]), 32)) || InSubnet(b, Subnet(Network([0xfc]), 7))
    || InSubnet(b, Subnet(Network([0xfe, 0x80]), 10)) || InSubnet(b, Subnet(Network([0xfe, 0xc0]), 10))
    || InSubnet(b, Subnet(Network([0xff]), 8))
  }

  // ----- Embedded addresses

  predicate AllZero(b: seq<Byte>) {
    forall i | 0 <= i < |b| :: b[i] == 0
  }

  /** The IPv4 address embedded in an address, as its four bytes. */
  function EmbeddedIn(b: seq<Byte>): Option<seq<Byte>>
    requires |b| == 16
  {
    if AllZero(b[..10]) && b[10] == 0xff && b[11] == 0xff then Some(b[12..16])
    else if AllZero(b[..12]) && (b[12] != 0 || b[13] != 0) then Some(b[12..16])
    else if b[0] == 0 && b[1] == 0x64 && b[2] == 0xff && b[3] == 0x9b && AllZero(b[4..12]) then Some(b[12..16])
    else if b[0] == 0x20 && b[1] == 2 then Some(b[2..6])
    else None
  }

  function EmbeddedIpv4(address: string): Option<seq<Byte>> {
    match Ipv6Bytes(address)
    case None => None
    case Some(b) => if |b| == 16 then EmbeddedIn(b) else None
  }

  /** `isPublicAddress` of an IPv6 text whose address, as the platform's block list reads it, is `b`. */
  predicate IsPublicIpv6(address: string, b: seq<Byte>)
    requires |b| == 16
  {
    match EmbeddedIpv4(address)
    case Some(v4) => |v4| == 4 && !Blocked4(v4)
    case None => !Blocked6(b)
  }
}
