/**
 * The texts of an IPv6 address (section 2.2 of RFC 4291): eight groups, "::" for a run of zero groups, a
 * dotted IPv4 tail, either case, leading zeros, and a zone. `Ipv6Bytes` reads each of them as the
 * address it spells, and in particular the canonical text (section 4 of RFC 5952).
 */
module Ipv6Text {
  import opened Wrappers
  import opened Egress

  datatype Quad = Quad(a: Byte, b: Byte, c: Byte, d: Byte)

  datatype Form = Form(head: seq<string>, compressed: bool, tail: seq<string>, dotted: Option<Quad>, zone: Option<string>)

  predicate IsGroup(g: string) {
    1 <= |g| <= 4 && AllHex(g)
  }

  predicate AllGroups(groups: seq<string>) {
    forall i | 0 <= i < |groups| :: IsGroup(groups[i])
  }

  predicate WellFormed(f: Form) {
    var count := |f.head| + |f.tail| + if f.dotted.Some? then 2 else 0;
    && AllGroups(f.head) && AllGroups(f.tail)
    && if f.compressed then count <= 7 else count == 8 && f.tail == []
  }

  /** Four decimal numbers with dots between them, behind some text. */
  function WithDotted(front: string, q: Quad): string {
    front + DecimalText(q.a) + "." + DecimalText(q.b) + "." + DecimalText(q.c) + "." + DecimalText(q.d)
  }

  function DottedText(q: Quad): string {
    WithDotted("", q)
  }

  function Dotted(f: Form): seq<string> {
    if f.dotted.Some? then [DottedText(f.dotted.value)] else []
  }

  function Body(f: Form): string {
    if f.compressed then Join(f.head, ':') + "::" + Join(f.tail + Dotted(f), ':') else Join(f.head + Dotted(f), ':')
  }

  function Text(f: Form): string {
    Body(f) + if f.zone.Some? then "%" + f.zone.value else ""
  }

  lemma {:induction false} HexValueBound(g: string)
    requires AllHex(g) && |g| <= 4
    ensures HexValue(g) < 0x10000
    ensures |g| <= 3 ==> HexValue(g) < 0x1000
    ensures |g| <= 2 ==> HexValue(g) < 0x100
    ensures |g| <= 1 ==> HexValue(g) < 0x10
    decreases |g|
  {
    if g != "" {
      HexValueBound(g[..|g| - 1]);
    }
  }

  function GroupBytes(g: string): (r: seq<Byte>)
    requires IsGroup(g)
    ensures |r| == 2
  {
    HexValueBound(g);
    [HexValue(g) / 256, HexValue(g) % 256]
  }

  function BytesOfAll(groups: seq<string>): (r: seq<Byte>)
    requires AllGroups(groups)
    ensures |r| == 2 * |groups|
  {
    if groups == [] then [] else GroupBytes(groups[0]) + BytesOfAll(groups[1..])
  }

  function ZeroBytes(n: nat): (r: seq<Byte>)
    ensures |r| == n
  {
    seq(n, _ => 0)
  }

  /** Bytes from both ends of an address, with zeros between them. */
  function Filled16(x: seq<Byte>, y: seq<Byte>): (r: seq<Byte>)
    requires |x| + |y| <= 16
    ensures |r| == 16
  {
    x + ZeroBytes(16 - |x| - |y|) + y
  }

  function DottedBytes(f: Form): seq<Byte> {
    if f.dotted.Some? then [f.dotted.value.a, f.dotted.value.b, f.dotted.value.c, f.dotted.value.d] else []
  }

  /** The sixteen bytes that the text spells. */
  function BytesOf(f: Form): (r: seq<Byte>)
    requires WellFormed(f)
    ensures |r| == 16
  {
    Filled16(BytesOfAll(f.head), BytesOfAll(f.tail) + DottedBytes(f))
  }

  // ----- Groups

  lemma BytesOfUndotted(f: Form)
    requires WellFormed(f) && f.dotted.None?
    ensures BytesOf(f) == Filled16(BytesOfAll(f.head), BytesOfAll(f.tail))
  {
    assert BytesOfAll(f.tail) + [] == BytesOfAll(f.tail);
  }

  lemma BytesOfShortened(head: seq<string>, tail: seq<string>, x: seq<Byte>, y: seq<Byte>)
    requires AllGroups(head) && AllGroups(tail) && |head| + |tail| <= 7
    requires BytesOfAll(head) == x && BytesOfAll(tail) == y
    ensures var f := Form(head, true, tail, None, None);
            |x| + |y| <= 16 && WellFormed(f) && BytesOf(f) == Filled16(x, y)
  {
    BytesOfUndotted(Form(head, true, tail, None, None));
  }

  lemma {:induction false} GroupsRead(groups: seq<string>)
    requires AllGroups(groups)
    ensures BytesOfGroups(groups) == Some(BytesOfAll(groups))
  {
    if groups != [] {
      var g := groups[0];
      assert g[..|g|] == g;
      HexPrefixOfAll(g);
      HexValueBound(g);
      GroupsRead(groups[1..]);
    }
  }

  lemma {:induction false} BytesOfConcat(a: seq<string>, b: seq<string>)
    requires AllGroups(a) && AllGroups(b)
    ensures AllGroups(a + b) && BytesOfAll(a + b) == BytesOfAll(a) + BytesOfAll(b)
  {
    if a == [] {
      assert a + b == b;
    } else {
      assert (a + b)[0] == a[0] && (a + b)[1..] == a[1..] + b;
      BytesOfConcat(a[1..], b);
    }
  }

  lemma {:induction false} BytesOfZeros(n: nat)
    ensures AllGroups(Zeros(n)) && BytesOfAll(Zeros(n)) == ZeroBytes(2 * n)
  {
    if n > 0 {
      BytesOfZeros(n - 1);
      assert Zeros(n)[1..] == Zeros(n - 1);
      assert HexValue("0"[..1]) == 0 by { assert "0"[..0] == ""; }
      assert "0"[..1] == "0";
    }
  }

  // ----- Case

  function LowerAll(groups: seq<string>): (r: seq<string>)
    ensures |r| == |groups|
    ensures forall i | 0 <= i < |r| :: r[i] == Lower(groups[i])
  {
    seq(|groups|, i requires 0 <= i < |groups| => Lower(groups[i]))
  }

  function LowerForm(f: Form): Form {
    f.(head := LowerAll(f.head), tail := LowerAll(f.tail), zone := if f.zone.Some? then Some(Lower(f.zone.value)) else None)
  }

  lemma LowerOfConcat(a: string, b: string)
    ensures Lower(a + b) == Lower(a) + Lower(b)
  {
  }

  lemma {:induction false} LowerOfJoin(parts: seq<string>, separator: char)
    requires LowerChar(separator) == separator
    ensures Lower(Join(parts, separator)) == Join(LowerAll(parts), separator)
  {
    if |parts| > 1 {
      LowerOfJoin(parts[1..], separator);
      assert LowerAll(parts)[1..] == LowerAll(parts[1..]);
      LowerOfConcat(parts[0] + [separator], Join(parts[1..], separator));
      LowerOfConcat(parts[0], [separator]);
    }
  }

  lemma DottedChars(q: Quad, c: char)
    requires c in DottedText(q)
    ensures c == '.' || IsDigit(c)
  {
    var a, b, n, d := DecimalText(q.a), DecimalText(q.b), DecimalText(q.c), DecimalText(q.d);
    DecimalTextReads(q.a);
    DecimalTextReads(q.b);
    DecimalTextReads(q.c);
    DecimalTextReads(q.d);
    assert c in a || c in b || c in n || c in d || c == '.';
  }

  lemma LowerOfDotted(q: Quad)
    ensures Lower(DottedText(q)) == DottedText(q)
  {
    forall i | 0 <= i < |DottedText(q)| ensures LowerChar(DottedText(q)[i]) == DottedText(q)[i] {
      DottedChars(q, DottedText(q)[i]);
    }
  }

  lemma LowerOfParts(groups: seq<string>, dotted: Option<Quad>)
    ensures var last := if dotted.Some? then [DottedText(dotted.value)] else [];
            Lower(Join(groups + last, ':')) == Join(LowerAll(groups) + last, ':')
  {
    var last := if dotted.Some? then [DottedText(dotted.value)] else [];
    if dotted.Some? {
      LowerOfDotted(dotted.value);
    }
    LowerOfJoin(groups + last, ':');
    assert LowerAll(groups + last) == LowerAll(groups) + last;
  }

  lemma LowerOfCompressed(a: string, b: string)
    ensures Lower(a + "::" + b) == Lower(a) + "::" + Lower(b)
  {
    LowerOfConcat(a + "::", b);
    LowerOfConcat(a, "::");
    assert Lower("::") == "::";
  }

  lemma LowerOfBody(f: Form)
    ensures Lower(Body(f)) == Body(LowerForm(f))
  {
    if f.compressed {
      LowerOfCompressed(Join(f.head, ':'), Join(f.tail + Dotted(f), ':'));
      LowerOfJoin(f.head, ':');
      LowerOfParts(f.tail, f.dotted);
    } else {
      LowerOfParts(f.head, f.dotted);
    }
  }

  lemma LowerOfText(f: Form)
    ensures Lower(Text(f)) == Text(LowerForm(f))
  {
    LowerOfBody(f);
    if f.zone.Some? {
      LowerOfConcat(Body(f), "%" + f.zone.value);
      LowerOfConcat("%", f.zone.value);
      assert Lower("%") == "%";
    } else {
      LowerOfConcat(Body(f), "");
    }
  }

  lemma {:induction false} LowerHexValue(g: string)
    requires AllHex(g)
    ensures AllHex(Lower(g)) && HexValue(Lower(g)) == HexValue(g)
  {
    if g != "" {
      LowerHexValue(g[..|g| - 1]);
      assert Lower(g)[..|g| - 1] == Lower(g[..|g| - 1]);
    }
  }

  lemma {:induction false} LowerGroups(groups: seq<string>)
    requires AllGroups(groups)
    ensures AllGroups(LowerAll(groups)) && BytesOfAll(LowerAll(groups)) == BytesOfAll(groups)
  {
    if groups != [] {
      LowerHexValue(groups[0]);
      LowerGroups(groups[1..]);
      assert LowerAll(groups)[1..] == LowerAll(groups[1..]);
      assert AllGroups(LowerAll(groups)) by {
        forall i | 0 <= i < |groups| ensures IsGroup(LowerAll(groups)[i]) {
          LowerHexValue(groups[i]);
        }
      }
    }
  }

  // ----- The zone

  lemma {:induction false} NotInJoin(parts: seq<string>, separator: char, c: char)
    requires c != separator && forall i | 0 <= i < |parts| :: c !in parts[i]
    ensures c !in Join(parts, separator)
  {
    if |parts| > 1 {
      NotInJoin(parts[1..], separator, c);
    }
  }

  /** A body is made of hexadecimal digits, colons and, with a dotted tail, dots. */
  lemma BodyChars(f: Form, c: char)
    requires WellFormed(f) && HexDigit(c) == 16 && c != ':' && (c == '.' ==> f.dotted.None?)
    ensures c !in Body(f)
  {
    if f.dotted.Some? && c in DottedText(f.dotted.value) {
      DottedChars(f.dotted.value, c);
    }
    NotInJoin(f.head, ':', c);
    NotInJoin(f.tail + Dotted(f), ':', c);
    NotInJoin(f.head + Dotted(f), ':', c);
  }

  lemma ZoneIsCut(f: Form)
    requires WellFormed(f)
    ensures Before(Text(f), '%') == Body(f)
  {
    BodyChars(f, '%');
    if f.zone.Some? {
      SplitAtSeparator(Body(f), f.zone.value, '%');
      assert Text(f) == Body(f) + ['%'] + f.zone.value;
    } else {
      SplitOfPart(Body(f), '%');
      assert Text(f) == Body(f);
    }
  }

  // ----- The dotted tail

  lemma {:induction false} DigitsAtTheEnd(front: string, digits: string)
    requires AllDigits(digits) && (front == "" || !IsDigit(front[|front| - 1]))
    ensures TrailingDigits(front + digits) == |digits|
    decreases |digits|
  {
    var s := front + digits;
    if digits == "" {
      assert s == front;
    } else {
      DigitsAtTheEnd(front, digits[..|digits| - 1]);
      assert s[..|s| - 1] == front + digits[..|digits| - 1];
    }
  }

  predicate EndsInRun(s: string, front: string, digits: string) {
    Front(s) == front && LastRun(s) == digits
  }

  predicate EndsInDottedRun(s: string, before: string, digits: string) {
    HasDottedRun(s) && BeforeDottedRun(s) == before && LastRun(s) == digits
  }

  lemma RunAtTheEnd(front: string, digits: string)
    requires AllDigits(digits) && (front == "" || !IsDigit(front[|front| - 1]))
    ensures EndsInRun(front + digits, front, digits)
  {
    DigitsAtTheEnd(front, digits);
  }

  lemma DottedRunAtTheEnd(before: string, digits: string)
    requires AllDigits(digits) && digits != ""
    ensures EndsInDottedRun(before + "." + digits, before, digits)
  {
    assert (before + ".")[|before + "."| - 1] == '.';
    RunAtTheEnd(before + ".", digits);
    assert (before + ".")[..|before|] == before;
  }

  /** Four runs with dots between them, each found in what is before the next. */
  lemma FourRuns(s4: string, s3: string, s2: string, s1: string, front: string, a: string, b: string, c: string, d: string)
    requires EndsInDottedRun(s4, s3, d) && EndsInDottedRun(s3, s2, c) && EndsInDottedRun(s2, s1, b) && EndsInRun(s1, front, a)
    requires a != ""
    ensures DottedTail(s4) == Some(Tail(front, DecimalValue(a), DecimalValue(b), DecimalValue(c), DecimalValue(d)))
  {
  }

  lemma DottedTailReads(front: string, a: string, b: string, c: string, d: string)
    requires AllDigits(a) && AllDigits(b) && AllDigits(c) && AllDigits(d) && a != "" && b != "" && c != "" && d != ""
    requires front == "" || !IsDigit(front[|front| - 1])
    ensures DottedTail(front + a + "." + b + "." + c + "." + d) ==
            Some(Tail(front, DecimalValue(a), DecimalValue(b), DecimalValue(c), DecimalValue(d)))
  {
    var s1 := front + a;
    RunAtTheEnd(front, a);
    var s2 := s1 + "." + b;
    DottedRunAtTheEnd(s1, b);
    var s3 := s2 + "." + c;
    DottedRunAtTheEnd(s2, c);
    DottedRunAtTheEnd(s3, d);
    FourRuns(s3 + "." + d, s3, s2, s1, front, a, b, c, d);
  }

  /** The same address with its dotted tail spelled as two groups. */
  function Undotted(f: Form): Form {
    match f.dotted
    case None => f
    case Some(q) =>
      if f.compressed then f.(tail := f.tail + PairOf(q), dotted := None) else f.(head := f.head + PairOf(q), dotted := None)
  }

  /** Groups as they stand in front of further ones. */
  function Lead(groups: seq<string>): string {
    if groups == [] then "" else Join(groups, ':') + ":"
  }

  lemma JoinLead(groups: seq<string>, last: seq<string>)
    requires last != []
    ensures Join(groups + last, ':') == Lead(groups) + Join(last, ':')
  {
    if groups == [] {
      assert groups + last == last;
    } else {
      JoinOfConcat(groups, last, ':');
    }
  }

  lemma Regrouped(front: string, s: string, t: string)
    ensures front + (s + t) == front + s + t
  {
  }

  lemma DottedBehind(front: string, q: Quad)
    ensures front + DottedText(q) == WithDotted(front, q)
  {
    var a, b, c, d := DecimalText(q.a), DecimalText(q.b), DecimalText(q.c), DecimalText(q.d);
    Regrouped(front, "" + a + "." + b + "." + c + ".", d);
    Regrouped(front, "" + a + "." + b + "." + c, ".");
    Regrouped(front, "" + a + "." + b + ".", c);
    Regrouped(front, "" + a + "." + b, ".");
    Regrouped(front, "" + a + ".", b);
    Regrouped(front, "" + a, ".");
    Regrouped(front, "", a);
    assert front + "" == front;
  }

  lemma DottedTextReads(front: string, q: Quad)
    requires front == "" || !IsDigit(front[|front| - 1])
    ensures DottedTail(front + DottedText(q)) == Some(Tail(front, q.a, q.b, q.c, q.d))
  {
    DottedBehind(front, q);
    DecimalTextReads(q.a);
    DecimalTextReads(q.b);
    DecimalTextReads(q.c);
    DecimalTextReads(q.d);
    DottedTailReads(front, DecimalText(q.a), DecimalText(q.b), DecimalText(q.c), DecimalText(q.d));
  }

  /** What is in front of a dotted tail: nothing a digit could join. */
  function FrontOf(f: Form): string {
    if f.compressed then Join(f.head, ':') + "::" + Lead(f.tail) else Lead(f.head)
  }

  function PairOf(q: Quad): seq<string> {
    [HexText(256 * q.a + q.b), HexText(256 * q.c + q.d)]
  }

  lemma PairJoined(q: Quad, groups: seq<string>)
    ensures Join(groups + PairOf(q), ':') == Lead(groups) + HexText(256 * q.a + q.b) + ":" + HexText(256 * q.c + q.d)
    ensures Join(groups + [DottedText(q)], ':') == Lead(groups) + DottedText(q)
  {
    var a, b := HexText(256 * q.a + q.b), HexText(256 * q.c + q.d);
    JoinLead(groups, [DottedText(q)]);
    JoinLead(groups, [a, b]);
    assert [a, b][1..] == [b];
    Regrouped(Lead(groups), a + ":", b);
    Regrouped(Lead(groups), a, ":");
  }

  lemma ShortDotted(head: string, q: Quad, tail: seq<string>)
    ensures head + "::" + Join(tail + [DottedText(q)], ':') == head + "::" + Lead(tail) + DottedText(q)
    ensures head + "::" + Join(tail + PairOf(q), ':') ==
            head + "::" + Lead(tail) + HexText(256 * q.a + q.b) + ":" + HexText(256 * q.c + q.d)
  {
    var a, b, h := HexText(256 * q.a + q.b), HexText(256 * q.c + q.d), head + "::";
    PairJoined(q, tail);
    Regrouped(h, Lead(tail), DottedText(q));
    Regrouped(h, Lead(tail) + a + ":", b);
    Regrouped(h, Lead(tail) + a, ":");
    Regrouped(h, Lead(tail), a);
  }

  lemma BodyOfDotted(f: Form)
    requires f.dotted.Some?
    ensures Body(f) == FrontOf(f) + DottedText(f.dotted.value)
    ensures var q := f.dotted.value;
            Body(Undotted(f)) == FrontOf(f) + HexText(256 * q.a + q.b) + ":" + HexText(256 * q.c + q.d)
  {
    var q := f.dotted.value;
    assert Dotted(f) == [DottedText(q)] && Dotted(Undotted(f)) == [];
    if f.compressed {
      ShortDotted(Join(f.head, ':'), q, f.tail);
      assert f.tail + PairOf(q) + [] == f.tail + PairOf(q);
    } else {
      PairJoined(q, f.head);
      assert f.head + PairOf(q) + [] == f.head + PairOf(q);
    }
  }

  lemma FrontEndsInColon(f: Form)
    requires f.dotted.Some? && WellFormed(f)
    ensures FrontOf(f) != "" && FrontOf(f)[|FrontOf(f)| - 1] == ':'
  {
  }

  lemma BodySpelled(f: Form)
    requires WellFormed(f)
    ensures Spelled(Body(f)) == Some(Body(Undotted(f)))
  {
    if f.dotted.Some? {
      BodyOfDotted(f);
      FrontEndsInColon(f);
      DottedTextReads(FrontOf(f), f.dotted.value);
    } else {
      BodyChars(f, '.');
      assert !HasDottedRun(Body(f));
    }
  }

  lemma {:induction false} HexTextLength(n: nat, digits: nat)
    requires digits > 0 && n < Pow16(digits)
    ensures |HexText(n)| <= digits
    decreases digits
  {
    if n >= 16 {
      HexTextLength(n / 16, digits - 1);
    }
  }

  function Pow16(n: nat): nat {
    if n == 0 then 1 else 16 * Pow16(n - 1)
  }

  lemma HexTextIsGroup(n: nat)
    requires n < 0x10000
    ensures IsGroup(HexText(n)) && GroupBytes(HexText(n)) == [n / 256, n % 256]
  {
    assert Pow16(4) == 0x10000;
    HexTextLength(n, 4);
    HexTextReads(n);
  }

  lemma BytesOfTwo(x: string, y: string)
    requires IsGroup(x) && IsGroup(y)
    ensures BytesOfAll([x, y]) == GroupBytes(x) + GroupBytes(y)
  {
    assert [x, y][1..] == [y] && [y][1..] == [];
  }

  lemma HalfBytes(a: Byte, b: Byte)
    ensures IsGroup(HexText(256 * a + b)) && GroupBytes(HexText(256 * a + b)) == [a, b]
  {
    var n := 256 * a + b;
    assert n / 256 == a && n % 256 == b;
    HexTextIsGroup(n);
  }

  lemma PairBytes(q: Quad)
    ensures AllGroups(PairOf(q)) && BytesOfAll(PairOf(q)) == [q.a, q.b, q.c, q.d]
  {
    HalfBytes(q.a, q.b);
    HalfBytes(q.c, q.d);
    BytesOfTwo(PairOf(q)[0], PairOf(q)[1]);
  }

  lemma FullBytes(x: seq<Byte>, y: seq<Byte>)
    requires |x| + |y| == 16
    ensures Filled16(x, y) == x + y && Filled16(x + y, []) == x + y
  {
    assert x + ZeroBytes(0) == x;
    assert x + y + ZeroBytes(0) + [] == x + y;
  }

  lemma LongUndottedKeepsBytes(head: seq<string>, q: Quad, zone: Option<string>)
    requires AllGroups(head) && |head| == 6
    ensures var f, u := Form(head, false, [], Some(q), zone), Form(head + PairOf(q), false, [], None, zone);
            WellFormed(f) && WellFormed(u) && BytesOf(f) == BytesOf(u)
  {
    var x, y := BytesOfAll(head), [q.a, q.b, q.c, q.d];
    PairBytes(q);
    BytesOfConcat(head, PairOf(q));
    BytesOfUndotted(Form(head + PairOf(q), false, [], None, zone));
    FullBytes(x, y);
    assert BytesOfAll([]) == [] && [] + y == y;
  }

  lemma ShortUndottedKeepsBytes(head: seq<string>, tail: seq<string>, q: Quad, zone: Option<string>)
    requires AllGroups(head) && AllGroups(tail) && |head| + |tail| <= 5
    ensures var f, u := Form(head, true, tail, Some(q), zone), Form(head, true, tail + PairOf(q), None, zone);
            WellFormed(f) && WellFormed(u) && BytesOf(f) == BytesOf(u)
  {
    PairBytes(q);
    BytesOfConcat(tail, PairOf(q));
    BytesOfUndotted(Form(head, true, tail + PairOf(q), None, zone));
  }

  /** Spelling the tail as groups changes the text but not the address. */
  lemma UndottedKeepsBytes(f: Form)
    requires WellFormed(f)
    ensures WellFormed(Undotted(f)) && BytesOf(Undotted(f)) == BytesOf(f)
  {
    if f.dotted.Some? {
      if f.compressed {
        ShortUndottedKeepsBytes(f.head, f.tail, f.dotted.value, f.zone);
      } else {
        LongUndottedKeepsBytes(f.head, f.dotted.value, f.zone);
      }
    }
  }

  // ----- The groups

  lemma {:induction false} JoinHasNoDoubleColon(parts: seq<string>)
    requires parts != [] && AllParts(parts, ':')
    ensures var s := Join(parts, ':');
            s != "" && s[0] != ':' && s[|s| - 1] != ':' && forall j | 0 <= j < |s| - 1 :: s[j] != ':' || s[j + 1] != ':'
  {
    if |parts| > 1 {
      JoinHasNoDoubleColon(parts[1..]);
    }
  }

  lemma GroupsAreParts(groups: seq<string>)
    requires AllGroups(groups)
    ensures AllParts(groups, ':')
  {
    forall i | 0 <= i < |groups| ensures IsPart(groups[i], ':') {
      assert IsGroup(groups[i]);
    }
  }

  lemma JoinReads(groups: seq<string>)
    requires AllGroups(groups)
    ensures Groups(Join(groups, ':')) == groups && DoubleColon(Join(groups, ':')) == |Join(groups, ':')|
  {
    if groups != [] {
      GroupsAreParts(groups);
      SplitOfJoin(groups, ':');
      JoinHasNoDoubleColon(groups);
      DoubleColonIsFirst(Join(groups, ':'));
    }
  }

  lemma FirstDoubleColon(h: string, t: string)
    requires h == "" || (h[|h| - 1] != ':' && forall j | 0 <= j < |h| - 1 :: h[j] != ':' || h[j + 1] != ':')
    ensures DoubleColon(h + "::" + t) == |h|
  {
    var s := h + "::" + t;
    DoubleColonIsFirst(s);
    assert s[|h|] == ':' && s[|h| + 1] == ':';
    assert forall j | 0 <= j < |h| :: s[j] == h[j];
  }

  lemma CompressedSplits(head: seq<string>, t: string)
    requires AllGroups(head)
    ensures DoubleColon(Join(head, ':') + "::" + t) == |Join(head, ':')|
  {
    if head != [] {
      GroupsAreParts(head);
      JoinHasNoDoubleColon(head);
    }
    FirstDoubleColon(Join(head, ':'), t);
  }

  lemma FullBodyExpands(groups: seq<string>)
    requires AllGroups(groups) && |groups| == 8
    ensures ExpandedGroups(Join(groups, ':')) == Some(groups)
  {
    JoinReads(groups);
  }

  lemma ExpandsAt(h: string, t: string)
    requires DoubleColon(h + "::" + t) == |h| && DoubleColon(t) == |t|
    ensures ExpandedGroups(h + "::" + t) == Filled(Groups(h), Groups(t))
  {
    var s := h + "::" + t;
    assert s[..|h|] == h && s[|h| + 2..] == t && t[..|t|] == t;
  }

  lemma ShortBodyExpands(head: seq<string>, tail: seq<string>)
    requires AllGroups(head) && AllGroups(tail) && |head| + |tail| <= 7
    ensures ExpandedGroups(Join(head, ':') + "::" + Join(tail, ':')) == Some(head + Zeros(8 - |head| - |tail|) + tail)
  {
    JoinReads(head);
    JoinReads(tail);
    CompressedSplits(head, Join(tail, ':'));
    ExpandsAt(Join(head, ':'), Join(tail, ':'));
  }

  lemma BodyExpands(f: Form)
    requires WellFormed(f) && f.dotted.None?
    ensures ExpandedGroups(Body(f)) == Some(f.head + Zeros(8 - |f.head| - |f.tail|) + f.tail)
  {
    if f.compressed {
      assert f.tail + [] == f.tail;
      ShortBodyExpands(f.head, f.tail);
    } else {
      assert f.head + [] == f.head;
      FullBodyExpands(f.head);
      assert f.head + Zeros(0) + f.tail == f.head;
    }
  }

  lemma BytesExpand(f: Form)
    requires WellFormed(f) && f.dotted.None?
    ensures var groups := f.head + Zeros(8 - |f.head| - |f.tail|) + f.tail;
            AllGroups(groups) && BytesOfAll(groups) == BytesOf(f)
  {
    var n := 8 - |f.head| - |f.tail|;
    BytesOfZeros(n);
    BytesOfConcat(f.head, Zeros(n));
    BytesOfConcat(f.head + Zeros(n), f.tail);
    BytesOfUndotted(f);
  }

  lemma UndottedIsRead(f: Form)
    requires WellFormed(f) && f.dotted.None?
    ensures ExpandedGroups(Body(f)).Some? && BytesOfGroups(ExpandedGroups(Body(f)).value) == Some(BytesOf(f))
  {
    BodyExpands(f);
    BytesExpand(f);
    GroupsRead(f.head + Zeros(8 - |f.head| - |f.tail|) + f.tail);
  }

  lemma LowerKeepsBytes(f: Form)
    requires WellFormed(f)
    ensures WellFormed(LowerForm(f)) && BytesOf(LowerForm(f)) == BytesOf(f)
  {
    LowerGroups(f.head);
    LowerGroups(f.tail);
    assert |BytesOfAll(LowerForm(f).tail)| == |BytesOfAll(f.tail)|;
  }

  /** Every text of an address is read as that address. */
  lemma EveryTextIsRead(f: Form)
    requires WellFormed(f)
    ensures Ipv6Bytes(Text(f)) == Some(BytesOf(f))
  {
    var g := LowerForm(f);
    LowerOfText(f);
    LowerKeepsBytes(f);
    ZoneIsCut(g);
    BodySpelled(g);
    UndottedKeepsBytes(g);
    UndottedIsRead(Undotted(g));
  }
}
