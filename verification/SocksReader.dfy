/**
 * The browser's local SOCKS proxy reading its client (server/trackers/core/transport/browser-egress.ts):
 * the byte reader over a socket that delivers chunks of any size, and the handshake of sections 3 to 5 of
 * RFC 1928 decoded through it.
 */
module SocksReader {
  import opened Wrappers
  import opened Egress
  import opened Ipv6Text
  import opened PublicAddress

  const BUFFER_LIMIT := 65_536

  // ----- The reader

  datatype ReadResult = Resolved(bytes: seq<Byte>) | Waiting | Rejected

  class ByteReader {
    var buffered: seq<Byte>
    var pending: Option<nat>
    var closed: bool
    var destroyed: bool
    ghost var received: seq<Byte>
    ghost var consumed: seq<Byte>

    /** What was read and what is buffered are the bytes received, in order; a read waits only for missing bytes. */
    ghost predicate Valid()
      reads this
    {
      && received == consumed + buffered
      && (destroyed <==> |buffered| > BUFFER_LIMIT)
      && (pending.Some? && !destroyed ==> |buffered| < pending.value)
    }

    constructor ()
      ensures Valid() && received == [] && consumed == [] && pending == None && !closed && !destroyed
    {
      buffered, pending, closed, destroyed := [], None, false, false;
      received, consumed := [], [];
    }

    method Flush() returns (resolved: Option<seq<Byte>>)
      requires received == consumed + buffered
      modifies this`buffered, this`pending, this`consumed
      ensures received == consumed + buffered
      ensures match resolved
              case Some(bytes) =>
                && old(pending) == Some(|bytes|) && pending == None
                && consumed == old(consumed) + bytes && old(buffered) == bytes + buffered
              case None =>
                && pending == old(pending) && consumed == old(consumed) && buffered == old(buffered)
                && (pending.Some? ==> |buffered| < pending.value)
    {
      if pending.None? || |buffered| < pending.value {
        return None;
      }
      var size := pending.value;
      pending := None;
      var bytes := buffered[..size];
      buffered := buffered[size..];
      consumed := consumed + bytes;
      return Some(bytes);
    }

    /** A chunk from the socket. */
    method Data(chunk: seq<Byte>) returns (resolved: Option<seq<Byte>>)
      requires Valid() && !closed && !destroyed
      modifies this
      ensures Valid() && closed == old(closed) && received == old(received) + chunk
      ensures destroyed <==> |old(buffered)| + |chunk| > 65_536
      ensures destroyed ==> resolved == None && consumed == old(consumed)
      ensures !destroyed ==>
                match resolved
                case Some(bytes) =>
                  && old(pending) == Some(|bytes|) && pending == None
                  && consumed == old(consumed) + bytes && old(buffered) + chunk == bytes + buffered
                case None => pending == old(pending) && consumed == old(consumed) && buffered == old(buffered) + chunk
    {
      received := received + chunk;
      buffered := buffered + chunk;
      if |buffered| > BUFFER_LIMIT {
        destroyed := true;
        return None;
      }
      resolved := Flush();
    }

    method Close() returns (rejected: bool)
      requires Valid()
      modifies this`closed
      ensures Valid() && closed && rejected == pending.Some?
    {
      closed := true;
      return pending.Some?;
    }

    /** The next bytes of the stream, now if they are all here. */
    method Read(size: nat) returns (r: ReadResult)
      requires Valid() && pending == None && !destroyed
      modifies this`buffered, this`pending, this`consumed
      ensures Valid()
      ensures r.Rejected? <==> closed
      ensures r.Resolved? <==> !closed && size <= |old(buffered)|
      ensures r.Resolved? ==>
                && |r.bytes| == size && pending == None
                && consumed == old(consumed) + r.bytes && old(buffered) == r.bytes + buffered
      ensures r.Waiting? ==> pending == Some(size) && buffered == old(buffered) && consumed == old(consumed)
      ensures r.Rejected? ==> pending == None && buffered == old(buffered) && consumed == old(consumed)
    {
      if closed {
        return Rejected;
      }
      pending := Some(size);
      var resolved := Flush();
      return if resolved.Some? then Resolved(resolved.value) else Waiting;
    }

    /** Every byte received and not read. */
    method Detach() returns (leftover: seq<Byte>)
      requires Valid()
      ensures leftover == buffered && received == consumed + leftover
    {
      return buffered;
    }
  }

  // ----- The handshake

  /** The destination's address as it is sent. */
  datatype Address = Ipv4(bytes: seq<Byte>) | Name(bytes: seq<Byte>) | Ipv6(bytes: seq<Byte>)

  predicate ValidAddress(a: Address) {
    match a
    case Ipv4(bytes) => |bytes| == 4
    case Name(bytes) => |bytes| < 256
    case Ipv6(bytes) => |bytes| == 16
  }

  datatype Outcome =
    | WrongVersion
    | NoAcceptableMethod
    | AddressUnsupported
    | CommandUnsupported
    | Target(address: Address, port: nat)

  /** Where the decoding stands: what it reads next, and what it keeps from before. */
  datatype State =
    | Greeting
    | Methods(count: nat)
    | Request
    | Ipv4Host(command: Byte)
    | NameLength(command: Byte)
    | NameHost(command: Byte, length: Byte)
    | Ipv6Host(command: Byte)
    | Port(command: Byte, address: Address)
    | Ended(outcome: Outcome)

  function Wanted(s: State): nat
    requires !s.Ended?
  {
    match s
    case Greeting => 2
    case Methods(count) => count
    case Request => 4
    case Ipv4Host(_) => 4
    case NameLength(_) => 1
    case NameHost(_, length) => length
    case Ipv6Host(_) => 16
    case Port(_, _) => 2
  }

  function Rank(s: State): nat {
    match s
    case Greeting => 6
    case Methods(_) => 5
    case Request => 4
    case NameLength(_) => 3
    case Ipv4Host(_) => 2
    case NameHost(_, _) => 2
    case Ipv6Host(_) => 2
    case Port(_, _) => 1
    case Ended(_) => 0
  }

  function Next(s: State, bytes: seq<Byte>): (s': State)
    requires !s.Ended? && |bytes| == Wanted(s)
    ensures Rank(s') < Rank(s)
  {
    match s
    case Greeting => if bytes[0] != 5 then Ended(WrongVersion) else Methods(bytes[1])
    case Methods(_) => if 0 !in bytes then Ended(NoAcceptableMethod) else Request
    case Request =>
      if bytes[3] == 1 then Ipv4Host(bytes[1])
      else if bytes[3] == 3 then NameLength(bytes[1])
      else if bytes[3] == 4 then Ipv6Host(bytes[1])
      else Ended(AddressUnsupported)
    case Ipv4Host(command) => Port(command, Ipv4(bytes))
    case NameLength(command) => NameHost(command, bytes[0])
    case NameHost(command, _) => Port(command, Name(bytes))
    case Ipv6Host(command) => Port(command, Ipv6(bytes))
    case Port(command, address) =>
      if command != 1 then Ended(CommandUnsupported) else Ended(Target(address, 256 * (bytes[0] as int) + bytes[1] as int))
  }

  /** The decoding of a whole stream: how far it gets, and the bytes it leaves. */
  function Decoded(s: State, stream: seq<Byte>): (State, seq<Byte>)
    decreases Rank(s)
  {
    if s.Ended? || |stream| < Wanted(s) then (s, stream)
    else Decoded(Next(s, stream[..Wanted(s)]), stream[Wanted(s)..])
  }

  /** Decoding what has come and going on with the rest is decoding it all. */
  lemma {:induction false} DecodedInTwo(s: State, first: seq<Byte>, second: seq<Byte>)
    ensures var (t, rest) := Decoded(s, first); Decoded(s, first + second) == Decoded(t, rest + second)
    decreases Rank(s)
  {
    if !s.Ended? && |first| >= Wanted(s) {
      var n := Wanted(s);
      assert (first + second)[..n] == first[..n] && (first + second)[n..] == first[n..] + second;
      DecodedInTwo(Next(s, first[..n]), first[n..], second);
    }
  }

  function Joined(chunks: seq<seq<Byte>>): seq<Byte> {
    if chunks == [] then [] else Joined(chunks[..|chunks| - 1]) + chunks[|chunks| - 1]
  }

  /** The stream is dropped once more than the limit waits unread. */
  predicate WithinLimit(chunks: seq<seq<Byte>>) {
    chunks == [] ||
    (WithinLimit(chunks[..|chunks| - 1]) &&
     |Decoded(Greeting, Joined(chunks[..|chunks| - 1])).1| + |chunks[|chunks| - 1]| <= BUFFER_LIMIT)
  }

  lemma {:induction false} DecodedIsShorter(s: State, stream: seq<Byte>)
    ensures |Decoded(s, stream).1| <= |stream|
    decreases Rank(s)
  {
    if !s.Ended? && |stream| >= Wanted(s) {
      DecodedIsShorter(Next(s, stream[..Wanted(s)]), stream[Wanted(s)..]);
    }
  }

  /** However it is cut, a client that sends no more than the limit is never dropped. */
  lemma {:induction false} ShortStreamsFit(chunks: seq<seq<Byte>>)
    requires |Joined(chunks)| <= 65_536
    ensures WithinLimit(chunks)
  {
    if chunks != [] {
      ShortStreamsFit(chunks[..|chunks| - 1]);
      DecodedIsShorter(Greeting, Joined(chunks[..|chunks| - 1]));
    }
  }

  /** The reads of the handshake, one after the other, as far as the bytes at hand go. */
  method Resume(reader: ByteReader, s: State) returns (t: State)
    requires reader.Valid() && !reader.closed && !reader.destroyed && reader.pending == None
    modifies reader`buffered, reader`pending, reader`consumed
    ensures reader.Valid() && !reader.destroyed
    ensures (t, reader.buffered) == Decoded(s, old(reader.buffered))
    ensures reader.pending == if t.Ended? then None else Some(Wanted(t))
  {
    t := s;
    while !t.Ended?
      invariant reader.Valid() && !reader.destroyed && reader.pending == None
      invariant Decoded(t, reader.buffered) == Decoded(s, old(reader.buffered))
      decreases Rank(t)
    {
      ghost var stream := reader.buffered;
      var r := reader.Read(Wanted(t));
      if r.Waiting? {
        return;
      }
      assert stream[..Wanted(t)] == r.bytes && stream[Wanted(t)..] == reader.buffered;
      t := Next(t, r.bytes);
    }
  }

  /**
   * The handshake over a client's chunks. Unless the client is dropped for sending too much at once, it ends
   * where decoding the uncut stream ends, and the bytes left over are those behind the ones it read.
   */
  method Relay(chunks: seq<seq<Byte>>) returns (state: State, leftover: seq<Byte>, dropped: bool)
    ensures dropped <==> !WithinLimit(chunks)
    ensures !dropped ==> (state, leftover) == Decoded(Greeting, Joined(chunks))
  {
    var reader := new ByteReader();
    dropped := false;
    state := Resume(reader, Greeting);
    var i := 0;
    while i < |chunks|
      invariant i <= |chunks| && fresh(reader) && reader.Valid() && !reader.closed && !reader.destroyed
      invariant (state, reader.buffered) == Decoded(Greeting, Joined(chunks[..i]))
      invariant reader.pending == if state.Ended? then None else Some(Wanted(state))
      invariant WithinLimit(chunks[..i])
    {
      ghost var stream := Joined(chunks[..i]);
      assert chunks[..i + 1][..i] == chunks[..i];
      DecodedInTwo(Greeting, stream, chunks[i]);
      ghost var waiting := reader.buffered;
      var resolved := reader.Data(chunks[i]);
      if reader.destroyed {
        TooMuchIsTooMuch(chunks, i + 1);
        return state, [], true;
      }
      if resolved.Some? {
        assert (waiting + chunks[i])[..Wanted(state)] == resolved.value;
        assert (waiting + chunks[i])[Wanted(state)..] == reader.buffered;
        state := Next(state, resolved.value);
        state := Resume(reader, state);
      }
      i := i + 1;
    }
    assert chunks[..i] == chunks;
    leftover := reader.Detach();
  }

  lemma {:induction false} TooMuchIsTooMuch(chunks: seq<seq<Byte>>, n: nat)
    requires n <= |chunks| && !WithinLimit(chunks[..n])
    ensures !WithinLimit(chunks)
    decreases |chunks|
  {
    if n < |chunks| {
      assert chunks[..|chunks| - 1][..n] == chunks[..n];
      TooMuchIsTooMuch(chunks[..|chunks| - 1], n);
    } else {
      assert chunks[..n] == chunks;
    }
  }

  // ----- What a client sends

  function PortBytes(port: nat): (r: seq<Byte>)
    requires port < 0x10000
    ensures |r| == 2
  {
    [port / 256, port % 256]
  }

  function AddressBytes(a: Address): seq<Byte>
    requires ValidAddress(a)
  {
    match a
    case Ipv4(bytes) => [1] + bytes
    case Name(bytes) => [3, |bytes|] + bytes
    case Ipv6(bytes) => [4] + bytes
  }

  function Hello(methods: seq<Byte>): seq<Byte>
    requires |methods| < 256
  {
    [5, |methods|] + methods
  }

  /** Sections 3 and 4 of RFC 1928; the reserved byte is not looked at. */
  function ClientHandshake(methods: seq<Byte>, command: Byte, reserved: Byte, a: Address, port: nat): seq<Byte>
    requires |methods| < 256 && ValidAddress(a) && port < 0x10000
  {
    Hello(methods) + [5, command, reserved] + AddressBytes(a) + PortBytes(port)
  }

  lemma OneRead(s: State, bytes: seq<Byte>, rest: seq<Byte>)
    requires !s.Ended? && |bytes| == Wanted(s)
    ensures Decoded(s, bytes + rest) == Decoded(Next(s, bytes), rest)
  {
    assert (bytes + rest)[..|bytes|] == bytes && (bytes + rest)[|bytes|..] == rest;
  }

  lemma HelloIsRead(methods: seq<Byte>, rest: seq<Byte>)
    requires |methods| < 256
    ensures Decoded(Greeting, Hello(methods) + rest) ==
            if 0 in methods then Decoded(Request, rest) else (Ended(NoAcceptableMethod), rest)
  {
    OneRead(Greeting, [5, |methods|], methods + rest);
    OneRead(Methods(|methods|), methods, rest);
    assert Hello(methods) + rest == [5, |methods|] + (methods + rest);
  }

  lemma FixedAddressIsRead(command: Byte, reserved: Byte, a: Address, rest: seq<Byte>)
    requires ValidAddress(a) && !a.Name?
    ensures Decoded(Request, [5, command, reserved, if a.Ipv4? then 1 else 4] + (a.bytes + rest)) == Decoded(Port(command, a), rest)
  {
    OneRead(Request, [5, command, reserved, if a.Ipv4? then 1 else 4], a.bytes + rest);
    OneRead(if a.Ipv4? then Ipv4Host(command) else Ipv6Host(command), a.bytes, rest);
  }

  lemma NameIsRead(command: Byte, reserved: Byte, a: Address, rest: seq<Byte>)
    requires ValidAddress(a) && a.Name?
    ensures Decoded(Request, [5, command, reserved, 3] + ([|a.bytes|] + (a.bytes + rest))) == Decoded(Port(command, a), rest)
  {
    OneRead(Request, [5, command, reserved, 3], [|a.bytes|] + (a.bytes + rest));
    OneRead(NameLength(command), [|a.bytes|], a.bytes + rest);
    OneRead(NameHost(command, |a.bytes|), a.bytes, rest);
  }

  lemma RequestRegrouped(command: Byte, reserved: Byte, a: Address, rest: seq<Byte>)
    requires ValidAddress(a)
    ensures [5, command, reserved] + AddressBytes(a) + rest ==
            if a.Name? then [5, command, reserved, 3] + ([|a.bytes|] + (a.bytes + rest))
            else [5, command, reserved, if a.Ipv4? then 1 else 4] + (a.bytes + rest)
  {
  }

  lemma AddressIsRead(command: Byte, reserved: Byte, a: Address, rest: seq<Byte>)
    requires ValidAddress(a)
    ensures Decoded(Request, [5, command, reserved] + AddressBytes(a) + rest) == Decoded(Port(command, a), rest)
  {
    RequestRegrouped(command, reserved, a, rest);
    if a.Name? {
      NameIsRead(command, reserved, a, rest);
    } else {
      FixedAddressIsRead(command, reserved, a, rest);
    }
  }

  lemma PortIsRead(command: Byte, a: Address, port: nat, rest: seq<Byte>)
    requires port < 0x10000
    ensures Decoded(Port(command, a), PortBytes(port) + rest) ==
            (Ended(if command == 1 then Target(a, port) else CommandUnsupported), rest)
  {
    OneRead(Port(command, a), PortBytes(port), rest);
  }

  /** What the client meant is what is decoded, and the bytes it sent after the handshake are left untouched. */
  lemma HandshakeRoundTrip(methods: seq<Byte>, command: Byte, reserved: Byte, a: Address, port: nat, payload: seq<Byte>)
    requires |methods| < 256 && 0 in methods && ValidAddress(a) && port < 0x10000
    ensures Decoded(Greeting, ClientHandshake(methods, command, reserved, a, port) + payload) ==
            (Ended(if command == 1 then Target(a, port) else CommandUnsupported), payload)
  {
    Regroup(Hello(methods), [5, command, reserved], AddressBytes(a), PortBytes(port), payload);
    HelloIsRead(methods, [5, command, reserved] + AddressBytes(a) + (PortBytes(port) + payload));
    AddressIsRead(command, reserved, a, PortBytes(port) + payload);
    PortIsRead(command, a, port, payload);
  }

  lemma Regroup(a: seq<Byte>, b: seq<Byte>, c: seq<Byte>, d: seq<Byte>, e: seq<Byte>)
    ensures a + b + c + d + e == a + (b + c + (d + e))
  {
  }

  lemma PrefixWaits(s: State, bytes: seq<Byte>, rest: seq<Byte>)
    requires rest != [] && Decoded(s, bytes + rest).1 == []
    ensures !Decoded(s, bytes).0.Ended?
  {
    DecodedInTwo(s, bytes, rest);
  }

  /** A handshake cut short is waited for: no prefix of it is taken for the whole. */
  lemma NoPrefixIsEnough(methods: seq<Byte>, command: Byte, reserved: Byte, a: Address, port: nat, n: nat)
    requires |methods| < 256 && 0 in methods && ValidAddress(a) && port < 0x10000
    requires n < |ClientHandshake(methods, command, reserved, a, port)|
    ensures !Decoded(Greeting, ClientHandshake(methods, command, reserved, a, port)[..n]).0.Ended?
  {
    var all := ClientHandshake(methods, command, reserved, a, port);
    HandshakeRoundTrip(methods, command, reserved, a, port, []);
    assert all + [] == all && all[..n] + all[n..] == all;
    PrefixWaits(Greeting, all[..n], all[n..]);
  }

  // ----- The host name the destination is checked and connected by

  function HostText(a: Address): string
    requires ValidAddress(a)
  {
    match a
    case Ipv4(b) => DottedText(Quad(b[0], b[1], b[2], b[3]))
    case Name(b) => NameText(b)
    case Ipv6(b) => CanonicalText(b)
  }

  /** Lower case over the first 256 characters. */
  function LatinLower(b: Byte): char {
    if (65 <= b <= 90) || (192 <= b <= 222 && b != 215) then (b as int + 32) as char else (b as int) as char
  }

  function NameText(b: seq<Byte>): (s: string)
    ensures |s| == |b| && forall i | 0 <= i < |b| :: s[i] == LatinLower(b[i])
  {
    seq(|b|, i requires 0 <= i < |b| => LatinLower(b[i]))
  }

  predicate IsUpper(b: Byte) {
    (65 <= b <= 90) || (192 <= b <= 214) || (216 <= b <= 222)
  }

  /**
   * The host name of a name is its bytes as characters, one for each, in lower case: a capital letter of the first
   * 256 characters becomes the small one, and every other byte stays.
   */
  lemma NameIsReadInLowerCase(a: Address, i: nat)
    requires ValidAddress(a) && a.Name? && i < |a.bytes|
    ensures |HostText(a)| == |a.bytes|
    ensures HostText(a)[i] as int == if IsUpper(a.bytes[i]) then a.bytes[i] as int + 32 else a.bytes[i] as int
    ensures 'a' <= HostText(a)[i] <= 'z' <==> 97 <= a.bytes[i] <= 122 || 65 <= a.bytes[i] <= 90
    ensures !(HostText(a)[i] as int < 256 && IsUpper(HostText(a)[i] as int as Byte))
  {
  }

  /** Names that differ in case alone name the same host. */
  lemma CaseDoesNotMatter(a: Address, b: Address)
    requires ValidAddress(a) && ValidAddress(b) && a.Name? && b.Name?
    ensures HostText(a) == HostText(b) <==>
            && |a.bytes| == |b.bytes|
            && forall i | 0 <= i < |a.bytes| ::
                 || a.bytes[i] == b.bytes[i]
                 || (IsUpper(a.bytes[i]) && b.bytes[i] as int == a.bytes[i] as int + 32)
                 || (IsUpper(b.bytes[i]) && a.bytes[i] as int == b.bytes[i] as int + 32)
  {
    if HostText(a) == HostText(b) {
      forall i | 0 <= i < |a.bytes|
        ensures || a.bytes[i] == b.bytes[i]
                || (IsUpper(a.bytes[i]) && b.bytes[i] as int == a.bytes[i] as int + 32)
                || (IsUpper(b.bytes[i]) && a.bytes[i] as int == b.bytes[i] as int + 32)
      {
        NameIsReadInLowerCase(a, i);
        NameIsReadInLowerCase(b, i);
      }
    }
  }

  /** Reading the host name back gives the address the client sent. */
  lemma HostTextIsReadBack(a: Address)
    requires ValidAddress(a)
    ensures a.Ipv6? ==> Ipv6Bytes(HostText(a)) == Some(a.bytes)
    ensures a.Ipv4? ==> DottedTail(HostText(a)) == Some(Tail("", a.bytes[0], a.bytes[1], a.bytes[2], a.bytes[3]))
  {
    match a
    case Ipv6(b) => CanonicalRoundTrip(b);
    case Ipv4(b) =>
      var q := Quad(b[0], b[1], b[2], b[3]);
      DottedTextReads("", q);
      assert "" + DottedText(q) == DottedText(q);
    case Name(_) =>
  }
}
