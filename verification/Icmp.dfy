/** ICMP messages, nested in IPv4 packets. */
module Icmp {
  import opened Bytes
  import opened Checksum
  import opened Ethernet
  import Ipv4

  datatype Kind = EchoRequest(identifier: u16, sequence: u16) | EchoReply(identifier: u16, sequence: u16) | Other(raw: seq<byte>)

  function FromBytes(s: seq<byte>): Outcome<Kind> {
    if |s| < 2 then Panic
    else if (s[0], s[1]) == (0, 0) then (if |s| < 8 then Panic else Ok(EchoReply(FromBe16(s[4..6]), FromBe16(s[6..8]))))
    else if (s[0], s[1]) == (8, 0) then (if |s| < 8 then Panic else Ok(EchoRequest(FromBe16(s[4..6]), FromBe16(s[6..8]))))
    else Ok(Other(s[..2]))
  }

  predicate WellFormed(kind: Kind) {
    kind.Other? ==> |kind.raw| == 2
  }

  function TypeBytes(kind: Kind): (s: seq<byte>)
    requires WellFormed(kind)
    ensures |s| == 2
  {
    match kind
    case EchoReply(_, _) => [0, 0]
    case EchoRequest(_, _) => [8, 0]
    case Other(raw) => raw
  }

  function RestBytes(kind: Kind): (s: seq<byte>)
    ensures |s| == 4
  {
    match kind
    case EchoReply(id, sequence) => Be16(id) + Be16(sequence)
    case EchoRequest(id, sequence) => Be16(id) + Be16(sequence)
    case Other(_) => [0, 0, 0, 0]
  }

  const ROOM: nat := 1466

  /** What follows the checksum field in the emitted message: `size` bytes of payload. */
  function Rest(kind: Kind, bytes: seq<byte>, size: nat): seq<byte>
    requires |bytes| + 8 <= ROOM && size + 8 <= ROOM
  {
    RestBytes(kind) + (bytes + Zeros(ROOM - 8 - |bytes|))[..size]
  }

  /** The sum over the words of the message with its checksum field zero. */
  function MessageSum(kind: Kind, bytes: seq<byte>, size: nat): nat
    requires WellFormed(kind) && |bytes| + 8 <= ROOM && size + 8 <= ROOM
  {
    Sum16(TypeBytes(kind) + [0, 0] + Rest(kind, bytes, size))
  }

  /** The closure that writes the message and then patches the checksum. What the inner payload
      closure returns is ignored, unless it panics. The sum ends at the end of the slice, should
      the declared size be larger. */
  function IcmpPayload(build: Build, kind: Kind, p: Payload, size: nat): Payload
    requires WellFormed(kind)
  {
    if p.size.Panic? || |p.bytes| + 8 > ROOM then Payload([], Panic)
    else
      match Complement(build, MessageSum(kind, p.bytes, Min(size, ROOM - 8)))
      case Ok(c) => Payload(TypeBytes(kind) + Be16(c) + RestBytes(kind) + p.bytes, Ok(8 + size))
      case Err => Payload([], Err)
      case Panic => Payload([], Panic)
  }

  /** The closure on the zeroed slice it is given: write the message, sum it up, patch the
      checksum. */
  method WriteMessage(build: Build, payload: array<byte>, kind: Kind, p: Payload, size: nat) returns (r: Outcome<nat>)
    requires WellFormed(kind) && payload.Length == ROOM && payload[..] == Zeros(ROOM)
    modifies payload
    ensures var spec := IcmpPayload(build, kind, p, size);
            r == spec.size && (r.Ok? ==> |spec.bytes| <= ROOM && payload[..] == spec.bytes + Zeros(ROOM - |spec.bytes|))
  {
    if p.size.Panic? || |p.bytes| + 8 > ROOM { return Panic; }
    WriteUnchecked(payload, kind, p.bytes);
    var summed := Min(size, ROOM - 8);
    WrittenSum(kind, p.bytes, summed, payload[..]);
    var c := Complement(build, Sum16(payload[..8 + summed]));
    if !c.Ok? { return match c case Err => Err case _ => Panic; }
    Patch(payload, kind, p.bytes, c.value);
    return Ok(8 + size);
  }

  /** The message with its checksum field zero. */
  method WriteUnchecked(payload: array<byte>, kind: Kind, bytes: seq<byte>)
    requires WellFormed(kind) && payload.Length == ROOM && payload[..] == Zeros(ROOM) && |bytes| + 8 <= ROOM
    modifies payload
    ensures payload[..] == TypeBytes(kind) + [0, 0] + RestBytes(kind) + bytes + Zeros(ROOM - 8 - |bytes|)
  {
    assert payload[..] == [] + Zeros(ROOM);
    Append(payload, [], 0, TypeBytes(kind));
    assert [] + TypeBytes(kind) == TypeBytes(kind);
    Append(payload, TypeBytes(kind), 2, [0, 0]);
    Append(payload, TypeBytes(kind) + [0, 0], 4, RestBytes(kind));
    Append(payload, TypeBytes(kind) + [0, 0] + RestBytes(kind), 8, bytes);
  }

  method Patch(payload: array<byte>, kind: Kind, ghost bytes: seq<byte>, c: u16)
    requires WellFormed(kind) && payload.Length == ROOM && |bytes| + 8 <= ROOM
    requires payload[..] == TypeBytes(kind) + [0, 0] + RestBytes(kind) + bytes + Zeros(ROOM - 8 - |bytes|)
    modifies payload
    ensures payload[..] == TypeBytes(kind) + Be16(c) + RestBytes(kind) + bytes + Zeros(ROOM - 8 - |bytes|)
  {
    CopyInto(payload, 2, Be16(c));
    PatchedBytes(kind, bytes, c);
  }

  lemma WrittenSum(kind: Kind, bytes: seq<byte>, size: nat, written: seq<byte>)
    requires WellFormed(kind) && |bytes| + 8 <= ROOM && size + 8 <= ROOM
    requires written == TypeBytes(kind) + [0, 0] + RestBytes(kind) + bytes + Zeros(ROOM - 8 - |bytes|)
    ensures written[..8 + size] == TypeBytes(kind) + [0, 0] + Rest(kind, bytes, size)
    ensures Sum16(written[..8 + size]) == MessageSum(kind, bytes, size)
  {
    var head, body := TypeBytes(kind) + [0, 0] + RestBytes(kind), bytes + Zeros(ROOM - 8 - |bytes|);
    assert written == head + body;
    assert TypeBytes(kind) + [0, 0] + Rest(kind, bytes, size) == head + body[..size];
  }

  lemma PatchedBytes(kind: Kind, bytes: seq<byte>, c: u16)
    requires WellFormed(kind) && |bytes| + 8 <= ROOM
    ensures var before := TypeBytes(kind) + [0, 0] + RestBytes(kind) + bytes + Zeros(ROOM - 8 - |bytes|);
            before[..2] + Be16(c) + before[4..] == TypeBytes(kind) + Be16(c) + RestBytes(kind) + bytes + Zeros(ROOM - 8 - |bytes|)
  {}

  function Message(build: Build, kind: Kind, ip: Ipv4.Builder, p: Payload, size: nat): Outcome<Buffer>
    requires WellFormed(kind)
  {
    Ipv4.Packet(build, ip, IcmpPayload(build, kind, p, size), 8 + size)
  }

  /** The message a receiver gets in a frame that was built: the first 8 + size bytes. */
  lemma MessageParses(build: Build, kind: Kind, ip: Ipv4.Builder, p: Payload, size: nat, f: Buffer, c: u16)
    requires WellFormed(kind) && Message(build, kind, ip, p, size) == Ok(f) && |p.bytes| + 8 <= ROOM && size + 8 <= ROOM
    requires Complement(build, MessageSum(kind, p.bytes, size)) == Ok(c)
    ensures Content(f).Ok?
    ensures var r := Ipv4.ParsePayload(Content(f).value);
            r.Ok? && 8 + size <= |r.value| && r.value[..8 + size] == TypeBytes(kind) + Be16(c) + Rest(kind, p.bytes, size)
  {
    var inner := Payload(TypeBytes(kind) + Be16(c) + RestBytes(kind) + p.bytes, Ok(8 + size));
    WrittenPayload(build, kind, ip, p, size, c);
    Ipv4.PayloadRoundTrip(build, ip, inner, 8 + size, f);
    SplitMessage(kind, c, p.bytes, size, Ipv4.ParsePayload(Content(f).value).value);
  }

  lemma WrittenPayload(build: Build, kind: Kind, ip: Ipv4.Builder, p: Payload, size: nat, c: u16)
    requires WellFormed(kind) && Message(build, kind, ip, p, size).Ok? && |p.bytes| + 8 <= ROOM && size + 8 <= ROOM
    requires Complement(build, MessageSum(kind, p.bytes, size)) == Ok(c)
    ensures IcmpPayload(build, kind, p, size) == Payload(TypeBytes(kind) + Be16(c) + RestBytes(kind) + p.bytes, Ok(8 + size))
  {
    assert !p.size.Panic?;
  }

  lemma SplitMessage(kind: Kind, c: u16, bytes: seq<byte>, size: nat, r: seq<byte>)
    requires WellFormed(kind) && |bytes| + 8 <= ROOM && size + 8 <= ROOM
    requires var all := TypeBytes(kind) + Be16(c) + RestBytes(kind) + bytes; r == (all + Zeros(ROOM - |all|))[..Max(8 + size, 26)]
    ensures r[..8 + size] == TypeBytes(kind) + Be16(c) + Rest(kind, bytes, size)
  {
    var head, body := TypeBytes(kind) + Be16(c) + RestBytes(kind), bytes + Zeros(ROOM - 8 - |bytes|);
    assert head + bytes + Zeros(ROOM - |head + bytes|) == head + body;
    assert TypeBytes(kind) + Be16(c) + Rest(kind, bytes, size) == head + body[..size];
  }

  lemma TypeRoundTrip(kind: Kind, c: u16, s: seq<byte>, tail: seq<byte>)
    requires WellFormed(kind) && s == TypeBytes(kind) + Be16(c) + RestBytes(kind) + tail
    ensures FromBytes(s).Ok?
    ensures FromBytes(s).value == kind <==> !(kind.Other? && (kind.raw == [0, 0] || kind.raw == [8, 0]))
  {
    assert s[..2] == TypeBytes(kind) && s[4..6] == RestBytes(kind)[..2] && s[6..8] == RestBytes(kind)[2..];
    if kind.Other? { assert s[0] == kind.raw[0] && s[1] == kind.raw[1]; }
  }

  /** The message fits and, in a checked build, neither checksum needs a second carry. */
  predicate Buildable(build: Build, kind: Kind, ip: Ipv4.Builder, p: Payload, size: nat)
    requires WellFormed(kind)
  {
    && !p.size.Panic? && |p.bytes| <= 1458 && size <= 1458
    && (build.Checked? ==> SingleCarry(MessageSum(kind, p.bytes, size)) && SingleCarry(Ipv4.HeaderSum(Ipv4.BuiltHeader(ip, 8 + size))))
  }

  /** For every message, payload and declared size: it can be built exactly if it fits and, in
      a checked build, neither checksum needs a second carry. */
  lemma MessageBuilt(build: Build, kind: Kind, ip: Ipv4.Builder, p: Payload, size: nat)
    requires WellFormed(kind)
    ensures Message(build, kind, ip, p, size).Ok? <==> Buildable(build, kind, ip, p, size)
  {
    if !p.size.Panic? && |p.bytes| <= 1458 {
      if size <= 1458 { FittingBuilt(build, kind, ip, p, size); } else { OversizedPanics(build, kind, ip, p, size); }
    }
  }

  lemma FittingBuilt(build: Build, kind: Kind, ip: Ipv4.Builder, p: Payload, size: nat)
    requires WellFormed(kind) && !p.size.Panic? && |p.bytes| <= 1458 && size <= 1458
    ensures Message(build, kind, ip, p, size).Ok? <==> Buildable(build, kind, ip, p, size)
  {
    ComplementPanics(build, MessageSum(kind, p.bytes, size));
    if Complement(build, MessageSum(kind, p.bytes, size)).Ok? {
      Ipv4.PacketBuilt(build, ip, IcmpPayload(build, kind, p, size), 8 + size);
    }
  }

  /** A declared size beyond the frame panics at the latest when the frame is cut to length. */
  lemma OversizedPanics(build: Build, kind: Kind, ip: Ipv4.Builder, p: Payload, size: nat)
    requires WellFormed(kind) && !p.size.Panic? && |p.bytes| <= 1458 && size > 1458
    ensures !Message(build, kind, ip, p, size).Ok?
  {
    ComplementPanics(build, MessageSum(kind, p.bytes, ROOM - 8));
    if Complement(build, MessageSum(kind, p.bytes, ROOM - 8)).Ok? {
      Ipv4.PacketBuilt(build, ip, IcmpPayload(build, kind, p, size), 8 + size);
    }
  }

  /** A message that was built verifies if and only if its sum has a single carry and it has
      even size or a zero last byte. Its type, identifier and sequence number are decoded as
      they were set, unless an unknown type was set to the code of an echo. */
  lemma MessageExactly(build: Build, kind: Kind, ip: Ipv4.Builder, p: Payload, size: nat, f: Buffer)
    requires WellFormed(kind) && Message(build, kind, ip, p, size) == Ok(f)
    ensures Content(f).Ok? && |p.bytes| + 8 <= ROOM && size + 8 <= ROOM
    ensures var m := Ipv4.ParsePayload(Content(f).value);
            && m.Ok? && 8 + size <= |m.value|
            && (Verifies(m.value[..8 + size]) <==> SingleCarry(MessageSum(kind, p.bytes, size)) && Tail(Rest(kind, p.bytes, size)) == 0)
            && FromBytes(m.value).Ok?
            && (FromBytes(m.value).value == kind <==> !(kind.Other? && (kind.raw == [0, 0] || kind.raw == [8, 0])))
  {
    MessageBuilt(build, kind, ip, p, size);
    ComplementPanics(build, MessageSum(kind, p.bytes, size));
    var c := Complement(build, MessageSum(kind, p.bytes, size)).value;
    MessageParses(build, kind, ip, p, size, f, c);
    var m := Ipv4.ParsePayload(Content(f).value).value;
    PatchedVerifies(build, TypeBytes(kind), Rest(kind, p.bytes, size), c);
    PrefixDecodes(kind, c, m, 8 + size, Rest(kind, p.bytes, size));
  }

  lemma PrefixDecodes(kind: Kind, c: u16, m: seq<byte>, n: nat, rest: seq<byte>)
    requires WellFormed(kind) && 8 <= n <= |m| && m[..n] == TypeBytes(kind) + Be16(c) + rest && |rest| >= 4 && rest[..4] == RestBytes(kind)
    ensures FromBytes(m).Ok?
    ensures FromBytes(m).value == kind <==> !(kind.Other? && (kind.raw == [0, 0] || kind.raw == [8, 0]))
  {
    assert m[..8] == m[..n][..8] == TypeBytes(kind) + Be16(c) + rest[..4];
    assert m == TypeBytes(kind) + Be16(c) + RestBytes(kind) + m[8..];
    TypeRoundTrip(kind, c, m, m[8..]);
  }

  /** A payload of one nonzero byte is left out of the checksum. */
  lemma OddByteUnverified(ip: Ipv4.Builder, id: u16, sequence: u16) returns (f: Buffer)
    ensures Message(Wrapping, EchoRequest(id, sequence), ip, Payload([1], Ok(1)), 1) == Ok(f)
    ensures Content(f).Ok?
    ensures var m := Ipv4.ParsePayload(Content(f).value); m.Ok? && 9 <= |m.value| && !Verifies(m.value[..9])
  {
    MessageBuilt(Wrapping, EchoRequest(id, sequence), ip, Payload([1], Ok(1)), 1);
    f := Message(Wrapping, EchoRequest(id, sequence), ip, Payload([1], Ok(1)), 1).value;
    MessageExactly(Wrapping, EchoRequest(id, sequence), ip, Payload([1], Ok(1)), 1, f);
    var rest := Rest(EchoRequest(id, sequence), [1], 1);
    assert rest[|rest| - 1] == 1;
  }

  /** An echo message on the wire (RFC 792): type 8 for a request and 0 for a reply, code 0,
      identifier and sequence number behind the IPv4 header. */
  lemma EchoBytes(build: Build, kind: Kind, ip: Ipv4.Builder, p: Payload, size: nat, f: Buffer)
    requires !kind.Other? && Message(build, kind, ip, p, size) == Ok(f)
    ensures |f.data| == 2048 && f.data[0..6] == ip.destinationMac && f.data[6..12] == ip.sourceMac && f.data[12..14] == [0x08, 0x00]
    ensures f.len == 42 + Max(size, 18) && Ipv4.HeaderAt(f.data, 14, ip, 8 + size)
    ensures f.data[34] == (if kind.EchoRequest? then 8 else 0) && f.data[35] == 0
    ensures Number(f.data[38..40]) == kind.identifier && Number(f.data[40..42]) == kind.sequence
    ensures forall k: nat :: 42 <= k < f.len ==> f.data[k] == if k - 42 < |p.bytes| then p.bytes[k - 42] else 0
  {
    MessageBuilt(build, kind, ip, p, size);
    ComplementPanics(build, MessageSum(kind, p.bytes, size));
    var c := Complement(build, MessageSum(kind, p.bytes, size)).value;
    var inner := Payload(TypeBytes(kind) + Be16(c) + RestBytes(kind) + p.bytes, Ok(8 + size));
    WrittenPayload(build, kind, ip, p, size, c);
    Ipv4.PacketBytes(build, ip, inner, 8 + size, f);
    EchoPlaces(kind, c, p.bytes, f);
  }

  lemma EchoPlaces(kind: Kind, c: u16, bytes: seq<byte>, f: Buffer)
    requires !kind.Other? && |f.data| == 2048 && 60 <= f.len <= 1500
    requires var all := TypeBytes(kind) + Be16(c) + RestBytes(kind) + bytes;
             forall k: nat :: 34 <= k < f.len ==> f.data[k] == if k - 34 < |all| then all[k - 34] else 0
    ensures f.data[34] == (if kind.EchoRequest? then 8 else 0) && f.data[35] == 0
    ensures Number(f.data[38..40]) == kind.identifier && Number(f.data[40..42]) == kind.sequence
    ensures forall k: nat :: 42 <= k < f.len ==> f.data[k] == if k - 42 < |bytes| then bytes[k - 42] else 0
  {
    assert f.data[38..40] == Be16(kind.identifier) && f.data[40..42] == Be16(kind.sequence);
    NumberOfTwo(f.data[38..40]);
    NumberOfTwo(f.data[40..42]);
  }
}
