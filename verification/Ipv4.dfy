/** IPv4 headers and packets. */
module Ipv4 {
  import opened Bytes
  import opened Checksum
  import opened Ethernet

  datatype Protocol = Icmp | Udp | Tcp | Other(raw: byte)

  function ToByte(p: Protocol): byte {
    match p
    case Icmp => 1
    case Udp => 17
    case Tcp => 6
    case Other(raw) => raw
  }

  function FromByte(raw: byte): Protocol {
    if raw == 1 then Icmp else if raw == 6 then Tcp else if raw == 17 then Udp else Other(raw)
  }

  datatype Header = Header(version: byte, ihl: byte, dscp: byte, ecn: byte, totalLength: u16, identification: u16,
                           flags: byte, fragmentOffset: u16, ttl: byte, protocol: Protocol, checksum: u16,
                           source: Ip, destination: Ip)

  function Or8(a: byte, b: byte): byte {
    ((a as bv8) | (b as bv8)) as int
  }

  /** The first ten bytes of a serialized header, up to the checksum. */
  function Front(h: Header): (s: seq<byte>)
    ensures |s| == 10
  {
    var version: int, dscp: int, flags: int := h.version, h.dscp, h.flags;
    [(version * 16) % 0x100 + h.ihl % 16, (dscp * 2) % 0x100 + h.ecn % 2]
    + Be16(h.totalLength) + Be16(h.identification)
    + [Or8(h.fragmentOffset / 0x100, (flags * 32) % 0x100), h.fragmentOffset % 0x100, h.ttl, ToByte(h.protocol)]
  }

  function ToBytes(h: Header): (s: seq<byte>)
    ensures |s| == 20
  {
    Front(h) + Be16(h.checksum) + (h.source + h.destination)
  }

  /** `to_bytes`: write the header in place. The flags are merged into a byte of the fragment
      offset. */
  method WriteHeader(target: array<byte>, h: Header) returns (ok: bool)
    modifies target
    ensures ok <==> target.Length >= 20
    ensures target[..] == if ok then ToBytes(h) + old(target[..])[20..] else old(target[..])
  {
    if target.Length < 20 { return false; }
    WriteFront(target, h);
    Extend(target, Front(h), 10, Be16(h.checksum));
    Extend(target, Front(h) + Be16(h.checksum), 12, h.source);
    Extend(target, Front(h) + Be16(h.checksum) + h.source, 16, h.destination);
    assert Front(h) + Be16(h.checksum) + h.source + h.destination == ToBytes(h);
    assert target[20..] == old(target[..])[20..];
    assert target[..] == target[..20] + target[20..];
    return true;
  }

  method WriteFront(target: array<byte>, h: Header)
    requires target.Length >= 20
    modifies target
    ensures target[..10] == Front(h) && forall k: nat :: 10 <= k < target.Length ==> target[k] == old(target[k])
  {
    var version: int, dscp: int := h.version, h.dscp;
    target[0] := (version * 16) % 0x100 + h.ihl % 16;
    target[1] := (dscp * 2) % 0x100 + h.ecn % 2;
    ghost var start := target[..2];
    Extend(target, start, 2, Be16(h.totalLength));
    Extend(target, start + Be16(h.totalLength), 4, Be16(h.identification));
    WriteOffset(target, start + Be16(h.totalLength) + Be16(h.identification), h);
  }

  method WriteOffset(target: array<byte>, ghost six: seq<byte>, h: Header)
    requires target.Length >= 20 && |six| == 6 && target[..6] == six
    modifies target
    ensures forall k: nat :: 10 <= k < target.Length ==> target[k] == old(target[k])
    ensures var flags: int := h.flags;
            target[..10] == six + [Or8(h.fragmentOffset / 0x100, (flags * 32) % 0x100), h.fragmentOffset % 0x100, h.ttl, ToByte(h.protocol)]
  {
    var flags: int := h.flags;
    Extend(target, six, 6, Be16(h.fragmentOffset));
    assert target[6] == target[..8][6] == Be16(h.fragmentOffset)[0];
    assert target[7] == target[..8][7] == Be16(h.fragmentOffset)[1];
    target[6] := Or8(target[6], (flags * 32) % 0x100);
    target[8] := h.ttl;
    target[9] := ToByte(h.protocol);
    assert target[..6] == six;
  }

  /** The sum over the header with its checksum field zero. */
  function HeaderSum(h: Header): nat {
    Sum16(Front(h) + [0, 0] + (h.source + h.destination))
  }

  function SetChecksum(build: Build, h: Header): Outcome<Header> {
    match Complement(build, HeaderSum(h))
    case Ok(c) => Ok(h.(checksum := c))
    case Err => Err
    case Panic => Panic
  }

  /** For every header: the sum of the ten words fits in 32 bits, the checksum can be computed
      unless a checked build meets a second carry, and the serialized header verifies if and
      only if there is none. */
  lemma ChecksumExactly(build: Build, h: Header)
    ensures HeaderSum(h) <= 10 * 0xffff
    ensures SetChecksum(build, h).Ok? <==> build.Wrapping? || SingleCarry(HeaderSum(h))
    ensures SetChecksum(build, h).Ok? ==> (Verifies(ToBytes(SetChecksum(build, h).value)) <==> SingleCarry(HeaderSum(h)))
  {
    ComplementPanics(build, HeaderSum(h));
    if SetChecksum(build, h).Ok? {
      var h' := SetChecksum(build, h).value;
      assert Front(h') == Front(h);
      PatchedVerifies(build, Front(h), h.source + h.destination, h'.checksum);
    }
  }

  // ---- Parsing the content of an Ethernet frame ----

  function ParseHeader(content: seq<byte>): Outcome<Header> {
    if content == [] then Panic
    else
      var size := content[0] % 16 * 4;
      if size > |content| || size < 20 then Panic
      else Ok(Header(content[0] / 16, content[0] % 16, content[1] / 4, content[1] % 4,
                     FromBe16(content[2..4]), FromBe16(content[4..6]),
                     content[7] / 32, FromBe16([content[7] % 32, content[8]]), content[8], FromByte(content[9]),
                     FromBe16(content[10..12]), content[12..16], content[16..20]))
  }

  function ParsePayload(content: seq<byte>): Outcome<seq<byte>> {
    if content == [] then Panic
    else
      var size := content[0] % 16 * 4;
      if size > |content| then Panic else Ok(content[size..])
  }

  // ---- Building ----

  datatype Builder = Builder(dscp: byte, identification: u16, ttl: byte, protocol: Protocol,
                             source: Ip, sourceMac: Mac, destination: Ip, destinationMac: Mac)

  function BuiltHeader(b: Builder, size: nat): Header {
    Header(4, 5, b.dscp, 0, (20 + size) % 0x1_0000, b.identification, 0, 0, b.ttl, b.protocol, 0, b.source, b.destination)
  }

  /** The closure that writes header and payload; `size` is what `payload_size` returns. */
  function IpPayload(build: Build, b: Builder, p: Payload, size: nat): Payload {
    match SetChecksum(build, BuiltHeader(b, size))
    case Ok(h) => Payload(ToBytes(h) + p.bytes,
                          match p.size case Ok(n) => (if n == size then Ok(20 + size) else Panic) case Err => Err case Panic => Panic)
    case Err => Payload([], Err)
    case Panic => Payload([], Panic)
  }

  function Packet(build: Build, b: Builder, p: Payload, size: nat): Outcome<Buffer> {
    Frame(b.destinationMac, b.sourceMac, EthType.Ipv4, IpPayload(build, b, p, size))
  }

  /** When a packet can be built from a payload that fits what it declares. */
  lemma PacketBuilt(build: Build, b: Builder, p: Payload, size: nat)
    requires p.size == Ok(size)
    ensures Packet(build, b, p, size).Ok? <==>
              |p.bytes| <= 1466 && size <= 1466 && (build.Wrapping? || SingleCarry(HeaderSum(BuiltHeader(b, size))))
  {
    ChecksumExactly(build, BuiltHeader(b, size));
  }

  /** What a receiver finds in the frame: the serialized header, then the payload cut to the
      declared size or padded to 26 bytes. */
  lemma PacketContent(build: Build, b: Builder, p: Payload, size: nat, f: Buffer)
    requires Packet(build, b, p, size) == Ok(f)
    ensures DestinationMac(f) == b.destinationMac && SourceMac(f) == b.sourceMac && Type(f) == EthType.Ipv4
    ensures |p.bytes| <= 1466 && size <= 1466 && SetChecksum(build, BuiltHeader(b, size)).Ok?
    ensures Content(f) == Ok(ToBytes(SetChecksum(build, BuiltHeader(b, size)).value) + (p.bytes + Zeros(1466 - |p.bytes|))[..Max(size, 26)])
  {
    var h := SetChecksum(build, BuiltHeader(b, size)).value;
    var inner := IpPayload(build, b, p, size);
    FrameRoundTrip(b.destinationMac, b.sourceMac, EthType.Ipv4, inner, f);
    var rest := p.bytes + Zeros(1466 - |p.bytes|);
    assert inner.bytes + Zeros(1486 - |inner.bytes|) == ToBytes(h) + rest;
    assert (ToBytes(h) + rest)[..20 + Max(size, 26)] == ToBytes(h) + rest[..Max(size, 26)];
  }

  /** A built packet parses back: lengths, identification, protocol and addresses are those it
      was built with, and so is the payload. The parser reads the differentiated services and
      fragment fields from other positions than the writer uses, so the former come back only
      if zero and the latter come back as the ttl. */
  lemma PacketRoundTrip(build: Build, b: Builder, p: Payload, size: nat, f: Buffer)
    requires Packet(build, b, p, size) == Ok(f)
    ensures DestinationMac(f) == b.destinationMac && SourceMac(f) == b.sourceMac && Type(f) == EthType.Ipv4
    ensures Content(f).Ok? && |p.bytes| <= 1466 && size <= 1466
    ensures ParsePayload(Content(f).value) == Ok((p.bytes + Zeros(1466 - |p.bytes|))[..Max(size, 26)])
    ensures ParseHeader(Content(f).value).Ok? && SameFields(ParseHeader(Content(f).value).value, b, size)
  {
    PacketContent(build, b, p, size, f);
    BuiltHeaderParses(build, b, size, Content(f).value);
  }

  lemma BuiltHeaderParses(build: Build, b: Builder, size: nat, content: seq<byte>)
    requires size <= 1466 && SetChecksum(build, BuiltHeader(b, size)).Ok?
    requires |content| >= 20 && content[..20] == ToBytes(SetChecksum(build, BuiltHeader(b, size)).value)
    ensures ParseHeader(content).Ok? && SameFields(ParseHeader(content).value, b, size)
    ensures ParsePayload(content) == Ok(content[20..])
  {
    var h := SetChecksum(build, BuiltHeader(b, size)).value;
    HeaderRoundTrip(h, content);
    ReadBackSame(b, size, h);
  }

  lemma ReadBackSame(b: Builder, size: nat, h: Header)
    requires size <= 1466 && h == BuiltHeader(b, size).(checksum := h.checksum)
    ensures h.ihl == 5 && SameFields(ReadBack(h), b, size)
  {
    FitsWord(20 + size);
    assert ReadBack(h).fragmentOffset == b.ttl;
  }

  /** The payload a receiver finds. */
  lemma PayloadRoundTrip(build: Build, b: Builder, p: Payload, size: nat, f: Buffer)
    requires Packet(build, b, p, size) == Ok(f)
    ensures Content(f).Ok? && |p.bytes| <= 1466 && size <= 1466
    ensures ParsePayload(Content(f).value) == Ok((p.bytes + Zeros(1466 - |p.bytes|))[..Max(size, 26)])
  {
    PacketRoundTrip(build, b, p, size, f);
  }

  /** How a parsed header relates to the builder's fields. */
  predicate SameFields(h: Header, b: Builder, size: nat) {
    && h.version == 4 && h.ihl == 5 && h.totalLength == 20 + size && h.identification == b.identification
    && h.ttl == b.ttl && h.protocol == FromByte(ToByte(b.protocol))
    && h.source == b.source && h.destination == b.destination
    && (h.dscp == b.dscp <==> b.dscp == 0)
    && h.flags == 0 && (h.fragmentOffset == 0 <==> b.ttl == 0)
  }

  /** What the parser makes of a header as it was written, for every header. */
  function ReadBack(h: Header): Header {
    var low := h.fragmentOffset % 0x100;
    h.(version := h.version % 16, ihl := h.ihl % 16, dscp := h.dscp % 128 / 2, ecn := h.dscp % 2 * 2 + h.ecn % 2,
       flags := low / 32, fragmentOffset := FromBe16([low % 32, h.ttl]), protocol := FromByte(ToByte(h.protocol)))
  }

  lemma HeaderRoundTrip(h: Header, content: seq<byte>)
    requires |content| >= 20 && content[..20] == ToBytes(h)
    ensures var size := h.ihl % 16 * 4;
            && ParseHeader(content) == (if 20 <= size <= |content| then Ok(ReadBack(h)) else Panic)
            && ParsePayload(content) == (if size <= |content| then Ok(content[size..]) else Panic)
  {
    var s := ToBytes(h);
    forall i: nat | i < 20 ensures content[i] == s[i] {}
    FirstBytes(h, content[0], content[1]);
    assert content[2..4] == Be16(h.totalLength);
    assert content[4..6] == Be16(h.identification);
    assert content[10..12] == Be16(h.checksum);
    assert content[12..16] == h.source;
    assert content[16..20] == h.destination;
  }

  lemma FirstBytes(h: Header, b0: byte, b1: byte)
    requires b0 == Front(h)[0] && b1 == Front(h)[1]
    ensures b0 / 16 == h.version % 16 && b0 % 16 == h.ihl % 16
    ensures b1 / 4 == h.dscp % 128 / 2 && b1 % 4 == h.dscp % 2 * 2 + h.ecn % 2
  {
    Nibbles(h.version, h.ihl);
    ServiceBits(h.dscp, h.ecn);
  }

  lemma Nibbles(high: nat, low: nat)
    requires high < 0x100
    ensures ((high * 16) % 0x100 + low % 16) / 16 == high % 16
    ensures ((high * 16) % 0x100 + low % 16) % 16 == low % 16
  {
    assert (high * 16) % 0x100 == high % 16 * 16;
  }

  lemma ServiceBits(dscp: nat, ecn: nat)
    requires dscp < 0x100
    ensures ((dscp * 2) % 0x100 + ecn % 2) / 4 == dscp % 128 / 2
    ensures ((dscp * 2) % 0x100 + ecn % 2) % 4 == dscp % 2 * 2 + ecn % 2
  {
    assert (dscp * 2) % 0x100 == dscp % 128 * 2;
  }

  lemma SumOfTwo(s: seq<byte>)
    requires |s| == 4
    ensures Sum16(s) == FromBe16(s[..2]) + FromBe16(s[2..])
  {
    assert s[2..][..2] == s[2..];
  }

  /** The ten words of a built header, added up. */
  lemma BuiltHeaderSum(b: Builder, size: nat)
    requires b.dscp == 0 && size < 0x1_0000 - 20
    ensures HeaderSum(BuiltHeader(b, size)) == 0x4500 + 20 + size + b.identification + b.ttl * 0x100 + ToByte(b.protocol)
              + FromBe16(b.source[..2]) + FromBe16(b.source[2..]) + FromBe16(b.destination[..2]) + FromBe16(b.destination[2..])
  {
    var h := BuiltHeader(b, size);
    var first, second, third := [0x45, 0] + Be16(h.totalLength), Be16(h.identification) + [0, 0], [h.ttl, ToByte(h.protocol)] + [0, 0];
    FitsWord(20 + size);
    assert Front(h) + [0, 0] + (h.source + h.destination) == first + (second + (third + (h.source + h.destination)));
    SumConcat(first, second + (third + (h.source + h.destination)));
    SumConcat(second, third + (h.source + h.destination));
    SumConcat(third, h.source + h.destination);
    SumConcat(h.source, h.destination);
    SumOfTwo(first);
    SumOfTwo(second);
    SumOfTwo(third);
    SumOfTwo(h.source);
    SumOfTwo(h.destination);
    assert first[2..] == Be16(h.totalLength) && second[..2] == Be16(h.identification) && second[2..] == [0, 0] && third[2..] == [0, 0];
  }

  // ---- On the wire (section 3.1 of RFC 791) ----

  /** The protocol numbers. */
  lemma ProtocolsAreAssigned(raw: byte)
    ensures FromByte(raw) == Icmp <==> raw == 1
    ensures FromByte(raw) == Tcp <==> raw == 6
    ensures FromByte(raw) == Udp <==> raw == 17
    ensures ToByte(FromByte(raw)) == raw
  {}

  /** The fields of a packet header without options, by their places. */
  ghost predicate HeaderAt(s: seq<byte>, at: nat, b: Builder, size: nat) {
    && at + 20 <= |s|
    && s[at] == 0x45 && Number(s[at + 2..at + 4]) == 20 + size && Number(s[at + 4..at + 6]) == b.identification
    && s[at + 6..at + 8] == [0, 0] && s[at + 8] == b.ttl && s[at + 9] == ToByte(b.protocol)
    && s[at + 12..at + 16] == b.source && s[at + 16..at + 20] == b.destination
  }

  lemma BuiltHeaderBytes(b: Builder, size: nat, h: Header)
    requires size <= 1466 && h == BuiltHeader(b, size).(checksum := h.checksum)
    ensures HeaderAt(ToBytes(h), 0, b, size)
  {
    var s := ToBytes(h);
    FitsWord(20 + size);
    assert s[2..4] == Be16(h.totalLength) && s[4..6] == Be16(h.identification);
    NumberOfTwo(s[2..4]);
    NumberOfTwo(s[4..6]);
    assert s[6] == Or8(0, 0) && s[7] == 0;
    NoFlags();
    assert s[6..8] == [0, 0];
    assert s[12..16] == h.source && s[16..20] == h.destination;
  }

  lemma NoFlags()
    ensures Or8(0, 0) == 0
  {}

  lemma HeaderMoves(s: seq<byte>, at: nat, t: seq<byte>, b: Builder, size: nat)
    requires |s| == 20 && HeaderAt(s, 0, b, size) && at + 20 <= |t| && t[at..at + 20] == s
    ensures HeaderAt(t, at, b, size)
  {
    forall i: nat | i < 20 ensures t[at + i] == s[i] { assert t[at + i] == t[at..at + 20][i]; }
    assert t[at + 2..at + 4] == s[2..4] && t[at + 4..at + 6] == s[4..6] && t[at + 6..at + 8] == s[6..8];
    assert t[at + 12..at + 16] == s[12..16] && t[at + 16..at + 20] == s[16..20];
  }

  /** A packet on the wire: the header behind the Ethernet header, the payload behind it. */
  lemma PacketBytes(build: Build, b: Builder, p: Payload, size: nat, f: Buffer)
    requires Packet(build, b, p, size) == Ok(f)
    ensures |f.data| == 2048 && f.data[0..6] == b.destinationMac && f.data[6..12] == b.sourceMac && f.data[12..14] == [0x08, 0x00]
    ensures f.len == 34 + Max(size, 26) <= 1500 && HeaderAt(f.data, 14, b, size)
    ensures forall k: nat :: 34 <= k < f.len ==> f.data[k] == if k - 34 < |p.bytes| then p.bytes[k - 34] else 0
  {
    PacketContent(build, b, p, size, f);
    var h, inner := SetChecksum(build, BuiltHeader(b, size)).value, IpPayload(build, b, p, size);
    FrameBytes(b.destinationMac, b.sourceMac, EthType.Ipv4, inner, f);
    BuiltHeaderBytes(b, size, h);
    assert f.data[14..34] == ToBytes(h);
    HeaderMoves(ToBytes(h), 14, f.data, b, size);
    forall k: nat | 34 <= k < f.len ensures f.data[k] == if k - 34 < |p.bytes| then p.bytes[k - 34] else 0 {
      assert inner.bytes == ToBytes(h) + p.bytes;
    }
  }

  /** What the parser reads, by places. */
  lemma ParsedByPlaces(content: seq<byte>)
    requires |content| >= 20 && 20 <= content[0] % 16 * 4 <= |content|
    ensures var h := ParseHeader(content);
            && h.Ok? && h.value.totalLength == Number(content[2..4]) && h.value.identification == Number(content[4..6])
            && h.value.ttl == content[8] && ToByte(h.value.protocol) == content[9]
            && h.value.source == content[12..16] && h.value.destination == content[16..20]
    ensures ParsePayload(content) == Ok(content[content[0] % 16 * 4..])
  {
    NumberOfTwo(content[2..4]);
    NumberOfTwo(content[4..6]);
  }
}
