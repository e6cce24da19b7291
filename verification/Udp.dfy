/** UDP datagrams, nested in IPv4 packets in Ethernet frames. */
module Udp {
  import opened Bytes
  import opened Checksum
  import opened Ethernet
  import Ipv4

  datatype Header = Header(sourcePort: u16, destinationPort: u16, length: u16, checksum: u16)

  function ToBytes(h: Header): (s: seq<byte>)
    ensures |s| == 8
  {
    Be16(h.sourcePort) + Be16(h.destinationPort) + Be16(h.length) + Be16(h.checksum)
  }

  function FromBytes(s: seq<byte>): Outcome<Header> {
    if |s| < 8 then Err
    else Ok(Header(FromBe16(s[0..2]), FromBe16(s[2..4]), FromBe16(s[4..6]), FromBe16(s[6..8])))
  }

  /** The header and the payload of a received frame, through all layers. */
  function ParseHeader(f: Buffer): Outcome<Header>
    requires |f.data| == BUFFER_SIZE
  {
    match Content(f)
    case Ok(content) =>
      (match Ipv4.ParsePayload(content)
       case Ok(datagram) => (if |datagram| < 8 then Panic else FromBytes(datagram[0..8]))
       case _ => Panic)
    case _ => Panic
  }

  function ParsePayload(f: Buffer): Outcome<seq<byte>>
    requires |f.data| == BUFFER_SIZE
  {
    match Content(f)
    case Ok(content) =>
      (match Ipv4.ParsePayload(content)
       case Ok(datagram) => (if |datagram| < 8 then Panic else Ok(datagram[8..]))
       case _ => Panic)
    case _ => Panic
  }

  function UdpPayload(sourcePort: u16, destinationPort: u16, p: Payload, size: nat): Payload {
    Payload(ToBytes(Header(sourcePort, destinationPort, (8 + size) % 0x1_0000, 0)) + p.bytes,
            match p.size case Ok(n) => (if n == size then Ok(8 + size) else Panic) case Err => Err case Panic => Panic)
  }

  /** The closure on the zeroed slice it is given: header, then payload. */
  method WriteDatagram(payload: array<byte>, sourcePort: u16, destinationPort: u16, p: Payload, size: nat) returns (r: Outcome<nat>)
    requires payload.Length == 1466 && payload[..] == Zeros(1466)
    modifies payload
    ensures var spec := UdpPayload(sourcePort, destinationPort, p, size);
            if |spec.bytes| > 1466 then r == Panic else r == spec.size && payload[..] == spec.bytes + Zeros(1466 - |spec.bytes|)
  {
    var header := ToBytes(Header(sourcePort, destinationPort, (8 + size) % 0x1_0000, 0));
    assert payload[..] == [] + Zeros(1466);
    Append(payload, [], 0, header);
    assert [] + header == header;
    if |p.bytes| > 1458 { return Panic; }
    Append(payload, header, 8, p.bytes);
    match p.size {
      case Panic => r := Panic;
      case Err => r := Err;
      case Ok(n) => r := if n == size then Ok(8 + size) else Panic;
    }
  }

  function Datagram(build: Build, sourcePort: u16, destinationPort: u16, ip: Ipv4.Builder, p: Payload, size: nat): Outcome<Buffer> {
    Ipv4.Packet(build, ip, UdpPayload(sourcePort, destinationPort, p, size), 8 + size)
  }

  lemma HeaderRoundTrip(h: Header, rest: seq<byte>)
    ensures FromBytes(ToBytes(h) + rest) == Ok(h)
  {
    var s := ToBytes(h) + rest;
    assert s[0..2] == Be16(h.sourcePort) && s[2..4] == Be16(h.destinationPort);
    assert s[4..6] == Be16(h.length) && s[6..8] == Be16(h.checksum);
  }

  /** A built datagram parses back through Ethernet, IPv4 and UDP. `p.bytes` is what the
      closure wrote and `size` what it declared. */
  lemma DatagramParses(build: Build, sourcePort: u16, destinationPort: u16, ip: Ipv4.Builder, p: Payload, size: nat, f: Buffer)
    requires Datagram(build, sourcePort, destinationPort, ip, p, size) == Ok(f)
    ensures DestinationMac(f) == ip.destinationMac && SourceMac(f) == ip.sourceMac && Type(f) == EthType.Ipv4
    ensures Content(f).Ok? && Ipv4.ParseHeader(Content(f).value).Ok?
    ensures Ipv4.SameFields(Ipv4.ParseHeader(Content(f).value).value, ip, 8 + size)
    ensures ParseHeader(f) == Ok(Header(sourcePort, destinationPort, 8 + size, 0))
    ensures |p.bytes| <= 1458 && ParsePayload(f) == Ok((p.bytes + Zeros(1458 - |p.bytes|))[..Max(size, 18)])
  {
    var inner := UdpPayload(sourcePort, destinationPort, p, size);
    Ipv4.PacketRoundTrip(build, ip, inner, 8 + size, f);
    ContentParses(sourcePort, destinationPort, p, size, f);
  }

  lemma ContentParses(sourcePort: u16, destinationPort: u16, p: Payload, size: nat, f: Buffer)
    requires |f.data| == BUFFER_SIZE && Content(f).Ok? && |p.bytes| <= 1458 && size <= 1458
    requires var bytes := UdpPayload(sourcePort, destinationPort, p, size).bytes;
             Ipv4.ParsePayload(Content(f).value) == Ok((bytes + Zeros(1466 - |bytes|))[..Max(8 + size, 26)])
    ensures ParseHeader(f) == Ok(Header(sourcePort, destinationPort, 8 + size, 0))
    ensures ParsePayload(f) == Ok((p.bytes + Zeros(1458 - |p.bytes|))[..Max(size, 18)])
  {
    FitsWord(8 + size);
    SplitDatagram(Header(sourcePort, destinationPort, 8 + size, 0), p.bytes, size, Ipv4.ParsePayload(Content(f).value).value);
  }

  lemma SplitDatagram(h: Header, bytes: seq<byte>, size: nat, datagram: seq<byte>)
    requires |bytes| <= 1458 && size <= 1458
    requires datagram == (ToBytes(h) + bytes + Zeros(1466 - |ToBytes(h) + bytes|))[..Max(8 + size, 26)]
    ensures |datagram| >= 8 && FromBytes(datagram[0..8]) == Ok(h)
    ensures datagram[8..] == (bytes + Zeros(1458 - |bytes|))[..Max(size, 18)]
  {
    var body := bytes + Zeros(1458 - |bytes|);
    assert ToBytes(h) + bytes + Zeros(1466 - |ToBytes(h) + bytes|) == ToBytes(h) + body;
    assert datagram == ToBytes(h) + body[..Max(size, 18)];
    assert datagram[0..8] == ToBytes(h) + [];
    HeaderRoundTrip(h, []);
  }

  /** What a receiver sees of a payload: never less than 18 bytes. */
  function Padded(bytes: seq<byte>): seq<byte> {
    if |bytes| < 18 then bytes + Zeros(18 - |bytes|) else bytes
  }

  lemma CutIsPadded(bytes: seq<byte>)
    requires |bytes| <= 1458
    ensures (bytes + Zeros(1458 - |bytes|))[..Max(|bytes|, 18)] == Padded(bytes)
  {}

  /** A frame whose IPv4 header has the fields it was built with. */
  predicate IpFields(f: Buffer, ip: Ipv4.Builder, size: nat)
    requires |f.data| == BUFFER_SIZE
  {
    Content(f).Ok? && Ipv4.ParseHeader(Content(f).value).Ok? && Ipv4.SameFields(Ipv4.ParseHeader(Content(f).value).value, ip, size)
  }

  lemma NestedParses(build: Build, sourcePort: u16, destinationPort: u16, ip: Ipv4.Builder, bytes: seq<byte>, f: Buffer)
    requires Datagram(build, sourcePort, destinationPort, ip, Payload(bytes, Ok(|bytes|)), |bytes|) == Ok(f) && |bytes| <= 1458
    ensures DestinationMac(f) == ip.destinationMac && SourceMac(f) == ip.sourceMac && IpFields(f, ip, 8 + |bytes|)
    ensures ParseHeader(f) == Ok(Header(sourcePort, destinationPort, 8 + |bytes|, 0)) && ParsePayload(f) == Ok(Padded(bytes))
  {
    DatagramParses(build, sourcePort, destinationPort, ip, Payload(bytes, Ok(|bytes|)), |bytes|, f);
    CutIsPadded(bytes);
  }

  /** Nested round trip, for all ports, addresses and payloads: a datagram can be built exactly
      if the payload is at most 1458 bytes and, in a checked build, the header sum has a single
      carry; and then parsing it returns the addresses of both layers, the protocol, the ports and
      the payload, padded with zeros to 18 bytes. */
  lemma NestedRoundTrip(build: Build, sourcePort: u16, destinationPort: u16, ip: Ipv4.Builder, bytes: seq<byte>)
    ensures var r := Datagram(build, sourcePort, destinationPort, ip, Payload(bytes, Ok(|bytes|)), |bytes|);
            && (r.Ok? <==> |bytes| <= 1458
                           && (build.Wrapping? || SingleCarry(Ipv4.HeaderSum(Ipv4.BuiltHeader(ip, 8 + |bytes|)))))
            && (r.Ok? ==>
                  && DestinationMac(r.value) == ip.destinationMac && SourceMac(r.value) == ip.sourceMac
                  && IpFields(r.value, ip, 8 + |bytes|)
                  && ParseHeader(r.value) == Ok(Header(sourcePort, destinationPort, 8 + |bytes|, 0))
                  && ParsePayload(r.value) == Ok(Padded(bytes)))
  {
    var p := Payload(bytes, Ok(|bytes|));
    Ipv4.PacketBuilt(build, ip, UdpPayload(sourcePort, destinationPort, p, |bytes|), 8 + |bytes|);
    var r := Datagram(build, sourcePort, destinationPort, ip, p, |bytes|);
    if r.Ok? { NestedParses(build, sourcePort, destinationPort, ip, bytes, r.value); }
  }

  /** A payload of at least 18 bytes is received as it was declared: the first `size` bytes. */
  lemma DatagramExact(build: Build, sourcePort: u16, destinationPort: u16, ip: Ipv4.Builder, bytes: seq<byte>, size: nat, f: Buffer)
    requires Datagram(build, sourcePort, destinationPort, ip, Payload(bytes, Ok(size)), size) == Ok(f) && 18 <= size <= |bytes|
    ensures DestinationMac(f) == ip.destinationMac && SourceMac(f) == ip.sourceMac
    ensures ParseHeader(f) == Ok(Header(sourcePort, destinationPort, 8 + size, 0)) && ParsePayload(f) == Ok(bytes[..size])
  {
    DatagramParses(build, sourcePort, destinationPort, ip, Payload(bytes, Ok(size)), size, f);
    assert (bytes + Zeros(1458 - |bytes|))[..size] == bytes[..size];
  }

  /** When a datagram can be built. */
  lemma DatagramBuilt(build: Build, sourcePort: u16, destinationPort: u16, ip: Ipv4.Builder, bytes: seq<byte>, size: nat)
    requires |bytes| <= 1458 && size <= 1458
    ensures Datagram(build, sourcePort, destinationPort, ip, Payload(bytes, Ok(size)), size).Ok?
            <==> build.Wrapping? || SingleCarry(Ipv4.HeaderSum(Ipv4.BuiltHeader(ip, 8 + size)))
  {
    Ipv4.PacketBuilt(build, ip, UdpPayload(sourcePort, destinationPort, Payload(bytes, Ok(size)), size), 8 + size);
  }

  /** A datagram on the wire (RFC 768): ports, length and no checksum behind the IPv4 header, and
      then the payload, followed by zeros. */
  ghost predicate OnWire(f: Buffer, sourcePort: u16, destinationPort: u16, ip: Ipv4.Builder, bytes: seq<byte>, size: nat) {
    && |f.data| == 2048 && f.data[0..6] == ip.destinationMac && f.data[6..12] == ip.sourceMac && f.data[12..14] == [0x08, 0x00]
    && f.len == 42 + Max(size, 18) <= 1500 && Ipv4.HeaderAt(f.data, 14, ip, 8 + size)
    && Number(f.data[34..36]) == sourcePort && Number(f.data[36..38]) == destinationPort
    && Number(f.data[38..40]) == 8 + size && f.data[40..42] == [0, 0]
    && forall k: nat :: 42 <= k < f.len ==> f.data[k] == if k - 42 < |bytes| then bytes[k - 42] else 0
  }

  lemma DatagramBytes(build: Build, sourcePort: u16, destinationPort: u16, ip: Ipv4.Builder, p: Payload, size: nat, f: Buffer)
    requires Datagram(build, sourcePort, destinationPort, ip, p, size) == Ok(f)
    ensures OnWire(f, sourcePort, destinationPort, ip, p.bytes, size)
  {
    var inner := UdpPayload(sourcePort, destinationPort, p, size);
    Ipv4.PacketBytes(build, ip, inner, 8 + size, f);
    FitsWord(8 + size);
    DatagramPlaces(Header(sourcePort, destinationPort, 8 + size, 0), p.bytes, f);
  }

  lemma DatagramPlaces(h: Header, bytes: seq<byte>, f: Buffer)
    requires |f.data| == 2048 && 60 <= f.len <= 1500
    requires var all := ToBytes(h) + bytes; forall k: nat :: 34 <= k < f.len ==> f.data[k] == if k - 34 < |all| then all[k - 34] else 0
    ensures Number(f.data[34..36]) == h.sourcePort && Number(f.data[36..38]) == h.destinationPort
    ensures Number(f.data[38..40]) == h.length && f.data[40..42] == Be16(h.checksum)
    ensures forall k: nat :: 42 <= k < f.len ==> f.data[k] == if k - 42 < |bytes| then bytes[k - 42] else 0
  {
    assert f.data[34..36] == Be16(h.sourcePort) && f.data[36..38] == Be16(h.destinationPort);
    assert f.data[38..40] == Be16(h.length) && f.data[40..42] == Be16(h.checksum);
    NumberOfTwo(f.data[34..36]);
    NumberOfTwo(f.data[36..38]);
    NumberOfTwo(f.data[38..40]);
  }
}
