/** Packet buffers and Ethernet frames. */
module Ethernet {
  import opened Bytes

  const BUFFER_SIZE: nat := 2048
  const FRAME_SIZE: nat := 1500
  const HEADER_SIZE: nat := 14
  const MIN_PAYLOAD: nat := 46

  const BROADCAST: Mac := [0xff, 0xff, 0xff, 0xff, 0xff, 0xff]

  /** A heap block of 2048 bytes and the length of the data it was created from. */
  datatype Buffer = Buffer(data: seq<byte>, len: nat)

  /** What `Buffer::new` stores: as much of the data as fits, zeros after it. */
  function BufferOf(data: seq<byte>): Buffer {
    Buffer(if |data| <= BUFFER_SIZE then data + Zeros(BUFFER_SIZE - |data|) else data[..BUFFER_SIZE], |data|)
  }

  /** The block holds the data up to its 2048th byte, zeros after it, and the full length. */
  ghost predicate Stores(b: Buffer, data: seq<byte>) {
    && |b.data| == 2048 && b.len == |data|
    && forall k: nat :: k < 2048 ==> b.data[k] == if k < |data| then data[k] else 0
  }

  lemma BufferStores(data: seq<byte>)
    ensures Stores(BufferOf(data), data)
  {}

  /** What a receiver reads from the buffer of a frame of at most 2048 bytes. */
  lemma ReceivedContent(b: Buffer, data: seq<byte>)
    requires Stores(b, data) && 14 <= |data| <= 2048
    ensures DestinationMac(b) == data[0..6] && SourceMac(b) == data[6..12] && Type(b) == FromRaw(data[12..14])
    ensures Content(b) == Ok(data[14..])
  {
    assert b.data[0..6] == data[0..6] && b.data[6..12] == data[6..12] && b.data[12..14] == data[12..14];
    assert b.data[14..|data|] == data[14..];
  }

  method NewBuffer(data: seq<byte>) returns (b: Buffer)
    ensures Stores(b, data) && b == BufferOf(data)
  {
    var target := new byte[BUFFER_SIZE](_ => 0);
    var i := 0;
    while i < BUFFER_SIZE && i < |data|
      invariant i <= BUFFER_SIZE && i <= |data|
      invariant target[..i] == data[..i]
      invariant forall k :: i <= k < BUFFER_SIZE ==> target[k] == 0
    {
      target[i] := data[i];
      i := i + 1;
    }
    assert target[..] == target[..i] + target[i..];
    assert target[i..] == Zeros(BUFFER_SIZE - i);
    b := Buffer(target[..], |data|);
  }

  datatype EthType = Ipv4 | Ipv6 | Arp | WakeOnLan | Unknown(raw: seq<byte>)

  function FromRaw(raw: seq<byte>): EthType
    requires |raw| == 2
  {
    if raw == [0x08, 0x00] then Ipv4
    else if raw == [0x08, 0x06] then Arp
    else if raw == [0x08, 0x42] then WakeOnLan
    else if raw == [0x86, 0xdd] then Ipv6
    else Unknown(raw)
  }

  function ToRaw(ty: EthType): seq<byte> {
    match ty
    case Ipv4 => [0x08, 0x00]
    case Arp => [0x08, 0x06]
    case WakeOnLan => [0x08, 0x42]
    case Ipv6 => [0x86, 0xdd]
    case Unknown(raw) => raw
  }

  // The accessors of a received packet. The addresses and the type are read from the whole
  // block, so they never panic, whatever the length; the content ends at the length.

  function DestinationMac(b: Buffer): Mac
    requires |b.data| == BUFFER_SIZE
  {
    b.data[0..6]
  }

  function SourceMac(b: Buffer): Mac
    requires |b.data| == BUFFER_SIZE
  {
    b.data[6..12]
  }

  function Type(b: Buffer): EthType
    requires |b.data| == BUFFER_SIZE
  {
    FromRaw(b.data[12..14])
  }

  function Content(b: Buffer): Outcome<seq<byte>>
    requires |b.data| == BUFFER_SIZE
  {
    if HEADER_SIZE <= b.len <= BUFFER_SIZE then Ok(b.data[HEADER_SIZE..b.len]) else Panic
  }

  /** A payload closure: the bytes it writes at the start of the slice it is given, and the
      size it returns. */
  datatype Payload = Payload(bytes: seq<byte>, size: Outcome<nat>)

  /** The frame a builder produces: header, payload, zeros up to the minimum length. */
  function Frame(destination: Mac, source: Mac, ty: EthType, p: Payload): (r: Outcome<Buffer>)
    requires |ToRaw(ty)| == 2
    ensures r.Ok? ==> |r.value.data| == BUFFER_SIZE
  {
    if |p.bytes| > FRAME_SIZE - HEADER_SIZE then Panic
    else
      match p.size
      case Panic => Panic
      case Err => Err
      case Ok(n) =>
        var len := Max(n, MIN_PAYLOAD);
        if len + HEADER_SIZE > FRAME_SIZE then Panic
        else Ok(BufferOf((destination + source + ToRaw(ty) + p.bytes + Zeros(FRAME_SIZE - HEADER_SIZE - |p.bytes|))[..len + HEADER_SIZE]))
  }

  /** Copy s into a at offset `at`. */
  method CopyInto(a: array<byte>, at: nat, s: seq<byte>)
    requires at + |s| <= a.Length
    modifies a
    ensures a[..] == old(a[..])[..at] + s + old(a[..])[at + |s|..]
  {
    var i := 0;
    while i < |s|
      invariant i <= |s|
      invariant a[..] == old(a[..])[..at] + s[..i] + old(a[..])[at + i..]
    {
      a[at + i] := s[i];
      i := i + 1;
    }
  }

  /** Write s behind what has been written so far to a zeroed block. */
  method Append(a: array<byte>, ghost done: seq<byte>, at: nat, s: seq<byte>)
    requires |done| == at && at + |s| <= a.Length && a[..] == done + Zeros(a.Length - at)
    modifies a
    ensures a[..] == done + s + Zeros(a.Length - at - |s|)
  {
    CopyInto(a, at, s);
  }

  /** Write s behind the prefix written so far, whatever follows it. */
  method Extend(a: array<byte>, ghost done: seq<byte>, at: nat, s: seq<byte>)
    requires |done| == at && at + |s| <= a.Length && a[..at] == done
    modifies a
    ensures a[..at + |s|] == done + s && forall k: nat :: at + |s| <= k < a.Length ==> a[k] == old(a[k])
  {
    CopyInto(a, at, s);
  }

  /** `PacketBuilder::finish`: fill a zeroed block in place and cut it to length. */
  method Finish(destination: Mac, source: Mac, ty: EthType, p: Payload) returns (r: Outcome<Buffer>)
    requires |ToRaw(ty)| == 2
    ensures r == Frame(destination, source, ty, p)
  {
    var content := new byte[FRAME_SIZE](_ => 0);
    assert content[..] == [] + Zeros(FRAME_SIZE);
    Append(content, [], 0, destination);
    Append(content, [] + destination, 6, source);
    Append(content, [] + destination + source, 12, ToRaw(ty));
    if |p.bytes| > FRAME_SIZE - HEADER_SIZE { return Panic; }
    Append(content, [] + destination + source + ToRaw(ty), HEADER_SIZE, p.bytes);
    assert [] + destination == destination;
    match p.size {
      case Panic => r := Panic;
      case Err => r := Err;
      case Ok(n) =>
        var len := Max(n, MIN_PAYLOAD);
        if len + HEADER_SIZE > FRAME_SIZE { return Panic; }
        var buffer := NewBuffer(content[..len + HEADER_SIZE]);
        r := Ok(buffer);
    }
  }

  /** A built frame has the addresses and type it was given, and its content is the payload cut
      to the declared size, or padded with zeros to 46 bytes. */
  lemma FrameRoundTrip(destination: Mac, source: Mac, ty: EthType, p: Payload, b: Buffer)
    requires |ToRaw(ty)| == 2 && Frame(destination, source, ty, p) == Ok(b)
    ensures DestinationMac(b) == destination && SourceMac(b) == source && Type(b) == FromRaw(ToRaw(ty))
    ensures Content(b) == Ok((p.bytes + Zeros(FRAME_SIZE - HEADER_SIZE - |p.bytes|))[..Max(p.size.value, MIN_PAYLOAD)])
  {
    var header := destination + source + ToRaw(ty);
    var body := p.bytes + Zeros(FRAME_SIZE - HEADER_SIZE - |p.bytes|);
    var len := Max(p.size.value, MIN_PAYLOAD);
    var all := destination + source + ToRaw(ty) + p.bytes + Zeros(FRAME_SIZE - HEADER_SIZE - |p.bytes|);
    assert all == header + body;
    assert all[..len + HEADER_SIZE] == header + body[..len];
    assert b.data == header + body[..len] + Zeros(BUFFER_SIZE - len - HEADER_SIZE);
    assert b.data[0..6] == destination && b.data[6..12] == source && b.data[12..14] == ToRaw(ty);
    assert b.data[HEADER_SIZE..b.len] == body[..len];
  }

  /** The assigned type numbers. */
  lemma TypesAreAssigned(raw: seq<byte>)
    requires |raw| == 2
    ensures FromRaw(raw) == Ipv4 <==> raw == [0x08, 0x00]
    ensures FromRaw(raw) == Arp <==> raw == [0x08, 0x06]
    ensures FromRaw(raw) == WakeOnLan <==> raw == [0x08, 0x42]
    ensures FromRaw(raw) == Ipv6 <==> raw == [0x86, 0xdd]
    ensures ToRaw(FromRaw(raw)) == raw
  {}

  /** A frame on the wire: both addresses, the type, the payload, zeros up to 60 bytes. */
  lemma FrameBytes(destination: Mac, source: Mac, ty: EthType, p: Payload, b: Buffer)
    requires |ToRaw(ty)| == 2 && Frame(destination, source, ty, p) == Ok(b)
    ensures |b.data| == 2048 && b.data[0..6] == destination && b.data[6..12] == source && b.data[12..14] == ToRaw(ty)
    ensures p.size.Ok? && b.len == 14 + Max(p.size.value, 46) <= 1500
    ensures forall k: nat :: 14 <= k < b.len ==> b.data[k] == if k - 14 < |p.bytes| then p.bytes[k - 14] else 0
  {
    FrameRoundTrip(destination, source, ty, p, b);
    var body := p.bytes + Zeros(FRAME_SIZE - HEADER_SIZE - |p.bytes|);
    assert b.data[12..14] == ToRaw(ty) by { assert b.data[..14] == destination + source + ToRaw(ty); }
    forall k: nat | 14 <= k < b.len ensures b.data[k] == if k - 14 < |p.bytes| then p.bytes[k - 14] else 0 {
      assert b.data[k] == Content(b).value[k - 14] == body[k - 14];
    }
  }

  /** How building a frame ends. */
  lemma FrameOutcome(destination: Mac, source: Mac, ty: EthType, p: Payload)
    requires |ToRaw(ty)| == 2
    ensures var r := Frame(destination, source, ty, p);
            && (r.Ok? <==> |p.bytes| <= 1486 && p.size.Ok? && p.size.value <= 1486)
            && (r.Err? <==> |p.bytes| <= 1486 && p.size.Err?)
  {}
}
