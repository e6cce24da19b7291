/** DHCP messages: the option walk of the parser, and the discover and request messages. */
module Dhcp {
  import opened Bytes
  import opened Checksum
  import opened Ethernet
  import Ipv4
  import Udp

  datatype Operation = Discover | Offer | Request | Ack | Unknown(raw: byte)

  function ToOperation(raw: byte): Operation {
    if raw == 1 then Discover else if raw == 2 then Offer else if raw == 3 then Request else if raw == 5 then Ack
    else Operation.Unknown(raw)
  }

  datatype Data = Data(op: byte, htype: byte, hlen: byte, hops: byte, xid: u32, secs: u16, flags: u16,
                       ciaddr: Ip, yiaddr: Ip, siaddr: Ip, giaddr: Ip, chaddr: seq<byte>, operation: Operation)

  const OPTIONS: nat := 240
  const MESSAGE_TYPE: byte := 53

  /** How many bytes the parser steps over for an option of the given length: taking one less
      in 8-bit arithmetic and then one more. */
  function Stride(build: Build, len: byte): Outcome<nat> {
    var n: nat := len;
    if n > 0 then Ok(n) else if build.Checked? then Panic else Ok(256)
  }

  /** The parser's search for the message type, from the start of the options. */
  function Walk(build: Build, s: seq<byte>): Outcome<byte> {
    if s == [] then Panic
    else if s[0] == MESSAGE_TYPE then (if |s| < 3 then Panic else Ok(s[2]))
    else if |s| < 2 then Panic
    else
      match Stride(build, s[1])
      case Ok(n) => Walk(build, s[2 + Min(n, |s| - 2)..])
      case _ => Panic
  }

  /** The loop over the options. */
  method FindMessageType(build: Build, value: seq<byte>) returns (r: Outcome<byte>)
    requires |value| >= OPTIONS
    ensures r == Walk(build, value[OPTIONS..])
  {
    var at := OPTIONS;
    while at < |value|
      invariant OPTIONS <= at <= |value|
      invariant Walk(build, value[at..]) == Walk(build, value[OPTIONS..])
    {
      var code := value[at];
      if code == MESSAGE_TYPE {
        if at + 2 >= |value| { return Panic; }
        return Ok(value[at + 2]);
      }
      if at + 1 >= |value| { return Panic; }
      var len := value[at + 1];
      if len == 0 && build.Checked? { return Panic; }
      var skip: nat := if len == 0 then 255 else len - 1;
      var next := if at + 2 + skip + 1 <= |value| then at + 2 + skip + 1 else |value|;
      assert value[at..][2 + Min(skip + 1, |value[at..]| - 2)..] == value[next..];
      at := next;
    }
    return Panic;
  }

  function Parse(build: Build, value: seq<byte>): Outcome<Data> {
    if |value| < 244 then Err
    else
      match Walk(build, value[OPTIONS..])
      case Ok(raw) => Ok(Data(value[0], value[1], value[2], value[3], FromBe32(value[4..8]), FromBe16(value[8..10]),
                              FromBe16(value[10..12]), value[12..16], value[16..20], value[20..24], value[24..28],
                              value[28..44], ToOperation(raw)))
      case _ => Panic
  }

  // ---- The walk against the option lists of RFC 2132 ----

  /** An option other than pad and end: code, length, value (section 2 of RFC 2132). */
  datatype Opt = Opt(code: byte, value: seq<byte>)

  function Encode(opts: seq<Opt>): seq<byte>
    requires forall i: nat :: i < |opts| ==> |opts[i].value| < 256
  {
    if opts == [] then [] else [opts[0].code, |opts[0].value|] + opts[0].value + Encode(opts[1..])
  }

  /** The message type according to RFC 2132: pad (0) is a single byte, end (255) stops, any
      other option has a length, and section 9.6 gives the message type the code 53. */
  function Standard(s: seq<byte>): Outcome<byte> {
    if s == [] || s[0] == 255 then Err
    else if s[0] == 0 then Standard(s[1..])
    else if |s| < 2 then Err
    else
      var n: nat := s[1];
      if |s| < 2 + n then Err
      else if s[0] == MESSAGE_TYPE then (if n == 0 then Err else Ok(s[2]))
      else Standard(s[2 + n..])
  }

  ghost predicate Plain(opts: seq<Opt>) {
    forall i: nat :: i < |opts| ==> |opts[i].value| < 256 && opts[i].code !in {0, MESSAGE_TYPE, 255}
  }

  /** The first option of an encoded list, and what is left after it. */
  lemma FirstOption(o: Opt, more: seq<byte>, s: seq<byte>)
    requires |o.value| < 256 && s == [o.code, |o.value|] + o.value + more
    ensures |s| == 2 + |o.value| + |more| && s[0] == o.code && s[1] == |o.value| && s[2 + |o.value|..] == more
  {}

  lemma {:induction false} StandardFinds(opts: seq<Opt>, v: byte, rest: seq<byte>)
    requires Plain(opts)
    ensures Standard(Encode(opts) + ([MESSAGE_TYPE, 1, v] + rest)) == Ok(v)
  {
    var tail := [MESSAGE_TYPE, 1, v] + rest;
    if opts == [] {
      assert Encode(opts) + tail == tail;
    } else {
      StandardFinds(opts[1..], v, rest);
      var s := [opts[0].code, |opts[0].value|] + opts[0].value + (Encode(opts[1..]) + tail);
      assert Encode(opts) + tail == s;
      FirstOption(opts[0], Encode(opts[1..]) + tail, s);
    }
  }

  ghost predicate NoneEmpty(opts: seq<Opt>) {
    forall i: nat :: i < |opts| ==> opts[i].value != []
  }

  lemma NoneEmptyHead(opts: seq<Opt>)
    requires opts != []
    ensures NoneEmpty(opts) <==> opts[0].value != [] && NoneEmpty(opts[1..])
  {
    if opts[0].value != [] && NoneEmpty(opts[1..]) {
      forall i: nat | i < |opts| ensures opts[i].value != [] { assert i > 0 ==> opts[i] == opts[1..][i - 1]; }
    }
  }

  lemma WalkFirst(build: Build, o: Opt, more: seq<byte>, s: seq<byte>)
    requires |o.value| < 256 && o.code != MESSAGE_TYPE && s == [o.code, |o.value|] + o.value + more
    ensures o.value != [] ==> Walk(build, s) == Walk(build, more)
    ensures o.value == [] && build.Checked? ==> Walk(build, s).Panic?
  {
    FirstOption(o, more, s);
  }

  lemma {:induction false} WalkFinds(build: Build, opts: seq<Opt>, v: byte, tail: seq<byte>)
    requires Plain(opts) && |tail| >= 3 && tail[0] == MESSAGE_TYPE && tail[2] == v
    ensures NoneEmpty(opts) ==> Walk(build, Encode(opts) + tail) == Ok(v)
    ensures build.Checked? && !NoneEmpty(opts) ==> Walk(build, Encode(opts) + tail).Panic?
  {
    if opts == [] {
      assert Encode(opts) + tail == tail;
    } else {
      WalkFinds(build, opts[1..], v, tail);
      NoneEmptyHead(opts);
      var more := Encode(opts[1..]) + tail;
      assert Encode(opts) + tail == [opts[0].code, |opts[0].value|] + opts[0].value + more;
      WalkFirst(build, opts[0], more, Encode(opts) + tail);
    }
  }

  /** For every option list without pads before the message type, the parser finds the message
      type the standard defines if no option before it is empty; in a checked build, only then. */
  lemma WalkIsStandard(build: Build, opts: seq<Opt>, v: byte, rest: seq<byte>)
    requires Plain(opts)
    ensures var s := Encode(opts) + ([MESSAGE_TYPE, 1, v] + rest);
            && Standard(s) == Ok(v)
            && (NoneEmpty(opts) ==> Walk(build, s) == Standard(s))
            && (build.Checked? ==> (Walk(build, s) == Standard(s) <==> NoneEmpty(opts)))
  {
    StandardFinds(opts, v, rest);
    WalkFinds(build, opts, v, [MESSAGE_TYPE, 1, v] + rest);
  }

  /** A single pad byte before the message type misleads the parser. */
  lemma PadMisleads(build: Build)
    ensures Standard([0, MESSAGE_TYPE, 1, 2, 255]) == Ok(2) && Walk(build, [0, MESSAGE_TYPE, 1, 2, 255]).Panic?
  {
    var s := [0, MESSAGE_TYPE, 1, 2, 255];
    assert s[1..] == [MESSAGE_TYPE, 1, 2, 255];
    assert s[2 + Min(MESSAGE_TYPE, |s| - 2)..] == [];
  }

  /** In an unchecked build an empty option makes the parser step over 256 bytes. */
  lemma EmptyOptionMisleads()
    ensures Standard([12, 0, MESSAGE_TYPE, 1, 2, 255]) == Ok(2) && Walk(Wrapping, [12, 0, MESSAGE_TYPE, 1, 2, 255]).Panic?
  {
    var s := [12, 0, MESSAGE_TYPE, 1, 2, 255];
    assert s[2..] == [MESSAGE_TYPE, 1, 2, 255];
    assert s[2 + Min(256, |s| - 2)..] == [];
  }

  // ---- The client's messages ----

  const MAGIC: u32 := 0x63825363

  /** Everything up to the options: fixed fields, client address and server address, the
      hardware address, the unused fields and the magic number. */
  function Fixed(mac: Mac, xid: u32, ciaddr: Ip, siaddr: Ip): (s: seq<byte>)
    ensures |s| == OPTIONS
  {
    [1, 1, 6, 0] + Be32(xid) + [0, 0, 0x80, 0] + ciaddr + [0, 0, 0, 0] + siaddr + [0, 0, 0, 0] + mac + Zeros(202) + Be32(MAGIC)
  }

  function DiscoverBytes(mac: Mac, xid: u32): (s: seq<byte>)
    ensures |s| == 244
  {
    Fixed(mac, xid, [0, 0, 0, 0], [0, 0, 0, 0]) + [MESSAGE_TYPE, 1, 1, 0xff]
  }

  /** The request message; the end option lies one byte beyond the declared size of 257. */
  function RequestBytes(mac: Mac, xid: u32, ip: Ip, server: Ip): (s: seq<byte>)
    ensures |s| == 258
  {
    Fixed(mac, xid, ip, server) + [MESSAGE_TYPE, 1, 3, 54, 4] + server + [0, 50, 4] + ip + [0, 0xff]
  }

  /** The part of the message closures that fills the fixed fields of a zeroed payload. */
  method WriteFixed(payload: array<byte>, mac: Mac, xid: u32, ciaddr: Ip, siaddr: Ip)
    requires payload.Length >= OPTIONS && payload[..] == Zeros(payload.Length)
    modifies payload
    ensures payload[..] == Fixed(mac, xid, ciaddr, siaddr) + Zeros(payload.Length - OPTIONS)
  {
    assert payload[..] == [] + Zeros(payload.Length);
    var start := [1, 1, 6, 0] + Be32(xid) + [0, 0, 0x80, 0];
    Append(payload, [], 0, start);
    assert [] + start == start;
    WriteAddresses(payload, start, mac, ciaddr, siaddr);
    ghost var upToMac := start + ciaddr + [0, 0, 0, 0] + siaddr + [0, 0, 0, 0] + mac;
    assert payload[..] == (upToMac + Zeros(202)) + Zeros(payload.Length - 236);
    Append(payload, upToMac + Zeros(202), 236, Be32(MAGIC));
  }

  method WriteAddresses(payload: array<byte>, ghost start: seq<byte>, mac: Mac, ciaddr: Ip, siaddr: Ip)
    requires payload.Length >= OPTIONS && |start| == 12 && payload[..] == start + Zeros(payload.Length - 12)
    modifies payload
    ensures payload[..] == start + ciaddr + [0, 0, 0, 0] + siaddr + [0, 0, 0, 0] + mac + Zeros(payload.Length - 34)
  {
    Append(payload, start, 12, ciaddr);
    Append(payload, start + ciaddr, 16, [0, 0, 0, 0]);
    Append(payload, start + ciaddr + [0, 0, 0, 0], 20, siaddr);
    Append(payload, start + ciaddr + [0, 0, 0, 0] + siaddr, 24, [0, 0, 0, 0]);
    Append(payload, start + ciaddr + [0, 0, 0, 0] + siaddr + [0, 0, 0, 0], 28, mac);
  }

  method WriteDiscover(payload: array<byte>, mac: Mac, xid: u32) returns (size: nat)
    requires payload.Length >= 244 && payload[..] == Zeros(payload.Length)
    modifies payload
    ensures size == 244 && payload[..] == DiscoverBytes(mac, xid) + Zeros(payload.Length - 244)
  {
    WriteFixed(payload, mac, xid, [0, 0, 0, 0], [0, 0, 0, 0]);
    Append(payload, Fixed(mac, xid, [0, 0, 0, 0], [0, 0, 0, 0]), OPTIONS, [MESSAGE_TYPE, 1, 1, 0xff]);
    size := 244;
  }

  method WriteRequest(payload: array<byte>, mac: Mac, xid: u32, ip: Ip, server: Ip) returns (size: nat)
    requires payload.Length >= 258 && payload[..] == Zeros(payload.Length)
    modifies payload
    ensures size == 257 && payload[..] == RequestBytes(mac, xid, ip, server) + Zeros(payload.Length - 258)
  {
    WriteFixed(payload, mac, xid, ip, server);
    ghost var fixed := Fixed(mac, xid, ip, server);
    Append(payload, fixed, OPTIONS, [MESSAGE_TYPE, 1, 3, 54, 4]);
    Append(payload, fixed + [MESSAGE_TYPE, 1, 3, 54, 4], 245, server);
    Append(payload, fixed + [MESSAGE_TYPE, 1, 3, 54, 4] + server, 249, [0, 50, 4]);
    Append(payload, fixed + [MESSAGE_TYPE, 1, 3, 54, 4] + server + [0, 50, 4], 252, ip);
    Append(payload, fixed + [MESSAGE_TYPE, 1, 3, 54, 4] + server + [0, 50, 4] + ip, 256, [0, 0xff]);
    size := 257;
  }


  function ClientBuilder(mac: Mac, ident: u16): Ipv4.Builder {
    Ipv4.Builder(0, ident, 20, Ipv4.Udp, [0, 0, 0, 0], mac, [255, 255, 255, 255], BROADCAST)
  }

  function DiscoverMessage(build: Build, mac: Mac, xid: u32, ident: u16): Outcome<Buffer> {
    Udp.Datagram(build, 68, 67, ClientBuilder(mac, ident), Payload(DiscoverBytes(mac, xid), Ok(244)), 244)
  }

  function RequestMessage(build: Build, mac: Mac, xid: u32, ip: Ip, server: Ip, ident: u16): Outcome<Buffer> {
    Udp.Datagram(build, 68, 67, ClientBuilder(mac, ident), Payload(RequestBytes(mac, xid, ip, server), Ok(257)), 257)
  }

  /** What the parser makes of the fixed part followed by a message type option. */
  lemma FixedParses(build: Build, mac: Mac, xid: u32, ciaddr: Ip, siaddr: Ip, raw: byte, rest: seq<byte>)
    requires |rest| >= 1
    ensures Parse(build, Fixed(mac, xid, ciaddr, siaddr) + ([MESSAGE_TYPE, 1, raw] + rest))
            == Ok(ClientData(mac, xid, ciaddr, siaddr, ToOperation(raw)))
  {
    var options := [MESSAGE_TYPE, 1, raw] + rest;
    var f := ClientFields(mac, xid, ciaddr, siaddr);
    ClientLaidOut(mac, xid, ciaddr, siaddr);
    StaysLaidOut(Fixed(mac, xid, ciaddr, siaddr), options, f);
    var s := Fixed(mac, xid, ciaddr, siaddr) + options;
    assert s[240..] == options;
    FieldsParse(build, s, f, raw);
  }

  /** The header sum of a client message with the given size, as a function of the ident. */
  lemma ClientSum(mac: Mac, ident: u16, size: nat)
    requires size < 0x1000
    ensures Ipv4.HeaderSum(Ipv4.BuiltHeader(ClientBuilder(mac, ident), 8 + size)) == 0x1fffe + 0x5911 + 28 + size + ident
  {
    Ipv4.BuiltHeaderSum(ClientBuilder(mac, ident), 8 + size);
    assert [255, 255, 255, 255][..2] == [255, 255] && [255, 255, 255, 255][2..] == [255, 255];
    assert [0, 0, 0, 0][..2] == [0, 0] && [0, 0, 0, 0][2..] == [0, 0];
  }

  /** The data a message of the client carries. */
  function ClientData(mac: Mac, xid: u32, ciaddr: Ip, siaddr: Ip, operation: Operation): Data {
    Data(1, 1, 6, 0, xid, 0, 0x8000, ciaddr, [0, 0, 0, 0], siaddr, [0, 0, 0, 0], mac + Zeros(10), operation)
  }

  /** A frame that decodes, through Ethernet, IPv4 and UDP, to the given DHCP data. */
  ghost predicate Decodes(build: Build, f: Buffer, mac: Mac, size: nat, d: Data) {
    && |f.data| == BUFFER_SIZE && DestinationMac(f) == BROADCAST && SourceMac(f) == mac
    && Udp.ParseHeader(f) == Ok(Udp.Header(68, 67, (8 + size) % 0x1_0000, 0))
    && Udp.ParsePayload(f).Ok? && Parse(build, Udp.ParsePayload(f).value) == Ok(d)
  }

  lemma ClientMessageParses(build: Build, mac: Mac, ident: u16, bytes: seq<byte>, size: nat, f: Buffer, d: Data)
    requires 18 <= size <= |bytes| && Parse(build, bytes[..size]) == Ok(d)
    requires Udp.Datagram(build, 68, 67, ClientBuilder(mac, ident), Payload(bytes, Ok(size)), size) == Ok(f)
    ensures Decodes(build, f, mac, size, d)
  {
    Udp.DatagramExact(build, 68, 67, ClientBuilder(mac, ident), bytes, size, f);
    FitsWord(8 + size);
  }

  lemma DiscoverBytesParse(build: Build, mac: Mac, xid: u32)
    ensures Parse(build, DiscoverBytes(mac, xid)[..244]) == Ok(ClientData(mac, xid, [0, 0, 0, 0], [0, 0, 0, 0], Discover))
  {
    assert DiscoverBytes(mac, xid)[..244] == Fixed(mac, xid, [0, 0, 0, 0], [0, 0, 0, 0]) + ([MESSAGE_TYPE, 1, 1] + [0xff]);
    FixedParses(build, mac, xid, [0, 0, 0, 0], [0, 0, 0, 0], 1, [0xff]);
  }

  lemma RequestBytesParse(build: Build, mac: Mac, xid: u32, ip: Ip, server: Ip)
    ensures Parse(build, RequestBytes(mac, xid, ip, server)[..257]) == Ok(ClientData(mac, xid, ip, server, Request))
  {
    var rest := [54, 4] + server + [0, 50, 4] + ip + [0];
    assert RequestBytes(mac, xid, ip, server)[..257] == Fixed(mac, xid, ip, server) + ([MESSAGE_TYPE, 1, 3] + rest);
    FixedParses(build, mac, xid, ip, server, 3, rest);
  }

  lemma ClientCarry(ident: u16)
    ensures SingleCarry(0x25a1f + ident) <==> ident != 0xa5df && ident != 0xa5e0
    ensures SingleCarry(0x25a2c + ident) <==> ident != 0xa5d2 && ident != 0xa5d3
  {}

  /** The client's messages can be built unless a checked build meets one of two unlucky
      identifications each. The client uses 13 and 0. */
  lemma ClientMessagesBuilt(build: Build, mac: Mac, xid: u32, ip: Ip, server: Ip, ident: u16)
    ensures DiscoverMessage(build, mac, xid, ident).Ok? <==> build.Wrapping? || (ident != 0xa5df && ident != 0xa5e0)
    ensures RequestMessage(build, mac, xid, ip, server, ident).Ok? <==> build.Wrapping? || (ident != 0xa5d2 && ident != 0xa5d3)
  {
    Udp.DatagramBuilt(build, 68, 67, ClientBuilder(mac, ident), DiscoverBytes(mac, xid), 244);
    Udp.DatagramBuilt(build, 68, 67, ClientBuilder(mac, ident), RequestBytes(mac, xid, ip, server), 257);
    ClientSum(mac, ident, 244);
    ClientSum(mac, ident, 257);
    ClientCarry(ident);
  }

  /** A discover message decodes to its operation, transaction and hardware address. */
  lemma DiscoverParsesBack(build: Build, mac: Mac, xid: u32, ident: u16, f: Buffer)
    requires DiscoverMessage(build, mac, xid, ident) == Ok(f)
    ensures Decodes(build, f, mac, 244, ClientData(mac, xid, [0, 0, 0, 0], [0, 0, 0, 0], Discover))
  {
    DiscoverBytesParse(build, mac, xid);
    ClientMessageParses(build, mac, ident, DiscoverBytes(mac, xid), 244, f, ClientData(mac, xid, [0, 0, 0, 0], [0, 0, 0, 0], Discover));
  }

  /** A request message likewise, with the requested address and the server. */
  lemma RequestParsesBack(build: Build, mac: Mac, xid: u32, ip: Ip, server: Ip, ident: u16, f: Buffer)
    requires RequestMessage(build, mac, xid, ip, server, ident) == Ok(f)
    ensures Decodes(build, f, mac, 257, ClientData(mac, xid, ip, server, Request))
  {
    RequestBytesParse(build, mac, xid, ip, server);
    ClientMessageParses(build, mac, ident, RequestBytes(mac, xid, ip, server), 257, f, ClientData(mac, xid, ip, server, Request));
  }

  // ---- The message format of RFC 2131 ----

  /** The fixed fields of a message (section 2 of RFC 2131). */
  datatype Fields = Fields(op: byte, htype: byte, hlen: byte, hops: byte, xid: u32, secs: u16, flags: u16,
                           ciaddr: Ip, yiaddr: Ip, siaddr: Ip, giaddr: Ip, chaddr: seq<byte>, sname: seq<byte>, file: seq<byte>)

  /** A message starts with these fields: at which byte each of them is, most significant byte
      first. */
  ghost predicate LaidOut(s: seq<byte>, f: Fields) {
    && |s| >= 240
    && s[0] == f.op && s[1] == f.htype && s[2] == f.hlen && s[3] == f.hops
    && Number(s[4..8]) == f.xid && Number(s[8..10]) == f.secs && Number(s[10..12]) == f.flags
    && s[12..16] == f.ciaddr && s[16..20] == f.yiaddr && s[20..24] == f.siaddr && s[24..28] == f.giaddr
    && s[28..44] == f.chaddr && s[44..108] == f.sname && s[108..236] == f.file
    && s[236..240] == [0x63, 0x82, 0x53, 0x63]
  }

  /** The parser reads every field from there. */
  lemma FieldsParse(build: Build, s: seq<byte>, f: Fields, v: byte)
    requires LaidOut(s, f) && |s| >= 244 && Walk(build, s[240..]) == Ok(v)
    ensures Parse(build, s) == Ok(Data(f.op, f.htype, f.hlen, f.hops, f.xid, f.secs, f.flags,
                                       f.ciaddr, f.yiaddr, f.siaddr, f.giaddr, f.chaddr, ToOperation(v)))
  {
    NumberOfFour(s[4..8]);
    NumberOfTwo(s[8..10]);
    NumberOfTwo(s[10..12]);
  }

  /** The message types of section 9.6 of RFC 2132 that the client knows. */
  lemma TypesAreStandard(v: byte)
    ensures ToOperation(v) == Discover <==> v == 1
    ensures ToOperation(v) == Offer <==> v == 2
    ensures ToOperation(v) == Request <==> v == 3
    ensures ToOperation(v) == Ack <==> v == 5
  {}

  /** Any message with these fields, options without pads and empty values, and then a message
      type, parses to exactly these fields and that type. */
  lemma MessageParses(build: Build, fixed: seq<byte>, f: Fields, opts: seq<Opt>, v: byte, rest: seq<byte>)
    requires |fixed| == 240 && LaidOut(fixed, f) && Plain(opts) && NoneEmpty(opts) && rest != []
    ensures var r := Parse(build, fixed + (Encode(opts) + ([MESSAGE_TYPE, 1, v] + rest)));
            && r.Ok? && r.value.xid == f.xid && r.value.yiaddr == f.yiaddr && r.value.siaddr == f.siaddr
            && r.value == Data(f.op, f.htype, f.hlen, f.hops, f.xid, f.secs, f.flags,
                               f.ciaddr, f.yiaddr, f.siaddr, f.giaddr, f.chaddr, r.value.operation)
            && (r.value.operation == Offer <==> v == 2) && (r.value.operation == Ack <==> v == 5)
  {
    var options := Encode(opts) + ([MESSAGE_TYPE, 1, v] + rest);
    var s := fixed + options;
    assert s[240..] == options;
    WalkIsStandard(build, opts, v, rest);
    StaysLaidOut(fixed, options, f);
    FieldsParse(build, s, f, v);
    TypesAreStandard(v);
  }

  lemma StaysLaidOut(fixed: seq<byte>, options: seq<byte>, f: Fields)
    requires |fixed| == 240 && LaidOut(fixed, f)
    ensures LaidOut(fixed + options, f)
  {
    var s := fixed + options;
    assert s[4..8] == fixed[4..8] && s[8..10] == fixed[8..10] && s[10..12] == fixed[10..12];
    assert s[12..16] == fixed[12..16] && s[16..20] == fixed[16..20] && s[20..24] == fixed[20..24] && s[24..28] == fixed[24..28];
    assert s[28..44] == fixed[28..44] && s[44..108] == fixed[44..108];
    assert s[108..236] == fixed[108..236] && s[236..240] == fixed[236..240];
  }

  /** A boot request over Ethernet, broadcast flag set, with the hardware address and no names. */
  function ClientFields(mac: Mac, xid: u32, ciaddr: Ip, siaddr: Ip): Fields {
    Fields(1, 1, 6, 0, xid, 0, 0x8000, ciaddr, [0, 0, 0, 0], siaddr, [0, 0, 0, 0], mac + Zeros(10), Zeros(64), Zeros(128))
  }

  /** The client's messages have that layout. */
  lemma ClientLaidOut(mac: Mac, xid: u32, ciaddr: Ip, siaddr: Ip)
    ensures LaidOut(Fixed(mac, xid, ciaddr, siaddr), ClientFields(mac, xid, ciaddr, siaddr))
  {
    var s := Fixed(mac, xid, ciaddr, siaddr);
    var start := [1, 1, 6, 0] + Be32(xid) + [0, 0, 0x80, 0];
    assert s[..12] == start;
    assert s[4..8] == Be32(xid) && s[8..10] == [0, 0] && s[10..12] == [0x80, 0];
    Be32RoundTrip(xid);
    NumberOfFour(s[4..8]);
    NumberOfTwo(s[8..10]);
    NumberOfTwo(s[10..12]);
    assert s[12..16] == ciaddr && s[16..20] == [0, 0, 0, 0] && s[20..24] == siaddr && s[24..28] == [0, 0, 0, 0];
    assert s[28..44] == mac + Zeros(10) && s[44..108] == Zeros(64) && s[108..236] == Zeros(128);
    assert s[236..240] == Be32(MAGIC);
  }

  /** The value of the first option with the given code, according to section 2 of RFC 2132. */
  function OptionOf(s: seq<byte>, code: byte): Outcome<seq<byte>> {
    if s == [] || s[0] == 255 then Err
    else if s[0] == 0 then OptionOf(s[1..], code)
    else if |s| < 2 then Err
    else
      var n: nat := s[1];
      if |s| < 2 + n then Err
      else if s[0] == code then Ok(s[2..2 + n])
      else OptionOf(s[2 + n..], code)
  }

  /** The options of a discover message, as a server reads them. */
  lemma DiscoverOptions(mac: Mac, xid: u32)
    ensures OptionOf(DiscoverBytes(mac, xid)[240..], 53) == Ok([1])
  {
    var s := DiscoverBytes(mac, xid)[240..];
    assert s == [53, 1, 1, 0xff];
    assert s[2..3] == [1];
  }

  /** The options of a request message, within its declared 257 bytes: the type under 53, the
      server under 54 and the requested address under 50. */
  lemma RequestOptions(mac: Mac, xid: u32, ip: Ip, server: Ip)
    ensures var s := RequestBytes(mac, xid, ip, server)[240..257];
            OptionOf(s, 53) == Ok([3]) && OptionOf(s, 54) == Ok(server) && OptionOf(s, 50) == Ok(ip)
  {
    var s := RequestBytes(mac, xid, ip, server)[240..257];
    var afterType := [54, 4] + server + [0, 50, 4] + ip + [0];
    assert s == [53, 1, 3] + afterType;
    assert s[2..3] == [3] && s[3..] == afterType;
    ServerOption(server, ip, afterType);
    AddressOption(ip, afterType[7..]);
  }

  lemma ServerOption(server: Ip, ip: Ip, s: seq<byte>)
    requires s == [54, 4] + server + [0, 50, 4] + ip + [0]
    ensures OptionOf(s, 54) == Ok(server)
    ensures s[7..] == [50, 4] + ip + [0] && OptionOf(s, 50) == OptionOf(s[7..], 50)
  {
    assert s[2..6] == server;
    assert s[6..][0] == 0 && s[6..][1..] == s[7..];
  }

  lemma AddressOption(ip: Ip, s: seq<byte>)
    requires s == [50, 4] + ip + [0]
    ensures OptionOf(s, 50) == Ok(ip)
  {
    assert s[2..6] == ip;
  }

  /** A client's message on the wire: broadcast from port 68 to 67, from no address to all. */
  ghost predicate ClientOnWire(f: Buffer, mac: Mac, size: nat, ident: u16) {
    && |f.data| == 2048 && f.len == 42 + size
    && f.data[0..6] == [0xff, 0xff, 0xff, 0xff, 0xff, 0xff] && f.data[6..12] == mac && f.data[12..14] == [0x08, 0x00]
    && f.data[14] == 0x45 && Number(f.data[16..18]) == 28 + size && Number(f.data[18..20]) == ident && f.data[22] == 20 && f.data[23] == 17
    && f.data[26..30] == [0, 0, 0, 0] && f.data[30..34] == [255, 255, 255, 255]
    && Number(f.data[34..36]) == 68 && Number(f.data[36..38]) == 67 && Number(f.data[38..40]) == 8 + size
  }

  /** A discover message on the wire, with its payload. */
  lemma DiscoverOnWire(build: Build, mac: Mac, xid: u32, ident: u16, f: Buffer)
    requires DiscoverMessage(build, mac, xid, ident) == Ok(f)
    ensures ClientOnWire(f, mac, 244, ident) && f.data[42..286] == DiscoverBytes(mac, xid)
  {
    Udp.DatagramBytes(build, 68, 67, ClientBuilder(mac, ident), Payload(DiscoverBytes(mac, xid), Ok(244)), 244, f);
  }

  /** A request message on the wire, with the 257 bytes it declares. */
  lemma RequestOnWire(build: Build, mac: Mac, xid: u32, ip: Ip, server: Ip, ident: u16, f: Buffer)
    requires RequestMessage(build, mac, xid, ip, server, ident) == Ok(f)
    ensures ClientOnWire(f, mac, 257, ident) && f.data[42..299] == RequestBytes(mac, xid, ip, server)[..257]
  {
    Udp.DatagramBytes(build, 68, 67, ClientBuilder(mac, ident), Payload(RequestBytes(mac, xid, ip, server), Ok(257)), 257, f);
  }
}
