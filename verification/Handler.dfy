/** The network handler: from a received frame, through the parsers of all layers, to the
    change it makes to a device or to the tables of pending requests. */
module Handler {
  import opened Bytes
  import opened Checksum
  import opened Runs
  import opened Ethernet
  import Arp
  import Dhcp
  import DhcpClient
  import Icmp
  import Ipv4
  import Ping
  import Udp

  /** What a frame asks the handler to do. */
  datatype Event =
    | Ignored
    | ArpRequest(fromMac: Mac, fromIp: Ip, forIp: Ip)
    | ArpResponse(ip: Ip, mac: Mac)
    | EchoReply(source: Ip)
    | DhcpPacket(data: Dhcp.Data)
    | OtherUdp(port: u16)
    | Crash

  function ClassifyArp(content: seq<byte>): Event {
    if |content| < 28 then Crash
    else
      var operation := FromBe16(content[6..8]);
      if operation == 1 then ArpRequest(content[8..14], content[14..18], content[24..28])
      else if operation == 2 then ArpResponse(content[14..18], content[8..14])
      else Ignored
  }

  function ClassifyIcmp(source: Ip, payload: Outcome<seq<byte>>): Event {
    if !payload.Ok? then Crash
    else
      match Icmp.FromBytes(payload.value)
      case Ok(EchoReply(_, _)) => EchoReply(source)
      case Ok(EchoRequest(_, _)) => Crash
      case Ok(Other(_)) => Ignored
      case _ => Crash
  }

  function ClassifyUdp(build: Build, b: Buffer): Event
    requires |b.data| == BUFFER_SIZE
  {
    match Udp.ParseHeader(b)
    case Ok(h) =>
      if h.sourcePort != 67 || h.destinationPort != 68 then OtherUdp(h.destinationPort)
      else if !Udp.ParsePayload(b).Ok? then Crash
      else (match Dhcp.Parse(build, Udp.ParsePayload(b).value) case Ok(data) => DhcpPacket(data) case _ => Crash)
    case _ => Crash
  }

  function ClassifyIpv4(build: Build, b: Buffer, content: seq<byte>): Event
    requires |b.data| == BUFFER_SIZE
  {
    match Ipv4.ParseHeader(content)
    case Ok(h) =>
      (match h.protocol
       case Icmp => ClassifyIcmp(h.source, Ipv4.ParsePayload(content))
       case Udp => ClassifyUdp(build, b)
       case _ => Ignored)
    case _ => Crash
  }

  /** The dispatch of `handle_packet_` for the device with address `mac`. */
  function Classify(build: Build, mac: Mac, b: Buffer): Event
    requires |b.data| == BUFFER_SIZE
  {
    if DestinationMac(b) != BROADCAST && DestinationMac(b) != mac then Ignored
    else
      match Type(b)
      case Arp => if Content(b).Ok? then ClassifyArp(Content(b).value) else Crash
      case Ipv4 => if Content(b).Ok? then ClassifyIpv4(build, b, Content(b).value) else Crash
      case WakeOnLan => if Content(b).Ok? then Ignored else Crash
      case _ => Ignored
  }

  // ---- What built frames are classified as ----

  function ArpBytes(operation: u16, fromMac: Mac, fromIp: Ip, toMac: Mac, toIp: Ip): (s: seq<byte>)
    ensures |s| == 28
  {
    [0, 1, 8, 0, 6, 4] + Be16(operation) + fromMac + fromIp + toMac + toIp
  }

  function ArpFrame(operation: u16, fromMac: Mac, fromIp: Ip, toMac: Mac, toIp: Ip): (r: Outcome<Buffer>)
    ensures r.Ok?
  {
    Frame(toMac, fromMac, EthType.Arp, Payload(ArpBytes(operation, fromMac, fromIp, toMac, toIp), Ok(28)))
  }

  /** An ARP frame built for a device, or broadcast, reaches it as the request or response it
      was built as, with the sender's addresses; building one never fails. */
  lemma ArpFrameArrives(build: Build, mac: Mac, operation: u16, fromMac: Mac, fromIp: Ip, toMac: Mac, toIp: Ip)
    requires toMac == mac || toMac == BROADCAST
    ensures var f := ArpFrame(operation, fromMac, fromIp, toMac, toIp);
            f.Ok? && Classify(build, mac, f.value) ==
                       if operation == 1 then ArpRequest(fromMac, fromIp, toIp)
                       else if operation == 2 then ArpResponse(fromIp, fromMac) else Ignored
  {
    var bytes := ArpBytes(operation, fromMac, fromIp, toMac, toIp);
    var f := ArpFrame(operation, fromMac, fromIp, toMac, toIp).value;
    FrameRoundTrip(toMac, fromMac, EthType.Arp, Payload(bytes, Ok(28)), f);
    var content := (bytes + Zeros(1486 - 28))[..46];
    ArpBytesParse(operation, fromMac, fromIp, toMac, toIp, content);
  }

  lemma ArpBytesParse(operation: u16, fromMac: Mac, fromIp: Ip, toMac: Mac, toIp: Ip, content: seq<byte>)
    requires |content| >= 28 && content[..28] == ArpBytes(operation, fromMac, fromIp, toMac, toIp)
    ensures ClassifyArp(content) == if operation == 1 then ArpRequest(fromMac, fromIp, toIp)
                                    else if operation == 2 then ArpResponse(fromIp, fromMac) else Ignored
  {
    var s := ArpBytes(operation, fromMac, fromIp, toMac, toIp);
    SameSlice(content, s, 6, 8);
    SameSlice(content, s, 8, 14);
    SameSlice(content, s, 14, 18);
    SameSlice(content, s, 24, 28);
    assert s[6..8] == Be16(operation) && s[8..14] == fromMac && s[14..18] == fromIp && s[24..28] == toIp;
  }

  lemma SameSlice(content: seq<byte>, s: seq<byte>, i: nat, j: nat)
    requires s <= content && i <= j <= |s|
    ensures content[i..j] == s[i..j]
  {}

  /** An echo reply built for a device reaches it as a reply from the builder's source address. */
  lemma EchoReplyArrives(build: Build, mac: Mac, id: u16, sequence: u16, ip: Ipv4.Builder, p: Payload, size: nat, f: Buffer)
    requires Icmp.Message(build, Icmp.EchoReply(id, sequence), ip, p, size) == Ok(f)
    requires ip.protocol == Ipv4.Icmp && (ip.destinationMac == mac || ip.destinationMac == BROADCAST)
    ensures |f.data| == BUFFER_SIZE && Classify(build, mac, f) == EchoReply(ip.source)
  {
    Icmp.MessageExactly(build, Icmp.EchoReply(id, sequence), ip, p, size, f);
    Ipv4.PacketRoundTrip(build, ip, Icmp.IcmpPayload(build, Icmp.EchoReply(id, sequence), p, size), 8 + size, f);
    var content := Content(f).value;
    assert ClassifyIcmp(ip.source, Ipv4.ParsePayload(content)) == EchoReply(ip.source);
    assert ClassifyIpv4(build, f, content) == EchoReply(ip.source);
  }

  /** A datagram from port 67 to port 68 reaches a device as the DHCP data its payload parses to. */
  lemma DhcpArrives(build: Build, mac: Mac, ip: Ipv4.Builder, bytes: seq<byte>, f: Buffer, data: Dhcp.Data)
    requires Udp.Datagram(build, 67, 68, ip, Payload(bytes, Ok(|bytes|)), |bytes|) == Ok(f) && Dhcp.Parse(build, bytes) == Ok(data)
    requires ip.protocol == Ipv4.Udp && (ip.destinationMac == mac || ip.destinationMac == BROADCAST)
    ensures |f.data| == BUFFER_SIZE && Classify(build, mac, f) == DhcpPacket(data)
  {
    Udp.DatagramParses(build, 67, 68, ip, Payload(bytes, Ok(|bytes|)), |bytes|, f);
    Udp.DatagramExact(build, 67, 68, ip, bytes, |bytes|, f);
    assert bytes[..|bytes|] == bytes;
    assert ClassifyUdp(build, f) == DhcpPacket(data);
    assert ClassifyIpv4(build, f, Content(f).value) == DhcpPacket(data);
  }

  // ---- The handler's state ----

  datatype Entry = Entry(id: nat, device: DhcpClient.Device)

  /** The devices, the tables of pending requests, the address map, the reply queues that do not
      accept a value, because they are full or their caller is gone, and what the handler gave
      out: values for reply queues, wakers called after storing their flag, frames to send. */
  datatype Net = Net(devices: seq<Entry>, arp: map<Ip, nat>, ping: map<Ip, Ping.Binding>, ips: map<Ip, Mac>,
                     refusing: set<nat>, answers: seq<(nat, Mac)>, woken: seq<Ping.Binding>, sent: seq<Buffer>)

  /** The first device with the given id, |devices| if there is none. */
  function FindDevice(devices: seq<Entry>, id: nat): (i: nat)
    ensures i <= |devices| && (forall j: nat :: j < i ==> devices[j].id != id)
    ensures i < |devices| ==> devices[i].id == id
  {
    if devices == [] then 0
    else
      var i := FindDevice(devices[..|devices| - 1], id);
      if i < |devices| - 1 || devices[|devices| - 1].id == id then i else |devices|
  }

  function React(net: Net, i: nat, e: Event): Outcome<Net>
    requires i < |net.devices|
  {
    var d := net.devices[i].device;
    match e
    case Crash => Panic
    case Ignored => Ok(net)
    case OtherUdp(_) => Ok(net)
    case ArpRequest(fromMac, fromIp, forIp) =>
      if d.ip != Some(forIp) then Ok(net)
      else
        (match ArpFrame(2, d.mac, forIp, fromMac, fromIp)
         case Ok(f) => Ok(net.(sent := net.sent + [f]))
         case _ => Panic)
    case ArpResponse(ip, mac) =>
      var learned := net.(ips := net.ips[ip := mac]);
      if ip !in net.arp then Ok(learned)
      else if net.arp[ip] in net.refusing then Panic
      else Ok(learned.(arp := net.arp - {ip}, answers := net.answers + [(net.arp[ip], mac)]))
    case EchoReply(ip) =>
      if ip !in net.ping then Ok(net)
      else Ok(net.(ping := net.ping - {ip}, woken := net.woken + [net.ping[ip]]))
    case DhcpPacket(data) =>
      Ok(net.(devices := net.devices[i := Entry(net.devices[i].id, DhcpClient.Receive(d, data))]))
  }

  function HandleFrame(build: Build, net: Net, id: nat, b: Buffer): Outcome<Net>
    requires |b.data| == BUFFER_SIZE
  {
    var i := FindDevice(net.devices, id);
    if i == |net.devices| then Panic else React(net, i, Classify(build, net.devices[i].device.mac, b))
  }

  /** The handler object. */
  class NetworkHandler {
    const ids: seq<nat>
    const devices: seq<DhcpClient.NetDevice>
    var arp: map<Ip, nat>
    var ping: map<Ip, Ping.Binding>
    var ips: map<Ip, Mac>
    var refusing: set<nat>
    var answers: seq<(nat, Mac)>
    var woken: seq<Ping.Binding>
    var sent: seq<Buffer>

    ghost predicate Valid() {
      |ids| == |devices| && forall i: nat, j: nat :: i < j < |devices| ==> devices[i] != devices[j]
    }

    ghost function Entries(): seq<Entry>
      requires Valid()
      reads devices
    {
      seq(|devices|, i requires 0 <= i < |devices| reads devices => Entry(ids[i], devices[i].View()))
    }

    ghost function View(): Net
      requires Valid()
      reads this, devices
    {
      Net(Entries(), arp, ping, ips, refusing, answers, woken, sent)
    }

    constructor (ids: seq<nat>, devices: seq<DhcpClient.NetDevice>)
      requires |ids| == |devices| && forall i: nat, j: nat :: i < j < |devices| ==> devices[i] != devices[j]
      ensures Valid() && View() == Net(Entries(), map[], map[], map[], {}, [], [], []) && this.ids == ids && this.devices == devices
    {
      this.ids, this.devices := ids, devices;
      arp, ping, ips, refusing, answers, woken, sent := map[], map[], map[], {}, [], [], [];
    }

    /** Handle one received frame; false stands for a panic. */
    method HandlePacket(build: Build, id: nat, b: Buffer) returns (alive: bool)
      requires Valid() && |b.data| == BUFFER_SIZE
      modifies this, devices
      ensures alive <==> HandleFrame(build, old(View()), id, b).Ok?
      ensures alive ==> View() == HandleFrame(build, old(View()), id, b).value
    {
      var i: nat := 0;
      ghost var entries := Entries();
      while i < |devices| && ids[i] != id
        invariant i <= FindDevice(entries, id)
      {
        assert entries[i].id == ids[i];
        i := i + 1;
      }
      if i == |devices| { return false; }
      assert entries[i] == Entry(ids[i], devices[i].View());
      alive := Dispatch(i, Classify(build, devices[i].mac, b));
    }

    method Dispatch(i: nat, e: Event) returns (alive: bool)
      requires Valid() && i < |devices|
      modifies this, devices[i]
      ensures alive <==> React(old(View()), i, e).Ok?
      ensures alive ==> View() == React(old(View()), i, e).value
    {
      var device := devices[i];
      match e {
        case Crash => return false;
        case ArpRequest(fromMac, fromIp, forIp) =>
          if device.ip != Some(forIp) { return true; }
          var f := Finish(fromMac, device.mac, EthType.Arp, Payload(ArpBytes(2, device.mac, forIp, fromMac, fromIp), Ok(28)));
          if !f.Ok? { return false; }
          sent := sent + [f.value];
        case ArpResponse(ip, mac) =>
          ips := ips[ip := mac];
          if ip in arp {
            var listener := arp[ip];
            arp := arp - {ip};
            if listener in refusing { return false; }
            answers := answers + [(listener, mac)];
          }
        case EchoReply(ip) =>
          if ip in ping {
            var binding := ping[ip];
            ping := ping - {ip};
            woken := woken + [binding];
          }
        case DhcpPacket(data) =>
          device.HandleDhcp(data);
          assert Entries() == old(Entries())[i := Entry(ids[i], device.View())];
        case _ =>
      }
      return true;
    }

    /** A request to resolve an address: remember the reply queue, ask on every device. */
    method SendArpRequest(ip: Ip, q: nat)
      requires Valid()
      modifies this
      ensures View() == AskAll(old(View()), ip, q)
    {
      arp := arp[ip := q];
      var frames := Questions(ip);
      sent := sent + frames;
    }

    /** The request frames for all devices. */
    method Questions(ip: Ip) returns (frames: seq<Buffer>)
      requires Valid()
      ensures frames == ArpQuestions(Entries(), ip)
    {
      ghost var entries := Entries();
      frames := [];
      var i: nat := 0;
      while i < |devices|
        invariant i <= |devices| && frames == ArpQuestions(entries[..i], ip)
      {
        var f := Question(i, ip);
        frames := frames + [f];
        i := i + 1;
      }
      assert entries[..|devices|] == entries;
    }

    /** A request to ping: remember waker and flag, send an echo request on every device; false
        stands for a panic. */
    method SendPing(build: Build, ip: Ip, mac: Mac, to: Ping.Binding) returns (alive: bool)
      requires Valid()
      modifies this
      ensures alive <==> PingFrames(build, Entries(), ip, mac).Ok?
      ensures alive ==> View() == old(View()).(ping := old(ping)[ip := to], sent := old(sent) + PingFrames(build, Entries(), ip, mac).value)
    {
      ping := ping[ip := to];
      var frames := Echoes(build, ip, mac);
      if !frames.Ok? { return false; }
      sent := sent + frames.value;
      return true;
    }

    /** The echo request frames for all devices. */
    method Echoes(build: Build, ip: Ip, mac: Mac) returns (r: Outcome<seq<Buffer>>)
      requires Valid()
      ensures r == PingFrames(build, Entries(), ip, mac)
    {
      ghost var rs := PingOutcomes(build, Entries(), ip, mac);
      var frames: seq<Buffer> := [];
      var i: nat := 0;
      while i < |devices|
        invariant i <= |devices| && AllBuilt(rs[..i]) == Ok(frames)
      {
        var f := Echo(build, i, ip, mac);
        assert f == rs[i];
        AllBuiltNext(rs, i);
        if !f.Ok? {
          AllBuiltStuck(rs, i + 1);
          return Panic;
        }
        frames := frames + [f.value];
        i := i + 1;
      }
      assert rs[..|devices|] == rs;
      return Ok(frames);
    }

    /** The echo request frame for device i. */
    method Echo(build: Build, i: nat, ip: Ip, mac: Mac) returns (f: Outcome<Buffer>)
      requires Valid() && i < |devices|
      ensures f == PingFrameOf(build, Entries()[i].device, ip, mac)
    {
      f := PingFrame(build, OwnIp(devices[i].ip), devices[i].mac, ip, mac);
    }

    /** The request frame for device i. */
    method Question(i: nat, ip: Ip) returns (f: Buffer)
      requires Valid() && i < |devices|
      ensures f == QuestionOf(Entries()[i].device, ip)
    {
      var r := Finish(BROADCAST, devices[i].mac, EthType.Arp, Payload(ArpBytes(1, devices[i].mac, OwnIp(devices[i].ip), BROADCAST, ip), Ok(28)));
      assert r == ArpFrame(1, devices[i].mac, OwnIp(devices[i].ip), BROADCAST, ip);
      f := r.value;
    }
  }

  /** The reply queues that do not accept a value. */
  function Refusing(calls: seq<Arp.Call>): set<nat> {
    set q | 0 <= q < |calls| && (calls[q].dropped || |calls[q].values| >= calls[q].taken + Arp.CAPACITY)
  }

  /** The calls after the answers given out by one reaction. */
  function Answered(calls: seq<Arp.Call>, before: seq<(nat, Mac)>, after: seq<(nat, Mac)>): seq<Arp.Call> {
    if |after| <= |before| || after[|before|].0 >= |calls| then calls
    else
      var (q, mac) := after[|before|];
      calls[q := calls[q].(values := calls[q].values + [mac])]
  }

  /** The reaction to an ARP response is the one in the model of pending address requests,
      including the panic on a reply queue that does not accept the answer. */
  lemma ArpFollows(net: Net, i: nat, ip: Ip, mac: Mac, a: Arp.State)
    requires i < |net.devices| && net.arp == a.table && net.ips == a.ips && !a.panicked && net.refusing == Refusing(a.calls)
    requires forall ip' :: ip' in a.table ==> a.table[ip'] < |a.calls|
    ensures var r, a' := React(net, i, ArpResponse(ip, mac)), Arp.Handle(a, Arp.Response(ip, mac));
            && (r.Panic? <==> a'.panicked) && !r.Err?
            && (r.Ok? ==> r.value.arp == a'.table && r.value.ips == a'.ips && Answered(a.calls, net.answers, r.value.answers) == a'.calls)
  {}

  /** The waker that a reaction called, if any. */
  function NewlyWoken(before: seq<Ping.Binding>, after: seq<Ping.Binding>): Option<Ping.Binding> {
    if |after| <= |before| then None else Some(after[|before|])
  }

  /** The reaction to an echo reply is the one in the model of pings. */
  lemma PingFollows(net: Net, i: nat, ip: Ip, p: Ping.State)
    requires i < |net.devices| && net.ping == p.table && p.waking.None?
    requires forall ip' :: ip' in p.table ==> p.table[ip'].f < |p.futures|
    ensures var r, p' := React(net, i, EchoReply(ip)), Ping.Handle(p, Ping.EchoReply(ip));
            && r.Ok? && r.value.ping == p'.table && NewlyWoken(net.woken, r.value.woken) == p'.waking
            && (p'.waking.Some? ==> p'.futures == p.futures[p'.waking.value.f := p.futures[p'.waking.value.f].(returned := true)])
            && (p'.waking.None? ==> p'.futures == p.futures)
  {}

  /** Other frames leave both tables, the answers and the wakers alone. */
  lemma OthersLeaveTables(net: Net, i: nat, e: Event, net': Net)
    requires i < |net.devices| && React(net, i, e) == Ok(net')
    ensures !e.ArpResponse? ==> net'.arp == net.arp && net'.ips == net.ips && net'.answers == net.answers
    ensures !e.EchoReply? ==> net'.ping == net.ping && net'.woken == net.woken
  {}

  // ---- Whole runs of frames ----

  datatype Input = Input(id: nat, frame: Buffer)

  ghost predicate Received(inputs: seq<Input>) {
    forall k: nat :: k < |inputs| ==> |inputs[k].frame.data| == BUFFER_SIZE
  }

  /** The handler's state after the given frames; Panic if one of them made it panic. */
  ghost function HandleAll(build: Build, net: Net, inputs: seq<Input>): Outcome<Net>
    requires Received(inputs)
  {
    if inputs == [] then Ok(net)
    else
      match HandleAll(build, net, inputs[..|inputs| - 1])
      case Ok(m) => HandleFrame(build, m, inputs[|inputs| - 1].id, inputs[|inputs| - 1].frame)
      case _ => Panic
  }

  /** The DHCP packets among the frames that arrived at device `id` and were meant for it. */
  ghost function DhcpOf(build: Build, id: nat, mac: Mac, inputs: seq<Input>): seq<Dhcp.Data>
    requires Received(inputs)
  {
    if inputs == [] then []
    else
      var last := inputs[|inputs| - 1];
      var e := Classify(build, mac, last.frame);
      DhcpOf(build, id, mac, inputs[..|inputs| - 1]) + if last.id == id && e.DhcpPacket? then [e.data] else []
  }

  ghost predicate DistinctIds(devices: seq<Entry>) {
    forall i: nat, j: nat :: i < j < |devices| ==> devices[i].id != devices[j].id
  }

  lemma ReactTouchesOne(net: Net, k: nat, e: Event, net': Net)
    requires k < |net.devices| && React(net, k, e) == Ok(net')
    ensures net'.devices == if e.DhcpPacket?
                            then net.devices[k := Entry(net.devices[k].id, DhcpClient.Receive(net.devices[k].device, e.data))]
                            else net.devices
  {}

  /** One frame changes the DHCP state of the device it arrived at, if it is a DHCP packet, and
      of no other. */
  lemma FrameTouchesOne(build: Build, net: Net, id: nat, b: Buffer, net': Net, i: nat)
    requires |b.data| == BUFFER_SIZE && HandleFrame(build, net, id, b) == Ok(net') && DistinctIds(net.devices) && i < |net.devices|
    ensures |net'.devices| == |net.devices| && net'.devices[i].id == net.devices[i].id
    ensures DistinctIds(net'.devices)
    ensures var e := Classify(build, net.devices[i].device.mac, b);
            net'.devices[i].device == if net.devices[i].id == id && e.DhcpPacket?
                                      then DhcpClient.Receive(net.devices[i].device, e.data) else net.devices[i].device
  {
    var k := FindDevice(net.devices, id);
    assert k == i <==> net.devices[i].id == id;
    ReactTouchesOne(net, k, Classify(build, net.devices[k].device.mac, b), net');
  }

  /** After any frames for any devices, each device is in the state its own DHCP packets lead
      to, one by one. */
  lemma {:induction false} DevicesRunAlone(build: Build, net: Net, inputs: seq<Input>, net': Net, i: nat)
    requires Received(inputs) && DistinctIds(net.devices) && i < |net.devices| && HandleAll(build, net, inputs) == Ok(net')
    ensures |net'.devices| == |net.devices| && net'.devices[i].id == net.devices[i].id && DistinctIds(net'.devices)
    ensures net'.devices[i].device.mac == net.devices[i].device.mac
    ensures net'.devices[i].device ==
              DhcpClient.ReceiveAll(net.devices[i].device, DhcpOf(build, net.devices[i].id, net.devices[i].device.mac, inputs))
  {
    if inputs != [] {
      var init, last := inputs[..|inputs| - 1], inputs[|inputs| - 1];
      var m := HandleAll(build, net, init).value;
      DevicesRunAlone(build, net, init, m, i);
      FrameTouchesOne(build, m, last.id, last.frame, net', i);
      var id, mac := net.devices[i].id, net.devices[i].device.mac;
      var e := Classify(build, mac, last.frame);
      if last.id == id && e.DhcpPacket? {
        assert DhcpOf(build, id, mac, inputs)[..|DhcpOf(build, id, mac, init)|] == DhcpOf(build, id, mac, init);
      } else {
        assert DhcpOf(build, id, mac, inputs) == DhcpOf(build, id, mac, init);
      }
    }
  }

  /** From raw frames to a bound address: whatever frames arrive, a freshly started device has
      an address if and only if its exchange is done, and it is the one in the first offer with
      the right transaction among its own DHCP frames. */
  lemma AddressIsFirstOffer(build: Build, net: Net, inputs: seq<Input>, net': Net, i: nat, mac: Mac)
    requires Received(inputs) && DistinctIds(net.devices) && i < |net.devices| && HandleAll(build, net, inputs) == Ok(net')
    requires net.devices[i].device == DhcpClient.Start(DhcpClient.Fresh(mac))
    ensures |net'.devices| == |net.devices|
    ensures var d, packets := net'.devices[i].device, DhcpOf(build, net.devices[i].id, mac, inputs);
            var first := DhcpClient.FirstOffer(packets);
            && (d.ip.Some? <==> d.dhcp.Done?) && (d.ip.Some? <==> d.indicator)
            && (d.ip.Some? <==> first < |packets| && DhcpClient.AckedAfter(packets, first))
            && (d.ip.Some? ==> d.ip.value == packets[first].yiaddr)
  {
    DevicesRunAlone(build, net, inputs, net', i);
    DhcpClient.ExchangeOutcome(mac, DhcpOf(build, net.devices[i].id, mac, inputs));
  }

  function OwnIp(ip: Option<Ip>): Ip {
    if ip.Some? then ip.value else [0, 0, 0, 0]
  }

  /** The frame by which a device asks for an address. */
  function QuestionOf(d: DhcpClient.Device, ip: Ip): Buffer {
    ArpFrame(1, d.mac, OwnIp(d.ip), BROADCAST, ip).value
  }

  /** One ARP request frame per device. */
  function ArpQuestions(devices: seq<Entry>, ip: Ip): seq<Buffer> {
    seq(|devices|, i requires 0 <= i < |devices| => QuestionOf(devices[i].device, ip))
  }

  function AskAll(net: Net, ip: Ip, q: nat): Net {
    net.(arp := net.arp[ip := q], sent := net.sent + ArpQuestions(net.devices, ip))
  }

  // ---- Ping frames ----

  function PingBuilder(source: Ip, sourceMac: Mac, ip: Ip, mac: Mac): Ipv4.Builder {
    Ipv4.Builder(0, 0x1234, 20, Ipv4.Icmp, source, sourceMac, ip, mac)
  }

  function PingFrame(build: Build, source: Ip, sourceMac: Mac, ip: Ip, mac: Mac): Outcome<Buffer> {
    Icmp.Message(build, Icmp.EchoRequest(0x1234, 0x2345), PingBuilder(source, sourceMac, ip, mac), Payload([], Ok(0)), 0)
  }

  function PingFrameOf(build: Build, d: DhcpClient.Device, ip: Ip, mac: Mac): Outcome<Buffer> {
    PingFrame(build, OwnIp(d.ip), d.mac, ip, mac)
  }

  function PingOutcomes(build: Build, devices: seq<Entry>, ip: Ip, mac: Mac): seq<Outcome<Buffer>> {
    seq(|devices|, i requires 0 <= i < |devices| => PingFrameOf(build, devices[i].device, ip, mac))
  }

  /** The results of a sequence of fallible steps, if none of them fails. */
  function AllBuilt(rs: seq<Outcome<Buffer>>): Outcome<seq<Buffer>> {
    if rs == [] then Ok([])
    else
      match AllBuilt(rs[..|rs| - 1])
      case Ok(frames) => (match rs[|rs| - 1] case Ok(f) => Ok(frames + [f]) case _ => Panic)
      case _ => Panic
  }

  /** One ping frame per device, all of which must be built. */
  function PingFrames(build: Build, devices: seq<Entry>, ip: Ip, mac: Mac): Outcome<seq<Buffer>> {
    AllBuilt(PingOutcomes(build, devices, ip, mac))
  }

  lemma AllBuiltNext(rs: seq<Outcome<Buffer>>, i: nat)
    requires i < |rs| && AllBuilt(rs[..i]).Ok?
    ensures AllBuilt(rs[..i + 1]) == if rs[i].Ok? then Ok(AllBuilt(rs[..i]).value + [rs[i].value]) else Panic
  {
    assert rs[..i + 1][..i] == rs[..i];
  }

  lemma {:induction false} AllBuiltStuck(rs: seq<Outcome<Buffer>>, n: nat)
    requires n <= |rs| && AllBuilt(rs[..n]).Panic?
    ensures AllBuilt(rs).Panic?
  {
    if n < |rs| {
      assert rs[..|rs| - 1][..n] == rs[..n];
      AllBuiltStuck(rs[..|rs| - 1], n);
    } else {
      assert rs[..n] == rs;
    }
  }

  lemma {:induction false} AllBuiltAt(rs: seq<Outcome<Buffer>>, frames: seq<Buffer>, k: nat)
    requires AllBuilt(rs) == Ok(frames)
    ensures |frames| == |rs| && (k < |rs| ==> rs[k] == Ok(frames[k]))
  {
    if rs != [] { AllBuiltAt(rs[..|rs| - 1], frames[..|frames| - 1], k); }
  }

  function Words(ip: Ip): nat {
    FromBe16(ip[..2]) + FromBe16(ip[2..])
  }

  lemma PingSum()
    ensures Icmp.MessageSum(Icmp.EchoRequest(0x1234, 0x2345), [], 0) == 0x3d79
  {
    var kind := Icmp.EchoRequest(0x1234, 0x2345);
    var s := Icmp.TypeBytes(kind) + [0, 0] + Icmp.Rest(kind, [], 0);
    assert s == [8, 0, 0, 0] + [0x12, 0x34, 0x23, 0x45];
    SumConcat([8, 0, 0, 0], [0x12, 0x34, 0x23, 0x45]);
    Ipv4.SumOfTwo([8, 0, 0, 0]);
    Ipv4.SumOfTwo([0x12, 0x34, 0x23, 0x45]);
  }

  /** A ping can be sent, in a checked build, exactly if the sum of the words of both addresses
      and of the fixed header words folds with a single carry. */
  lemma PingBuiltIff(build: Build, source: Ip, sourceMac: Mac, ip: Ip, mac: Mac)
    ensures PingFrame(build, source, sourceMac, ip, mac).Ok? <==>
              build.Wrapping? || SingleCarry(0x6b51 + Words(source) + Words(ip))
  {
    Icmp.MessageBuilt(build, Icmp.EchoRequest(0x1234, 0x2345), PingBuilder(source, sourceMac, ip, mac), Payload([], Ok(0)), 0);
    Ipv4.BuiltHeaderSum(PingBuilder(source, sourceMac, ip, mac), 8);
    PingSum();
  }

  /** An unconfigured device pings 255.255.148.175. */
  ghost predicate Unlucky(source: Ip, ip: Ip) {
    source == [0, 0, 0, 0] && ip == [255, 255, 148, 175]
  }

  lemma UnluckySum(source: Ip, sourceMac: Mac, ip: Ip, mac: Mac)
    requires Unlucky(source, ip)
    ensures Ipv4.HeaderSum(Ipv4.BuiltHeader(PingBuilder(source, sourceMac, ip, mac), 8)) == 0x1_ffff
  {
    assert ip[..2] == [255, 255] && ip[2..] == [148, 175];
    assert source[..2] == [0, 0] && source[2..] == [0, 0];
    Ipv4.BuiltHeaderSum(PingBuilder(source, sourceMac, ip, mac), 8);
  }

  /** In a checked build that panics. */
  lemma UnluckyPing(source: Ip, sourceMac: Mac, ip: Ip, mac: Mac)
    requires Unlucky(source, ip)
    ensures PingFrame(Checked, source, sourceMac, ip, mac).Panic?
  {
    UnluckySum(source, sourceMac, ip, mac);
    assert Complement(Checked, 0x1_ffff).Panic?;
  }

  /** In an unchecked build the header does not verify. */
  lemma UnverifiedPing(source: Ip, sourceMac: Mac, ip: Ip, mac: Mac, h: Ipv4.Header)
    requires Unlucky(source, ip) && h == Ipv4.BuiltHeader(PingBuilder(source, sourceMac, ip, mac), 8)
    ensures PingFrame(Wrapping, source, sourceMac, ip, mac).Ok?
    ensures Ipv4.SetChecksum(Wrapping, h).Ok? && !Verifies(Ipv4.ToBytes(Ipv4.SetChecksum(Wrapping, h).value))
  {
    PingBuiltIff(Wrapping, source, sourceMac, ip, mac);
    UnluckySum(source, sourceMac, ip, mac);
    Ipv4.ChecksumExactly(Wrapping, h);
  }

  // ---- Frames by their bytes ----

  /** A frame for this device, or for everybody. */
  predicate Mine(b: Buffer, mac: Mac)
    requires |b.data| == 2048
  {
    b.data[0..6] == mac || b.data[0..6] == [0xff, 0xff, 0xff, 0xff, 0xff, 0xff]
  }

  /** A frame for somebody else changes nothing. */
  lemma NotMineIgnored(build: Build, net: Net, id: nat, b: Buffer, i: nat)
    requires |b.data| == 2048 && i == FindDevice(net.devices, id) < |net.devices| && !Mine(b, net.devices[i].device.mac)
    ensures HandleFrame(build, net, id, b) == Ok(net)
  {}

  /** A frame long enough for an ARP packet behind its header. */
  predicate ArpFits(b: Buffer) {
    42 <= b.len <= 2048
  }

  /** An ARP packet by the places of its fields (RFC 826). */
  lemma ArpByPlaces(build: Build, mac: Mac, b: Buffer)
    requires |b.data| == 2048 && Mine(b, mac) && b.data[12..14] == [0x08, 0x06] && ArpFits(b)
    ensures Classify(build, mac, b) ==
              if Number(b.data[20..22]) == 1 then ArpRequest(b.data[22..28], b.data[28..32], b.data[38..42])
              else if Number(b.data[20..22]) == 2 then ArpResponse(b.data[28..32], b.data[22..28])
              else Ignored
  {
    var content := b.data[14..b.len];
    SliceOfSlice(b.data, 14, b.len, 6, 8);
    SliceOfSlice(b.data, 14, b.len, 8, 14);
    SliceOfSlice(b.data, 14, b.len, 14, 18);
    SliceOfSlice(b.data, 14, b.len, 24, 28);
    NumberOfTwo(b.data[20..22]);
  }

  /** A frame is an ARP response with these addresses if and only if its bytes say so. */
  lemma ResponseIff(build: Build, mac: Mac, b: Buffer, ip: Ip, from: Mac)
    requires |b.data| == 2048
    ensures Classify(build, mac, b) == ArpResponse(ip, from) <==>
              && Mine(b, mac) && b.data[12..14] == [0x08, 0x06] && ArpFits(b)
              && Number(b.data[20..22]) == 2 && b.data[28..32] == ip && b.data[22..28] == from
  {
    TypesAreAssigned(b.data[12..14]);
    if Mine(b, mac) && b.data[12..14] == [0x08, 0x06] && ArpFits(b) { ArpByPlaces(build, mac, b); }
  }

  /** Where the payload of the IPv4 packet in a frame starts. */
  function PayloadAt(b: Buffer): nat
    requires |b.data| == 2048
  {
    14 + b.data[14] % 16 * 4
  }

  /** An IPv4 packet for this device whose header has at least 20 bytes and ends in the frame. */
  predicate Ipv4Fits(b: Buffer, mac: Mac)
    requires |b.data| == 2048
  {
    Mine(b, mac) && b.data[12..14] == [0x08, 0x00] && 34 <= PayloadAt(b) <= b.len <= 2048
  }

  lemma Ipv4ByPlaces(build: Build, mac: Mac, b: Buffer)
    requires |b.data| == 2048 && Ipv4Fits(b, mac)
    ensures var payload := b.data[PayloadAt(b)..b.len];
            Classify(build, mac, b) ==
              if b.data[23] == 1 then ClassifyIcmp(b.data[26..30], Ok(payload))
              else if b.data[23] == 17 then ClassifyUdp(build, b) else Ignored
    ensures Ipv4.ParsePayload(Content(b).value) == Ok(b.data[PayloadAt(b)..b.len])
  {
    var content := b.data[14..b.len];
    assert content[0] == b.data[14] && content[9] == b.data[23];
    Ipv4.ParsedByPlaces(content);
    SliceOfSlice(b.data, 14, b.len, 12, 16);
    SliceOfSlice(b.data, 14, b.len, content[0] % 16 * 4, b.len - 14);
    assert content[content[0] % 16 * 4..] == content[content[0] % 16 * 4..b.len - 14];
    Ipv4.ProtocolsAreAssigned(b.data[23]);
  }

  /** Anything else is no packet of a known protocol. */
  lemma Ipv4Only(build: Build, mac: Mac, b: Buffer)
    requires |b.data| == 2048 && !Ipv4Fits(b, mac)
    ensures var e := Classify(build, mac, b); !e.EchoReply? && !e.DhcpPacket? && !e.OtherUdp?
  {
    TypesAreAssigned(b.data[12..14]);
    if Mine(b, mac) && b.data[12..14] == [0x08, 0x00] && 14 < b.len <= 2048 {
      assert b.data[14..b.len][0] == b.data[14];
    }
  }

  /** A frame is an echo reply from this address if and only if its bytes say so. */
  lemma EchoReplyIff(build: Build, mac: Mac, b: Buffer, source: Ip)
    requires |b.data| == 2048
    ensures Classify(build, mac, b) == EchoReply(source) <==>
              && Ipv4Fits(b, mac) && b.data[23] == 1 && PayloadAt(b) + 8 <= b.len
              && b.data[PayloadAt(b)] == 0 && b.data[PayloadAt(b) + 1] == 0 && b.data[26..30] == source
  {
    if Ipv4Fits(b, mac) { Ipv4ByPlaces(build, mac, b); } else { Ipv4Only(build, mac, b); }
  }

  lemma PortsByPlaces(b: Buffer, at: nat)
    requires |b.data| == 2048 && 34 <= at <= b.len <= 2048 && Ipv4.ParsePayload(Content(b).value) == Ok(b.data[at..b.len])
    ensures Udp.ParseHeader(b).Ok? <==> at + 8 <= b.len
    ensures Udp.ParseHeader(b).Ok? ==>
              && Udp.ParseHeader(b).value.sourcePort == Number(b.data[at..at + 2])
              && Udp.ParseHeader(b).value.destinationPort == Number(b.data[at + 2..at + 4])
              && Udp.ParsePayload(b) == Ok(b.data[at + 8..b.len])
  {
    var datagram := b.data[at..b.len];
    if at + 8 <= b.len {
      SliceOfSlice(b.data, at, b.len, 0, 8);
      SliceOfSlice(b.data, at, at + 8, 0, 2);
      SliceOfSlice(b.data, at, at + 8, 2, 4);
      NumberOfTwo(b.data[at..at + 2]);
      NumberOfTwo(b.data[at + 2..at + 4]);
      assert datagram[8..] == b.data[at + 8..b.len];
    }
  }

  /** A datagram for this device from the DHCP server port to the client port. */
  predicate DhcpPorts(b: Buffer, mac: Mac)
    requires |b.data| == 2048
  {
    && Ipv4Fits(b, mac) && b.data[23] == 17 && PayloadAt(b) + 8 <= b.len
    && Number(b.data[PayloadAt(b)..PayloadAt(b) + 2]) == 67 && Number(b.data[PayloadAt(b) + 2..PayloadAt(b) + 4]) == 68
  }

  /** A frame is a DHCP packet if and only if it is such a datagram and its payload parses. */
  lemma DhcpIff(build: Build, mac: Mac, b: Buffer, data: Dhcp.Data)
    requires |b.data| == 2048
    ensures Classify(build, mac, b) == DhcpPacket(data) <==>
              DhcpPorts(b, mac) && Dhcp.Parse(build, b.data[PayloadAt(b) + 8..b.len]) == Ok(data)
  {
    if Ipv4Fits(b, mac) {
      Ipv4ByPlaces(build, mac, b);
      PortsByPlaces(b, PayloadAt(b));
    } else {
      Ipv4Only(build, mac, b);
    }
  }

  /** Another datagram changes nothing, unless it is shorter than its header. */
  lemma OtherPortsIgnored(build: Build, net: Net, id: nat, b: Buffer, i: nat)
    requires |b.data| == 2048 && i == FindDevice(net.devices, id) < |net.devices|
    requires var mac := net.devices[i].device.mac;
             Ipv4Fits(b, mac) && b.data[23] == 17 && PayloadAt(b) + 8 <= b.len && !DhcpPorts(b, mac)
    ensures HandleFrame(build, net, id, b) == Ok(net)
  {
    Ipv4ByPlaces(build, net.devices[i].device.mac, b);
    PortsByPlaces(b, PayloadAt(b));
  }

  /** A packet of another protocol, and a frame of another type, change nothing. */
  lemma OtherProtocolsIgnored(build: Build, net: Net, id: nat, b: Buffer, i: nat)
    requires |b.data| == 2048 && i == FindDevice(net.devices, id) < |net.devices|
    requires || (Ipv4Fits(b, net.devices[i].device.mac) && b.data[23] !in {1, 17})
             || b.data[12..14] !in {[0x08, 0x00], [0x08, 0x06], [0x08, 0x42]}
    ensures HandleFrame(build, net, id, b) == Ok(net)
  {
    TypesAreAssigned(b.data[12..14]);
    if Ipv4Fits(b, net.devices[i].device.mac) { Ipv4ByPlaces(build, net.devices[i].device.mac, b); }
  }

  // ---- What the handler sends, by its bytes ----

  /** An ARP packet on the wire (RFC 826), for IPv4 over Ethernet. */
  ghost predicate ArpOnWire(f: Buffer, operation: u16, fromMac: Mac, fromIp: Ip, toMac: Mac, toIp: Ip) {
    && |f.data| == 2048 && f.len == 60 && f.data[0..6] == toMac && f.data[6..12] == fromMac && f.data[12..14] == [0x08, 0x06]
    && f.data[14..20] == [0, 1, 8, 0, 6, 4] && Number(f.data[20..22]) == operation
    && f.data[22..28] == fromMac && f.data[28..32] == fromIp && f.data[32..38] == toMac && f.data[38..42] == toIp
  }

  lemma ArpFrameBytes(operation: u16, fromMac: Mac, fromIp: Ip, toMac: Mac, toIp: Ip)
    ensures ArpOnWire(ArpFrame(operation, fromMac, fromIp, toMac, toIp).value, operation, fromMac, fromIp, toMac, toIp)
  {
    var f, bytes := ArpFrame(operation, fromMac, fromIp, toMac, toIp).value, ArpBytes(operation, fromMac, fromIp, toMac, toIp);
    FrameBytes(toMac, fromMac, EthType.Arp, Payload(bytes, Ok(28)), f);
    assert f.data[14..42] == bytes;
    ArpPlaces(f.data, operation, fromMac, fromIp, toMac, toIp);
  }

  lemma ArpPlaces(s: seq<byte>, operation: u16, fromMac: Mac, fromIp: Ip, toMac: Mac, toIp: Ip)
    requires |s| >= 42 && s[14..42] == ArpBytes(operation, fromMac, fromIp, toMac, toIp)
    ensures s[14..20] == [0, 1, 8, 0, 6, 4] && Number(s[20..22]) == operation
    ensures s[22..28] == fromMac && s[28..32] == fromIp && s[32..38] == toMac && s[38..42] == toIp
  {
    var bytes := ArpBytes(operation, fromMac, fromIp, toMac, toIp);
    SliceOfSlice(s, 14, 42, 0, 6);
    SliceOfSlice(s, 14, 42, 6, 8);
    SliceOfSlice(s, 14, 42, 8, 14);
    SliceOfSlice(s, 14, 42, 14, 18);
    SliceOfSlice(s, 14, 42, 18, 24);
    SliceOfSlice(s, 14, 42, 24, 28);
    assert bytes[0..6] == [0, 1, 8, 0, 6, 4] && bytes[6..8] == Be16(operation) && bytes[8..14] == fromMac;
    assert bytes[14..18] == fromIp && bytes[18..24] == toMac && bytes[24..28] == toIp;
    NumberOfTwo(s[20..22]);
  }

  /** An ARP request for the device's address is answered with its hardware address, to the one
      that asked, who classifies the answer as that; another one is not answered. */
  lemma RequestsAreAnswered(build: Build, net: Net, i: nat, fromMac: Mac, fromIp: Ip, forIp: Ip)
    requires i < |net.devices|
    ensures var r, d := React(net, i, ArpRequest(fromMac, fromIp, forIp)), net.devices[i].device;
            if d.ip == Some(forIp) then
              && r.Ok? && r.value == net.(sent := r.value.sent) && |r.value.sent| == |net.sent| + 1 && net.sent <= r.value.sent
              && ArpOnWire(r.value.sent[|net.sent|], 2, d.mac, forIp, fromMac, fromIp)
              && Classify(build, fromMac, r.value.sent[|net.sent|]) == ArpResponse(forIp, d.mac)
            else r == Ok(net)
  {
    var d := net.devices[i].device;
    ArpFrameBytes(2, d.mac, forIp, fromMac, fromIp);
    ArpFrameArrives(build, fromMac, 2, d.mac, forIp, fromMac, fromIp);
  }

  /** The request by which a device asks for an address. */
  ghost predicate QuestionOnWire(f: Buffer, d: DhcpClient.Device, ip: Ip) {
    ArpOnWire(f, 1, d.mac, OwnIp(d.ip), [0xff, 0xff, 0xff, 0xff, 0xff, 0xff], ip)
  }

  lemma QuestionBytes(d: DhcpClient.Device, ip: Ip)
    ensures QuestionOnWire(QuestionOf(d, ip), d, ip)
  {
    ArpFrameBytes(1, d.mac, OwnIp(d.ip), BROADCAST, ip);
  }

  /** To resolve an address, every device broadcasts one request for it. */
  lemma QuestionsOnWire(devices: seq<Entry>, ip: Ip, k: nat)
    requires k < |devices|
    ensures |ArpQuestions(devices, ip)| == |devices| && QuestionOnWire(ArpQuestions(devices, ip)[k], devices[k].device, ip)
  {
    QuestionBytes(devices[k].device, ip);
  }

  /** An echo request on the wire, from this device to these addresses. */
  ghost predicate PingOnWire(f: Buffer, d: DhcpClient.Device, ip: Ip, mac: Mac) {
    && |f.data| == 2048 && f.len == 60 && f.data[0..6] == mac && f.data[6..12] == d.mac && f.data[12..14] == [0x08, 0x00]
    && f.data[14] == 0x45 && Number(f.data[16..18]) == 28 && f.data[22] == 20 && f.data[23] == 1
    && f.data[26..30] == OwnIp(d.ip) && f.data[30..34] == ip
    && f.data[34] == 8 && f.data[35] == 0 && Number(f.data[38..40]) == 0x1234 && Number(f.data[40..42]) == 0x2345
  }

  lemma PingFrameBytes(build: Build, d: DhcpClient.Device, ip: Ip, mac: Mac, f: Buffer)
    requires PingFrameOf(build, d, ip, mac) == Ok(f)
    ensures PingOnWire(f, d, ip, mac)
  {
    Icmp.EchoBytes(build, Icmp.EchoRequest(0x1234, 0x2345), PingBuilder(OwnIp(d.ip), d.mac, ip, mac), Payload([], Ok(0)), 0, f);
  }

  /** To ping an address, every device sends one echo request to it. */
  lemma PingsOnWire(build: Build, devices: seq<Entry>, ip: Ip, mac: Mac, frames: seq<Buffer>, k: nat)
    requires PingFrames(build, devices, ip, mac) == Ok(frames) && k < |devices|
    ensures |frames| == |devices| && PingOnWire(frames[k], devices[k].device, ip, mac)
  {
    AllBuiltAt(PingOutcomes(build, devices, ip, mac), frames, k);
    PingFrameBytes(build, devices[k].device, ip, mac, frames[k]);
  }

  // ---- From an offer and an ack on the wire to an address ----

  /** A DHCP server's message for this device: the fixed fields, options of known form, and a
      message type. */
  ghost predicate ServerMessage(b: Buffer, mac: Mac, f: Dhcp.Fields, opts: seq<Dhcp.Opt>, v: byte, rest: seq<byte>) {
    && |b.data| == 2048 && DhcpPorts(b, mac) && Dhcp.Plain(opts) && Dhcp.NoneEmpty(opts) && rest != []
    && var message := b.data[PayloadAt(b) + 8..b.len];
       |message| >= 240 && Dhcp.LaidOut(message[..240], f) && message[240..] == Dhcp.Encode(opts) + ([53, 1, v] + rest)
  }

  lemma ServerMessageArrives(build: Build, b: Buffer, mac: Mac, f: Dhcp.Fields, opts: seq<Dhcp.Opt>, v: byte, rest: seq<byte>)
    requires ServerMessage(b, mac, f, opts, v, rest)
    ensures var e := Classify(build, mac, b);
            && e.DhcpPacket? && e.data.xid == f.xid && e.data.yiaddr == f.yiaddr && e.data.siaddr == f.siaddr
            && (e.data.operation == Dhcp.Offer <==> v == 2) && (e.data.operation == Dhcp.Ack <==> v == 5)
  {
    var message := b.data[PayloadAt(b) + 8..b.len];
    Dhcp.MessageParses(build, message[..240], f, opts, v, rest);
    assert message == message[..240] + message[240..];
    DhcpIff(build, mac, b, Dhcp.Parse(build, message).value);
  }

  /** A built datagram from port 67 to 68, to the device or broadcast, that carries such a message
      is one. */
  lemma ServerMessageBuilt(build: Build, b: Buffer, mac: Mac, ip: Ipv4.Builder, fixed: seq<byte>, f: Dhcp.Fields, opts: seq<Dhcp.Opt>, v: byte, rest: seq<byte>)
    requires |fixed| == 240 && Dhcp.LaidOut(fixed, f) && Dhcp.Plain(opts) && Dhcp.NoneEmpty(opts) && rest != [] && ip.protocol == Ipv4.Udp
    requires ip.destinationMac == mac || ip.destinationMac == BROADCAST
    requires var bytes := fixed + (Dhcp.Encode(opts) + ([53, 1, v] + rest));
             Udp.Datagram(build, 67, 68, ip, Payload(bytes, Ok(|bytes|)), |bytes|) == Ok(b)
    ensures ServerMessage(b, mac, f, opts, v, rest)
  {
    var options := Dhcp.Encode(opts) + ([53, 1, v] + rest);
    BuiltForClient(build, b, mac, ip, fixed + options);
    assert (fixed + options)[..240] == fixed && (fixed + options)[240..] == options;
  }

  /** A built datagram from port 67 to 68, and its payload. */
  lemma BuiltForClient(build: Build, b: Buffer, mac: Mac, ip: Ipv4.Builder, bytes: seq<byte>)
    requires (ip.destinationMac == mac || ip.destinationMac == BROADCAST) && |bytes| >= 18 && ip.protocol == Ipv4.Udp && Udp.Datagram(build, 67, 68, ip, Payload(bytes, Ok(|bytes|)), |bytes|) == Ok(b)
    ensures |b.data| == 2048 && DhcpPorts(b, mac) && b.data[PayloadAt(b) + 8..b.len] == bytes
  {
    Udp.DatagramBytes(build, 67, 68, ip, Payload(bytes, Ok(|bytes|)), |bytes|, b);
    OnWireForClient(b, mac, ip, bytes);
  }

  lemma OnWireForClient(b: Buffer, mac: Mac, ip: Ipv4.Builder, bytes: seq<byte>)
    requires (ip.destinationMac == mac || ip.destinationMac == BROADCAST) && |bytes| >= 18 && ip.protocol == Ipv4.Udp && Udp.OnWire(b, 67, 68, ip, bytes, |bytes|)
    ensures DhcpPorts(b, mac) && b.data[PayloadAt(b) + 8..b.len] == bytes
  {
    assert PayloadAt(b) == 34;
  }

  lemma {:induction false} DhcpOfConcat(build: Build, id: nat, mac: Mac, a: seq<Input>, b: seq<Input>)
    requires Received(a) && Received(b)
    ensures Received(a + b) && DhcpOf(build, id, mac, a + b) == DhcpOf(build, id, mac, a) + DhcpOf(build, id, mac, b)
  {
    if b == [] {
      assert a + b == a;
    } else {
      DhcpOfConcat(build, id, mac, a, b[..|b| - 1]);
      assert (a + b)[..|a + b| - 1] == a + b[..|b| - 1];
    }
  }

  lemma DhcpOfOne(build: Build, id: nat, mac: Mac, b: Buffer)
    requires |b.data| == 2048 && Classify(build, mac, b).DhcpPacket?
    ensures DhcpOf(build, id, mac, [Input(id, b)]) == [Classify(build, mac, b).data]
  {
    assert [Input(id, b)][..0] == [];
  }

  /** The packets of a device: those before the offer, the offer, those up to the ack, the ack. */
  lemma PacketsInOrder(build: Build, id: nat, mac: Mac, before: seq<Input>, offer: Buffer, between: seq<Input>, ack: Buffer, after: seq<Input>)
    requires Received(before) && Received(between) && Received(after) && |offer.data| == 2048 && |ack.data| == 2048
    requires Classify(build, mac, offer).DhcpPacket? && Classify(build, mac, ack).DhcpPacket?
    ensures var all := before + [Input(id, offer)] + between + [Input(id, ack)] + after;
            && Received(all)
            && DhcpOf(build, id, mac, all) ==
                 DhcpOf(build, id, mac, before) + [Classify(build, mac, offer).data] + DhcpOf(build, id, mac, between)
                 + [Classify(build, mac, ack).data] + DhcpOf(build, id, mac, after)
  {
    DhcpOfOne(build, id, mac, offer);
    DhcpOfOne(build, id, mac, ack);
    DhcpOfConcat(build, id, mac, before, [Input(id, offer)]);
    DhcpOfConcat(build, id, mac, before + [Input(id, offer)], between);
    DhcpOfConcat(build, id, mac, before + [Input(id, offer)] + between, [Input(id, ack)]);
    DhcpOfConcat(build, id, mac, before + [Input(id, offer)] + between + [Input(id, ack)], after);
  }

  lemma OfferThenAck(first: seq<Dhcp.Data>, offer: Dhcp.Data, middle: seq<Dhcp.Data>, ack: Dhcp.Data, last: seq<Dhcp.Data>)
    requires (forall k: nat :: k < |first| ==> !DhcpClient.IsOffer(first[k])) && DhcpClient.IsOffer(offer) && DhcpClient.IsAck(ack)
    ensures var packets := first + [offer] + middle + [ack] + last;
            && DhcpClient.FirstOffer(packets) == |first| && packets[|first|] == offer && DhcpClient.AckedAfter(packets, |first|)
  {
    var packets := first + [offer] + middle + [ack] + last;
    var i := DhcpClient.FirstOffer(packets);
    assert packets[|first|] == offer;
    assert packets[|first| + 1 + |middle|] == ack;
  }

  /** An offer with the client's transaction arrives at a device that had none before, and an ack
      some time after it, among any other frames: then the device is bound to the address in the
      offer's yiaddr field. */
  lemma OfferedAddressIsBound(build: Build, net: Net, before: seq<Input>, offer: Buffer, between: seq<Input>, ack: Buffer, after: seq<Input>,
                              net': Net, i: nat, mac: Mac, id: nat, f: Dhcp.Fields, g: Dhcp.Fields,
                              opts: seq<Dhcp.Opt>, opts': seq<Dhcp.Opt>, rest: seq<byte>, rest': seq<byte>)
    requires Received(before) && Received(between) && Received(after) && DistinctIds(net.devices) && i < |net.devices|
    requires net.devices[i] == Entry(id, DhcpClient.Start(DhcpClient.Fresh(mac)))
    requires ServerMessage(offer, mac, f, opts, 2, rest) && f.xid == 0x12345678
    requires ServerMessage(ack, mac, g, opts', 5, rest') && g.xid == 0x12345678
    requires forall k: nat :: k < |DhcpOf(build, id, mac, before)| ==> !DhcpClient.IsOffer(DhcpOf(build, id, mac, before)[k])
    requires var all := before + [Input(id, offer)] + between + [Input(id, ack)] + after; Received(all) && HandleAll(build, net, all) == Ok(net')
    ensures i < |net'.devices| && net'.devices[i].device.ip == Some(f.yiaddr)
  {
    ServerMessageArrives(build, offer, mac, f, opts, 2, rest);
    ServerMessageArrives(build, ack, mac, g, opts', 5, rest');
    PacketsInOrder(build, id, mac, before, offer, between, ack, after);
    OfferThenAck(DhcpOf(build, id, mac, before), Classify(build, mac, offer).data, DhcpOf(build, id, mac, between),
                 Classify(build, mac, ack).data, DhcpOf(build, id, mac, after));
    AddressIsFirstOffer(build, net, before + [Input(id, offer)] + between + [Input(id, ack)] + after, net', i, mac);
  }
}
