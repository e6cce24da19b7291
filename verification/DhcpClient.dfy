/** The DHCP client of a network device (section 4.4 of RFC 2131): from discover to a bound
    address, driven by received packets. */
module DhcpClient {
  import opened Bytes
  import opened Runs
  import Dhcp
  import Ethernet

  datatype Exchange =
    | Initial
    | Discovering(xid: u32)
    | Requested(xid: u32, ownIp: Ip, serverIp: Ip)
    | Done

  /** A message handed to the packet queue, by the arguments it is built from. */
  datatype Sent = DiscoverSent(xid: u32) | RequestSent(xid: u32, ip: Ip, server: Ip)

  /** A device's metadata, the indicator shared with whoever waits for an address, and the
      messages put on its packet queue. */
  datatype Device = Device(mac: Mac, ip: Option<Ip>, dhcp: Exchange, indicator: bool, outgoing: seq<Sent>)

  const TX_ID: u32 := 0x12345678

  /** A device as the driver creates it. */
  function Fresh(mac: Mac): Device {
    Device(mac, None, Initial, false, [])
  }

  /** What the handler does for each device when it starts. */
  function Start(d: Device): Device {
    d.(dhcp := Discovering(TX_ID), indicator := false, outgoing := d.outgoing + [DiscoverSent(TX_ID)])
  }

  /** The reaction to one DHCP packet. */
  function Receive(d: Device, data: Dhcp.Data): Device {
    if d.dhcp.Discovering? && data.operation == Dhcp.Offer && d.dhcp.xid == data.xid then
      d.(dhcp := Requested(data.xid, data.yiaddr, data.siaddr),
         outgoing := d.outgoing + [RequestSent(data.xid, data.yiaddr, data.siaddr)])
    else if d.dhcp.Requested? && data.operation == Dhcp.Ack && d.dhcp.xid == data.xid then
      d.(dhcp := Done, ip := Some(d.dhcp.ownIp), indicator := true)
    else d
  }

  function ReceiveAll(d: Device, packets: seq<Dhcp.Data>): Device {
    if packets == [] then d else Receive(ReceiveAll(d, packets[..|packets| - 1]), packets[|packets| - 1])
  }

  /** The device object. The exchange is taken out of the metadata before it is matched, and
      has to be put back on every path. */
  class NetDevice {
    const mac: Mac
    var ip: Option<Ip>
    var dhcp: Exchange
    var indicator: bool
    var outgoing: seq<Sent>

    ghost function View(): Device
      reads this
    {
      Device(mac, ip, dhcp, indicator, outgoing)
    }

    constructor (mac: Mac)
      ensures View() == Fresh(mac)
    {
      this.mac := mac;
      ip, dhcp, indicator, outgoing := None, Initial, false, [];
    }

    method StartExchange()
      modifies this
      ensures View() == Start(old(View()))
    {
      indicator := false;
      dhcp := Discovering(TX_ID);
      outgoing := outgoing + [DiscoverSent(TX_ID)];
    }

    method HandleDhcp(data: Dhcp.Data)
      modifies this
      ensures View() == Receive(old(View()), data)
    {
      var taken := dhcp;
      dhcp := Initial;
      match taken {
        case Discovering(xid) =>
          if data.operation == Dhcp.Offer && xid == data.xid {
            var offeredIp, serverIp := data.yiaddr, data.siaddr;
            outgoing := outgoing + [RequestSent(xid, offeredIp, serverIp)];
            dhcp := Requested(xid, offeredIp, serverIp);
            return;
          }
        case Requested(xid, ownIp, _) =>
          if data.operation == Dhcp.Ack && xid == data.xid {
            dhcp := Done;
            ip := Some(ownIp);
            indicator := true;
            return;
          }
        case _ =>
      }
      dhcp := taken;
    }
  }

  // ---- Runs ----

  predicate IsOffer(data: Dhcp.Data) {
    data.operation == Dhcp.Offer && data.xid == TX_ID
  }

  predicate IsAck(data: Dhcp.Data) {
    data.operation == Dhcp.Ack && data.xid == TX_ID
  }

  /** Position of the first matching offer, |packets| if there is none. */
  function FirstOffer(packets: seq<Dhcp.Data>): (i: nat)
    ensures i <= |packets| && (forall j: nat :: j < i ==> !IsOffer(packets[j]))
    ensures i < |packets| ==> IsOffer(packets[i])
  {
    if packets == [] then 0
    else
      var i := FirstOffer(packets[..|packets| - 1]);
      if i < |packets| - 1 || IsOffer(packets[|packets| - 1]) then i else |packets|
  }

  ghost predicate AckedAfter(packets: seq<Dhcp.Data>, i: nat) {
    exists j: nat :: i < j < |packets| && IsAck(packets[j])
  }

  /** The state after any sequence of packets, in terms of the sequence as a whole: the first
      matching offer is the one that counts, and a matching ack after it completes the
      exchange. */
  ghost function Expected(mac: Mac, packets: seq<Dhcp.Data>): Device {
    var i, discover := FirstOffer(packets), DiscoverSent(TX_ID);
    if i == |packets| then Device(mac, None, Discovering(TX_ID), false, [discover])
    else
      var offer := packets[i];
      var sent := [discover, RequestSent(TX_ID, offer.yiaddr, offer.siaddr)];
      if AckedAfter(packets, i) then Device(mac, Some(offer.yiaddr), Done, true, sent)
      else Device(mac, None, Requested(TX_ID, offer.yiaddr, offer.siaddr), false, sent)
  }

  /** Any sequence of packets, handled one by one, leads to that state. */
  lemma {:induction false} ExchangeOutcome(mac: Mac, packets: seq<Dhcp.Data>)
    ensures ReceiveAll(Start(Fresh(mac)), packets) == Expected(mac, packets)
  {
    if packets != [] {
      var init, last := packets[..|packets| - 1], packets[|packets| - 1];
      ExchangeOutcome(mac, init);
      var i := FirstOffer(init);
      if i < |init| {
        if AckedAfter(init, i) {
          var j: nat :| i < j < |init| && IsAck(init[j]);
          assert IsAck(packets[j]);
        }
        if AckedAfter(packets, i) && !IsAck(last) {
          var j: nat :| i < j < |packets| && IsAck(packets[j]);
          assert IsAck(init[j]);
        }
        if IsAck(last) { assert IsAck(packets[|init|]); }
      }
    }
  }

  function Phase(e: Exchange): nat {
    match e case Initial => 0 case Discovering(_) => 1 case Requested(_, _, _) => 2 case Done => 3
  }

  /** After any packets: the address is set, the exchange done and the indicator true, all or
      none; the address is the one of the first matching offer; one more packet never moves
      the exchange back, and changes something exactly if it is the offer or ack waited for. */
  lemma RunInvariant(mac: Mac, packets: seq<Dhcp.Data>, next: Dhcp.Data)
    ensures var d := ReceiveAll(Start(Fresh(mac)), packets);
            && (d.ip.Some? <==> d.dhcp.Done?) && (d.indicator <==> d.dhcp.Done?)
            && (d.ip.Some? ==> FirstOffer(packets) < |packets| && d.ip.value == packets[FirstOffer(packets)].yiaddr)
            && Phase(d.dhcp) <= Phase(Receive(d, next).dhcp)
            && (Receive(d, next) != d <==>
                  (d.dhcp.Discovering? && IsOffer(next)) || (d.dhcp.Requested? && IsAck(next)))
  {
    ExchangeOutcome(mac, packets);
  }

  /** The frame a message is sent as, with the identifications the handler uses. Building it
      never fails. */
  function Built(build: Build, mac: Mac, m: Sent): (r: Outcome<Ethernet.Buffer>)
    ensures r.Ok?
  {
    match m
    case DiscoverSent(xid) =>
      Dhcp.ClientMessagesBuilt(build, mac, xid, [0, 0, 0, 0], [0, 0, 0, 0], 13);
      Dhcp.DiscoverMessage(build, mac, xid, 13)
    case RequestSent(xid, ip, server) =>
      Dhcp.ClientMessagesBuilt(build, mac, xid, ip, server, 0);
      Dhcp.RequestMessage(build, mac, xid, ip, server, 0)
  }

  /** The frame of a message decodes, through all layers, to what was sent. */
  ghost predicate Decoded(build: Build, mac: Mac, m: Sent) {
    var f := Built(build, mac, m).value;
    match m
    case DiscoverSent(xid) => Dhcp.Decodes(build, f, mac, 244, Dhcp.ClientData(mac, xid, [0, 0, 0, 0], [0, 0, 0, 0], Dhcp.Discover))
    case RequestSent(xid, ip, server) => Dhcp.Decodes(build, f, mac, 257, Dhcp.ClientData(mac, xid, ip, server, Dhcp.Request))
  }

  lemma SentDecodes(build: Build, mac: Mac, m: Sent)
    ensures Decoded(build, mac, m)
  {
    match m
    case DiscoverSent(xid) => Dhcp.DiscoverParsesBack(build, mac, xid, 13, Built(build, mac, m).value);
    case RequestSent(xid, ip, server) => Dhcp.RequestParsesBack(build, mac, xid, ip, server, 0, Built(build, mac, m).value);
  }

  /** The messages sent over a whole run: the discover, and one request for the first matching
      offer; the network decodes the request to that offer's address and server. */
  lemma RunSends(build: Build, mac: Mac, packets: seq<Dhcp.Data>)
    ensures var out, i := ReceiveAll(Start(Fresh(mac)), packets).outgoing, FirstOffer(packets);
            && out == [DiscoverSent(TX_ID)]
                      + (if i < |packets| then [RequestSent(TX_ID, packets[i].yiaddr, packets[i].siaddr)] else [])
            && forall k: nat :: k < |out| ==> Decoded(build, mac, out[k])
  {
    ExchangeOutcome(mac, packets);
    var out := ReceiveAll(Start(Fresh(mac)), packets).outgoing;
    forall k: nat | k < |out| ensures Decoded(build, mac, out[k]) { SentDecodes(build, mac, out[k]); }
  }
}
