/**
  Ethernet, ARP, IPv4 and UDP frames: the generators, the parsers with the places where they
  reject or panic, and the round trips through all layers.
 */
module Frames {
  import opened Memory
  import opened Checksum

  /** The result of a parser: a value, a rejected frame, or a slice out of bounds. */
  datatype Parsed<+T> = Ok(value: T) | Invalid | Panic {
    predicate IsFailure() { !Ok? }
    function PropagateFailure<U>(): Parsed<U>
      requires IsFailure()
    {
      if Invalid? then Invalid else Panic
    }
    function Extract(): T
      requires !IsFailure()
    {
      value
    }
  }

  function Slice(s: seq<byte>, from: nat, to: nat): Parsed<seq<byte>>
  {
    if from <= to <= |s| then Ok(s[from..to]) else Panic
  }

  function ReadU16(s: seq<byte>, i: nat): Parsed<u16>
  {
    if i + 2 <= |s| then Ok(U16At(s, i)) else Panic
  }

  type Mac = s: seq<byte> | |s| == 6 witness [0, 0, 0, 0, 0, 0]
  type IpAddr = s: seq<byte> | |s| == 4 witness [0, 0, 0, 0]

  // ---------------------------------------------------------------- Ethernet

  const ETHERTYPE_IPV4: u16 := 0x0800
  const ETHERTYPE_ARP: u16 := 0x0806
  const DOT1Q_ID: u16 := 0x8100
  const MIN_LENGTH: nat := 60

  function Zeros(n: nat): (z: seq<byte>)
    ensures |z| == n
  {
    seq(n, _ => 0)
  }

  function EthernetFrame(dest: Mac, source: Mac, etherType: u16, payload: seq<byte>): (f: seq<byte>)
    ensures |f| == if 14 + |payload| < MIN_LENGTH then MIN_LENGTH else 14 + |payload|
  {
    var frame := dest + source + Be16(etherType) + payload;
    if |frame| < MIN_LENGTH then frame + Zeros(MIN_LENGTH - |frame|) else frame
  }

  function EtherTypeOffset(packet: seq<byte>): Parsed<nat>
  {
    var tag :- ReadU16(packet, 12);
    Ok(if tag == DOT1Q_ID then 16 else 12)
  }

  datatype Ethernet = Ethernet(dest: seq<byte>, source: seq<byte>, etherType: u16, payload: seq<byte>)

  /** `EthernetFrame::new` and its accessors; the last four bytes are the CRC. */
  function ParseEthernet(packet: seq<byte>): Parsed<Ethernet>
  {
    if |packet| < 14 then Invalid
    else
      var offset :- EtherTypeOffset(packet);
      if (offset == 16 && |packet| < 18) || |packet| - 4 <= offset + 2 then Invalid
      else
        var etherType :- ReadU16(packet, offset);
        var payload :- Slice(packet, offset + 2, |packet| - 4);
        Ok(Ethernet(packet[0..6], packet[6..12], etherType, payload))
  }

  /** Any CRC appended to a generated frame: the parser returns the addresses and the type, and the
      payload followed by padding. */
  lemma EthernetRoundTrip(dest: Mac, source: Mac, etherType: u16, payload: seq<byte>, crc: seq<byte>)
    requires |crc| == 4 && etherType != DOT1Q_ID
    ensures
      var e := ParseEthernet(EthernetFrame(dest, source, etherType, payload) + crc);
      && e.Ok? && e.value.dest == dest && e.value.source == source && e.value.etherType == etherType
      && payload <= e.value.payload
      && |e.value.payload| == if 14 + |payload| < MIN_LENGTH then MIN_LENGTH - 14 else |payload|
  {
    var packet := EthernetFrame(dest, source, etherType, payload) + crc;
    U16Be16(etherType);
    assert packet[12..14] == Be16(etherType);
    assert packet[12] == Be16(etherType)[0] && packet[13] == Be16(etherType)[1];
    assert packet[0..6] == dest && packet[6..12] == source;
    assert packet[14..14 + |payload|] == payload;
  }

  /** `generate_ethernet_frame` */
  method GenerateEthernetFrame(dest: Mac, source: Mac, etherType: u16, payload: seq<byte>) returns (ret: seq<byte>)
    ensures ret == EthernetFrame(dest, source, etherType, payload)
  {
    ret := [];
    ret := ret + dest;
    ret := ret + source;
    ret := ret + Be16(etherType);
    ret := ret + payload;
    if |ret| < MIN_LENGTH {
      ret := ret + Zeros(MIN_LENGTH - |ret|);
    }
  }

  // ---------------------------------------------------------------- ARP

  datatype ArpOperation = Request | Reply

  datatype ArpParams = ArpParams(
    hardwareType: u16, protocolType: u16, hardwareLength: byte, protocolLength: byte, operation: ArpOperation,
    senderHardware: Mac, senderProtocol: IpAddr, targetHardware: Mac, targetProtocol: IpAddr)

  function ArpFrame(p: ArpParams): (f: seq<byte>)
    ensures |f| == 28
  {
    Be16(p.hardwareType) + Be16(p.protocolType) + [p.hardwareLength, p.protocolLength]
    + Be16(if p.operation.Request? then 1 else 2)
    + p.senderHardware + p.senderProtocol + p.targetHardware + p.targetProtocol
  }

  /** `generate_arp_frame` */
  method GenerateArpFrame(p: ArpParams) returns (ret: seq<byte>)
    ensures ret == ArpFrame(p)
  {
    ret := [];
    ret := ret + Be16(p.hardwareType);
    ret := ret + Be16(p.protocolType);
    ret := ret + [p.hardwareLength];
    ret := ret + [p.protocolLength];
    ret := ret + Be16(if p.operation.Request? then 1 else 2);
    ret := ret + p.senderHardware;
    ret := ret + p.senderProtocol;
    ret := ret + p.targetHardware;
    ret := ret + p.targetProtocol;
  }

  function ParseArpOperation(v: u16): Parsed<ArpOperation>
  {
    if v == 1 then Ok(Request) else if v == 2 then Ok(Reply) else Invalid
  }

  /** `ArpFrame::new` followed by the conversion to parameters. */
  function ParseArp(packet: seq<byte>): Parsed<ArpParams>
  {
    if |packet| < 28 then Invalid
    else
      var operation :- ParseArpOperation(U16At(packet, 6));
      Ok(ArpParams(U16At(packet, 0), U16At(packet, 2), packet[4], packet[5], operation,
                   packet[8..14], packet[14..18], packet[18..24], packet[24..28]))
  }

  /** ARP parameters survive generation and parsing, whatever padding follows. */
  lemma ArpRoundTrip(p: ArpParams, padding: seq<byte>)
    ensures ParseArp(ArpFrame(p) + padding) == Ok(p)
  {
    var packet := ArpFrame(p) + padding;
    var op: u16 := if p.operation.Request? then 1 else 2;
    U16Be16(p.hardwareType);
    U16Be16(p.protocolType);
    U16Be16(op);
    assert packet[0..2] == Be16(p.hardwareType) && packet[2..4] == Be16(p.protocolType) && packet[6..8] == Be16(op);
    assert U16At(packet, 0) == U16At(packet[0..2], 0) && U16At(packet, 2) == U16At(packet[2..4], 0);
    assert U16At(packet, 6) == U16At(packet[6..8], 0);
    assert packet[8..14] == p.senderHardware && packet[14..18] == p.senderProtocol;
    assert packet[18..24] == p.targetHardware && packet[24..28] == p.targetProtocol;
  }

  // ---------------------------------------------------------------- IPv4

  const PROTOCOL_TCP: byte := 0x06
  const PROTOCOL_UDP: byte := 0x11
  const IPV4_HEADER: nat := 20

  /** The length field: header and payload length, both additions on 16 bits. */
  function TotalLength(payloadLength: nat): (total: u16)
    ensures total <= IPV4_HEADER + payloadLength
    ensures payloadLength <= 0xffff - IPV4_HEADER ==> total == IPV4_HEADER + payloadLength
  {
    (IPV4_HEADER + payloadLength % 0x1_0000) % 0x1_0000
  }

  /** The header with a given checksum; the total length is truncated to 16 bits. */
  function Ipv4Header(payloadLength: nat, protocol: byte, source: IpAddr, dest: IpAddr, checksum: u16): (h: seq<byte>)
    ensures |h| == IPV4_HEADER
  {
    ([0x45, 0] + Be16(TotalLength(payloadLength)) + [0, 0, 0, 0, 64, protocol]) + Be16(checksum) + (source + dest)
  }

  ghost function Ipv4Frame(payload: seq<byte>, protocol: byte, source: IpAddr, dest: IpAddr): seq<byte>
  {
    Ipv4Header(|payload|, protocol, source, dest, InternetChecksum(Ipv4Header(|payload|, protocol, source, dest, 0)))
    + payload
  }

  /** `generate_ipv4_frame` */
  method GenerateIpv4Frame(payload: seq<byte>, protocol: byte, source: IpAddr, dest: IpAddr) returns (ret: seq<byte>)
    ensures ret == Ipv4Frame(payload, protocol, source, dest)
  {
    hide InternetChecksum;
    ret := [0x45];
    ret := ret + [0];
    ret := ret + Be16(TotalLength(|payload|));
    ret := ret + Be16(0);
    ret := ret + Be16(0);
    ret := ret + [64];
    ret := ret + [protocol];
    var checksumLoc := |ret|;
    ret := ret + Be16(0);
    ret := ret + source;
    ret := ret + dest;
    assert ret == Ipv4Header(|payload|, protocol, source, dest, 0);
    var checksum := CalculateChecksum(ret);
    ret := ret[..checksumLoc] + Be16(checksum) + ret[checksumLoc + 2..];
    assert ret == Ipv4Header(|payload|, protocol, source, dest, checksum);
    ret := ret + payload;
  }

  /** Every generated header verifies. */
  lemma Ipv4HeaderVerifies(payload: seq<byte>, protocol: byte, source: IpAddr, dest: IpAddr)
    ensures InternetChecksum(Ipv4Frame(payload, protocol, source, dest)[..IPV4_HEADER]) == 0
  {
    hide InternetChecksum, Be16;
    var pre := [0x45, 0] + Be16(TotalLength(|payload|)) + [0, 0, 0, 0, 64, protocol];
    var post := source + dest;
    var checksum := InternetChecksum(pre + Be16(0) + post);
    assert Ipv4Header(|payload|, protocol, source, dest, 0) == pre + Be16(0) + post;
    assert Ipv4Header(|payload|, protocol, source, dest, checksum) == pre + Be16(checksum) + post;
    StoredChecksumVerifies(pre, post);
    assert Ipv4Frame(payload, protocol, source, dest)[..IPV4_HEADER] == pre + Be16(checksum) + post;
  }

  /** `Ipv4Frame::new` */
  function ParseIpv4(packet: seq<byte>): Parsed<seq<byte>>
  {
    if packet == [] || HeaderLength(packet) > |packet| then Invalid
    else
      var total :- ReadU16(packet, 2);
      if total > |packet| then Invalid else Ok(packet)
  }

  function HeaderLength(packet: seq<byte>): nat
    requires packet != []
  {
    packet[0] % 16 * 4
  }

  function Ipv4Protocol(packet: seq<byte>): Parsed<byte>
  {
    if 9 < |packet| then Ok(packet[9]) else Panic
  }

  function Ipv4Source(packet: seq<byte>): Parsed<seq<byte>>
  {
    Slice(packet, 12, 16)
  }

  function Ipv4Payload(packet: seq<byte>): Parsed<seq<byte>>
  {
    var total :- ReadU16(packet, 2);
    Slice(packet, HeaderLength(packet), total)
  }

  lemma Ipv4Reads(payload: seq<byte>, protocol: byte, source: IpAddr, dest: IpAddr, padding: seq<byte>)
    ensures
      var packet := Ipv4Frame(payload, protocol, source, dest) + padding;
      && |packet| == IPV4_HEADER + |payload| + |padding|
      && packet[0] == 0x45 && U16At(packet, 2) == TotalLength(|payload|)
      && packet[9] == protocol && packet[12..16] == source
      && packet[IPV4_HEADER..IPV4_HEADER + |payload|] == payload
  {
    hide InternetChecksum, Be16, TotalLength;
    var packet := Ipv4Frame(payload, protocol, source, dest) + padding;
    U16Be16(TotalLength(|payload|));
    assert packet[12..16] == source;
  }

  /** A generated frame is accepted, whatever padding follows, with its protocol and source.  A
      payload whose total length fits in 16 bits comes back with the padding removed; for a longer
      one the truncated length cuts the payload short or makes the accessor panic. */
  lemma Ipv4RoundTrip(payload: seq<byte>, protocol: byte, source: IpAddr, dest: IpAddr, padding: seq<byte>)
    ensures
      var packet := Ipv4Frame(payload, protocol, source, dest) + padding;
      var total := TotalLength(|payload|);
      && ParseIpv4(packet) == Ok(packet)
      && Ipv4Protocol(packet) == Ok(protocol) && Ipv4Source(packet) == Ok(source)
      && Ipv4Payload(packet) == if total < IPV4_HEADER then Panic else Ok(payload[..total - IPV4_HEADER])
  {
    hide Ipv4Frame, TotalLength, U16At;
    Ipv4Reads(payload, protocol, source, dest, padding);
    var packet := Ipv4Frame(payload, protocol, source, dest) + padding;
    var total := TotalLength(|payload|);
    if IPV4_HEADER <= total {
      var body := packet[IPV4_HEADER..IPV4_HEADER + |payload|];
      assert packet[IPV4_HEADER..total] == body[..total - IPV4_HEADER];
    }
  }

  // ---------------------------------------------------------------- UDP

  const UDP_HEADER: nat := 8

  function UdpLength(payloadLength: nat): (length: u16)
    ensures length <= UDP_HEADER + payloadLength
    ensures payloadLength <= 0xffff - UDP_HEADER ==> length == UDP_HEADER + payloadLength
  {
    (UDP_HEADER + payloadLength % 0x1_0000) % 0x1_0000
  }

  function UdpFrame(destPort: u16, payload: seq<byte>): (f: seq<byte>)
    ensures |f| == UDP_HEADER + |payload|
  {
    Be16(0) + Be16(destPort) + Be16(UdpLength(|payload|)) + Be16(0) + payload
  }

  /** `generate_udp_frame` */
  method GenerateUdpFrame(destPort: u16, payload: seq<byte>) returns (ret: seq<byte>)
    ensures ret == UdpFrame(destPort, payload)
  {
    ret := [];
    ret := ret + Be16(0);
    ret := ret + Be16(destPort);
    ret := ret + Be16(UdpLength(|payload|));
    ret := ret + Be16(0);
    ret := ret + payload;
  }

  /** `UdpFrame::new`; building its error value reads the length field of the short packet. */
  function ParseUdp(packet: seq<byte>): Parsed<seq<byte>>
  {
    var length :- ReadU16(packet, 4);
    if |packet| < UDP_HEADER || |packet| < length then Invalid else Ok(packet)
  }

  function UdpData(packet: seq<byte>): Parsed<seq<byte>>
  {
    var length :- ReadU16(packet, 4);
    Slice(packet, UDP_HEADER, length)
  }

  lemma UdpReads(destPort: u16, payload: seq<byte>)
    ensures
      var packet := UdpFrame(destPort, payload);
      && U16At(packet, 2) == destPort && U16At(packet, 4) == UdpLength(|payload|)
      && packet[UDP_HEADER..] == payload
  {
    hide Be16, UdpLength;
    var packet := UdpFrame(destPort, payload);
    U16Be16(UdpLength(|payload|));
    U16Be16(destPort);
    assert packet[2..4] == Be16(destPort) && packet[4..6] == Be16(UdpLength(|payload|));
    assert U16At(packet, 2) == U16At(packet[2..4], 0) && U16At(packet, 4) == U16At(packet[4..6], 0);
  }

  lemma UdpRoundTrip(destPort: u16, payload: seq<byte>)
    requires |payload| <= 0xffff - UDP_HEADER
    ensures
      var packet := UdpFrame(destPort, payload);
      ParseUdp(packet) == Ok(packet) && UdpData(packet) == Ok(payload)
  {
    hide UdpFrame, UdpLength, U16At;
    UdpReads(destPort, payload);
    var packet := UdpFrame(destPort, payload);
    assert packet[UDP_HEADER..|packet|] == packet[UDP_HEADER..];
  }

  // ---------------------------------------------------------------- all layers

  datatype Received =
    | ReceivedArp(ethernet: Ethernet, arp: ArpParams)
    | ReceivedUdp(ethernet: Ethernet, data: seq<byte>)
    | ReceivedTcp(ethernet: Ethernet, source: seq<byte>, frame: seq<byte>)
    | ReceivedOther

  /** The receive path: `parse_packet`, then the ARP conversion or `parse_ipv4` and the accessors. */
  function Receive(data: seq<byte>): Parsed<Received>
  {
    var e :- ParseEthernet(data);
    if e.etherType == ETHERTYPE_ARP then
      var arp :- ParseArp(e.payload);
      Ok(ReceivedArp(e, arp))
    else if e.etherType == ETHERTYPE_IPV4 then
      var packet :- ParseIpv4(e.payload);
      var protocol :- Ipv4Protocol(packet);
      if protocol == PROTOCOL_UDP then
        var payload :- Ipv4Payload(packet);
        var udp :- ParseUdp(payload);
        var data :- UdpData(udp);
        Ok(ReceivedUdp(e, data))
      else if protocol == PROTOCOL_TCP then
        var payload :- Ipv4Payload(packet);
        var source :- Ipv4Source(packet);
        Ok(ReceivedTcp(e, source, payload))
      else Ok(ReceivedOther)
    else Ok(ReceivedOther)
  }

  /** The bytes on the wire for an IPv4 packet, with the CRC the card appends. */
  ghost function Wire(destMac: Mac, sourceMac: Mac, source: IpAddr, dest: IpAddr, protocol: byte,
                      payload: seq<byte>, crc: seq<byte>): seq<byte>
  {
    EthernetFrame(destMac, sourceMac, ETHERTYPE_IPV4, Ipv4Frame(payload, protocol, source, dest)) + crc
  }

  lemma WireIpv4(destMac: Mac, sourceMac: Mac, source: IpAddr, dest: IpAddr, protocol: byte, payload: seq<byte>, crc: seq<byte>)
    returns (e: Ethernet)
    requires |crc| == 4
    ensures
      && ParseEthernet(Wire(destMac, sourceMac, source, dest, protocol, payload, crc)) == Ok(e)
      && e.dest == destMac && e.source == sourceMac && e.etherType == ETHERTYPE_IPV4
      && ParseIpv4(e.payload) == Ok(e.payload)
      && Ipv4Protocol(e.payload) == Ok(protocol) && Ipv4Source(e.payload) == Ok(source)
      && var total := TotalLength(|payload|);
      && Ipv4Payload(e.payload) == if total < IPV4_HEADER then Panic else Ok(payload[..total - IPV4_HEADER])
  {
    hide Ipv4Frame, EthernetFrame, ParseEthernet, ParseIpv4, Ipv4Protocol, Ipv4Source, Ipv4Payload, TotalLength;
    var ip := Ipv4Frame(payload, protocol, source, dest);
    EthernetRoundTrip(destMac, sourceMac, ETHERTYPE_IPV4, ip, crc);
    e := ParseEthernet(EthernetFrame(destMac, sourceMac, ETHERTYPE_IPV4, ip) + crc).value;
    var padding := e.payload[|ip|..];
    assert e.payload == ip + padding;
    Ipv4RoundTrip(payload, protocol, source, dest, padding);
  }

  /** A UDP payload survives UDP, IPv4 and Ethernet with padding and CRC exactly when it has at
      most 65507 bytes. */
  lemma UdpLayers(destMac: Mac, sourceMac: Mac, source: IpAddr, dest: IpAddr, destPort: u16, payload: seq<byte>, crc: seq<byte>)
    requires |crc| == 4
    ensures
      var r := Receive(Wire(destMac, sourceMac, source, dest, PROTOCOL_UDP, UdpFrame(destPort, payload), crc));
      && (r.Ok? ==> r.value.ReceivedUdp? && r.value.ethernet.dest == destMac && r.value.ethernet.source == sourceMac)
      && (r.Ok? && r.value.data == payload <==> |payload| <= 65507)
  {
    hide Wire, ParseEthernet, ParseIpv4, Ipv4Protocol, Ipv4Payload, U16At, UdpFrame;
    var frame := UdpFrame(destPort, payload);
    var e := WireIpv4(destMac, sourceMac, source, dest, PROTOCOL_UDP, frame, crc);
    UdpReads(destPort, payload);
    if |payload| <= 65507 {
      UdpRoundTrip(destPort, payload);
      assert frame[..|frame|] == frame;
    }
  }

  /** A TCP frame survives IPv4 and Ethernet exactly when it has at most 65515 bytes. */
  lemma TcpLayers(destMac: Mac, sourceMac: Mac, source: IpAddr, dest: IpAddr, frame: seq<byte>, crc: seq<byte>)
    requires |crc| == 4
    ensures
      var r := Receive(Wire(destMac, sourceMac, source, dest, PROTOCOL_TCP, frame, crc));
      && (r.Ok? ==> r.value.ReceivedTcp? && r.value.source == source)
      && (r.Ok? ==> r.value.ethernet.dest == destMac && r.value.ethernet.source == sourceMac)
      && (r.Ok? && r.value.frame == frame <==> |frame| <= 65515)
  {
    hide Wire, ParseEthernet, ParseIpv4, Ipv4Protocol, Ipv4Payload, Ipv4Source;
    var e := WireIpv4(destMac, sourceMac, source, dest, PROTOCOL_TCP, frame, crc);
    assert frame[..|frame|] == frame;
  }

  /** ARP parameters survive Ethernet with padding and CRC. */
  lemma ArpLayers(destMac: Mac, sourceMac: Mac, p: ArpParams, crc: seq<byte>)
    requires |crc| == 4
    ensures
      var r := Receive(EthernetFrame(destMac, sourceMac, ETHERTYPE_ARP, ArpFrame(p)) + crc);
      r.Ok? && r.value.ReceivedArp? && r.value.arp == p
      && r.value.ethernet.dest == destMac && r.value.ethernet.source == sourceMac
  {
    hide EthernetFrame, ParseEthernet, ArpFrame, ParseArp;
    EthernetRoundTrip(destMac, sourceMac, ETHERTYPE_ARP, ArpFrame(p), crc);
    var e := ParseEthernet(EthernetFrame(destMac, sourceMac, ETHERTYPE_ARP, ArpFrame(p)) + crc).value;
    ArpRoundTrip(p, e.payload[28..]);
    assert e.payload == ArpFrame(p) + e.payload[28..];
  }
}
