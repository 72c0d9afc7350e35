/**
  Frames byte by byte: where the generators put every field, and what the parsers make of arbitrary
  bytes.  All numbers go out with their most significant byte first.
 */
module FrameBytes {
  import opened Memory
  import opened Checksum
  import opened Frames
  import opened TcpFrame

  // The bytes of a 16-bit and of a 32-bit field.
  lemma Field16(f: seq<byte>, i: nat, x: u16)
    requires i + 2 <= |f| && f[i..i + 2] == Be16(x)
    ensures f[i] == x / 0x100 && f[i + 1] == x % 0x100
  {
    assert f[i] == f[i..i + 2][0] && f[i + 1] == f[i..i + 2][1];
  }

  lemma Field32(f: seq<byte>, i: nat, x: u32)
    requires i + 4 <= |f| && f[i..i + 4] == Be32(x)
    ensures f[i] == x / 0x100_0000 && f[i + 1] == x / 0x1_0000 % 0x100
    ensures f[i + 2] == x / 0x100 % 0x100 && f[i + 3] == x % 0x100
  {
    assert f[i..i + 2] == Be32(x)[..2] && f[i + 2..i + 4] == Be32(x)[2..];
    Field16(f, i, x / 0x1_0000);
    Field16(f, i + 2, x % 0x1_0000);
    QuarterWords(x);
  }

  lemma QuarterWords(x: u32)
    ensures x / 0x1_0000 / 0x100 == x / 0x100_0000
    ensures x % 0x1_0000 / 0x100 == x / 0x100 % 0x100 && x % 0x1_0000 % 0x100 == x % 0x100
  {
    var q, r := x / 0x1_0000, x % 0x1_0000;
    assert x == 0x1_0000 * q + r;
    assert x / 0x100 == 0x100 * q + r / 0x100;
  }

  // ---------------------------------------------------------------- generators

  /** Destination, source, type, payload, and zeros up to 60 bytes. */
  lemma EthernetBytes(dest: Mac, source: Mac, etherType: u16, payload: seq<byte>)
    ensures
      var f := EthernetFrame(dest, source, etherType, payload);
      && |f| == (if |payload| < 46 then 60 else 14 + |payload|)
      && f[..6] == dest && f[6..12] == source && f[12] == etherType / 0x100 && f[13] == etherType % 0x100
      && f[14..14 + |payload|] == payload && forall i :: 14 + |payload| <= i < |f| ==> f[i] == 0
  {
    hide Be16;
    var f := EthernetFrame(dest, source, etherType, payload);
    assert f[12..14] == Be16(etherType);
    Field16(f, 12, etherType);
  }

  lemma ArpBytes(p: ArpParams)
    ensures
      var f := ArpFrame(p);
      && f[0] == p.hardwareType / 0x100 && f[1] == p.hardwareType % 0x100
      && f[2] == p.protocolType / 0x100 && f[3] == p.protocolType % 0x100
      && f[4] == p.hardwareLength && f[5] == p.protocolLength && f[6] == 0 && f[7] == (if p.operation.Request? then 1 else 2)
      && f[8..14] == p.senderHardware && f[14..18] == p.senderProtocol
      && f[18..24] == p.targetHardware && f[24..] == p.targetProtocol
  {
    hide Be16;
    var f := ArpFrame(p);
    var op: u16 := if p.operation.Request? then 1 else 2;
    assert f[0..2] == Be16(p.hardwareType) && f[2..4] == Be16(p.protocolType) && f[6..8] == Be16(op);
    Field16(f, 0, p.hardwareType);
    Field16(f, 2, p.protocolType);
    Field16(f, 6, op);
  }

  /** Version 4, five words of header, length modulo 2^16, no fragmentation, 64 hops, protocol, checksum,
      source and destination. */
  lemma Ipv4Bytes(payload: seq<byte>, protocol: byte, source: IpAddr, dest: IpAddr)
    ensures
      var f := Ipv4Frame(payload, protocol, source, dest);
      var total := (20 + |payload|) % 0x1_0000;
      && |f| == 20 + |payload| && f[0] == 0x45 && f[1] == 0 && f[2] == total / 0x100 && f[3] == total % 0x100
      && f[4] == 0 && f[5] == 0 && f[6] == 0 && f[7] == 0 && f[8] == 64 && f[9] == protocol
      && f[12..16] == source && f[16..20] == dest && f[20..] == payload
      && Balanced(0x100 * Evens(f[..20]) + Odds(f[..20]))
  {
    hide Be16, InternetChecksum, Balanced, TotalLength, Evens, Odds;
    var f, total := Ipv4Frame(payload, protocol, source, dest), TotalLength(|payload|);
    assert f[2..4] == Be16(total) && f[12..16] == source && f[16..20] == dest;
    Field16(f, 2, total);
    TotalModulo(|payload|);
    Ipv4HeaderVerifies(payload, protocol, source, dest);
    VerifiesBytes(f[..20]);
  }

  lemma TotalModulo(n: nat)
    ensures TotalLength(n) == (20 + n) % 0x1_0000
  {
    assert n == 0x1_0000 * (n / 0x1_0000) + n % 0x1_0000;
  }

  /** Source port and checksum are zero. */
  lemma UdpBytes(destPort: u16, payload: seq<byte>)
    ensures
      var f, length := UdpFrame(destPort, payload), (8 + |payload|) % 0x1_0000;
      && f[0] == 0 && f[1] == 0 && f[2] == destPort / 0x100 && f[3] == destPort % 0x100
      && f[4] == length / 0x100 && f[5] == length % 0x100 && f[6] == 0 && f[7] == 0 && f[8..] == payload
  {
    hide Be16, UdpLength;
    var f := UdpFrame(destPort, payload);
    assert f[0..2] == Be16(0) && f[2..4] == Be16(destPort) && f[4..6] == Be16(UdpLength(|payload|)) && f[6..8] == Be16(0);
    Field16(f, 0, 0);
    Field16(f, 2, destPort);
    Field16(f, 4, UdpLength(|payload|));
    Field16(f, 6, 0);
    UdpModulo(|payload|);
  }

  lemma UdpModulo(n: nat)
    ensures UdpLength(n) == (8 + n) % 0x1_0000
  {
    assert n == 0x1_0000 * (n / 0x1_0000) + n % 0x1_0000;
  }

  lemma NibbleValue(a: bool, b: bool, c: bool, d: bool)
    ensures Nibble(a, b, c, d) == (if a then 8 else 0) + (if b then 4 else 0) + (if c then 2 else 0) + (if d then 1 else 0)
  {
  }

  /** One bit per flag. */
  lemma FlagsBits(f: Flags)
    ensures FlagsByte(f) ==
              (if f.cwr then 128 else 0) + (if f.ece then 64 else 0) + (if f.urg then 32 else 0) + (if f.ack then 16 else 0)
              + (if f.psh then 8 else 0) + (if f.rst then 4 else 0) + (if f.syn then 2 else 0) + (if f.fin then 1 else 0)
  {
    hide Nibble;
    NibbleValue(f.cwr, f.ece, f.urg, f.ack);
    NibbleValue(f.psh, f.rst, f.syn, f.fin);
  }

  lemma TcpPortBytes(p: Params, c: u16)
    ensures
      var f := FrameWith(p, c);
      && f[0] == p.sourcePort / 0x100 && f[1] == p.sourcePort % 0x100
      && f[2] == p.destPort / 0x100 && f[3] == p.destPort % 0x100
      && f[12] == 0x50 && f[14] == p.windowSize / 0x100 && f[15] == p.windowSize % 0x100
      && f[18] == p.urgentPtr / 0x100 && f[19] == p.urgentPtr % 0x100 && f[20..] == p.payload
  {
    hide Be16, Be32, FlagsByte;
    var f := FrameWith(p, c);
    assert f[0..2] == Be16(p.sourcePort) && f[2..4] == Be16(p.destPort);
    assert f[14..16] == Be16(p.windowSize) && f[18..20] == Be16(p.urgentPtr);
    Field16(f, 0, p.sourcePort);
    Field16(f, 2, p.destPort);
    Field16(f, 14, p.windowSize);
    Field16(f, 18, p.urgentPtr);
  }

  lemma TcpNumberBytes(p: Params, c: u16)
    ensures
      var f, s, a := FrameWith(p, c), p.seqNum, p.ackNum;
      && f[4] == s / 0x100_0000 && f[5] == s / 0x1_0000 % 0x100 && f[6] == s / 0x100 % 0x100 && f[7] == s % 0x100
      && f[8] == a / 0x100_0000 && f[9] == a / 0x1_0000 % 0x100 && f[10] == a / 0x100 % 0x100 && f[11] == a % 0x100
      && f[13] == FlagsByte(p.flags)
  {
    hide Be16, Be32, FlagsByte;
    var f := FrameWith(p, c);
    assert f[4..8] == Be32(p.seqNum) && f[8..12] == Be32(p.ackNum);
    Field32(f, 4, p.seqNum);
    Field32(f, 8, p.ackNum);
  }

  /** Every field of a generated TCP frame but the flags and the checksum. */
  lemma TcpBytes(p: Params)
    ensures
      var f, s, a := Frame(p), p.seqNum, p.ackNum;
      && |f| == 20 + |p.payload|
      && f[0] == p.sourcePort / 0x100 && f[1] == p.sourcePort % 0x100
      && f[2] == p.destPort / 0x100 && f[3] == p.destPort % 0x100
      && f[4] == s / 0x100_0000 && f[5] == s / 0x1_0000 % 0x100 && f[6] == s / 0x100 % 0x100 && f[7] == s % 0x100
      && f[8] == a / 0x100_0000 && f[9] == a / 0x1_0000 % 0x100 && f[10] == a / 0x100 % 0x100 && f[11] == a % 0x100
      && f[12] == 0x50 && f[14] == p.windowSize / 0x100 && f[15] == p.windowSize % 0x100
      && f[18] == p.urgentPtr / 0x100 && f[19] == p.urgentPtr % 0x100 && f[20..] == p.payload
  {
    hide FrameWith, InternetChecksum, PadEven, PseudoHeader;
    var c := InternetChecksum(PadEven(PseudoHeader(p) + FrameWith(p, 0)));
    TcpPortBytes(p, c);
    TcpNumberBytes(p, c);
  }

  /** The flag byte. */
  lemma TcpFlagBits(p: Params)
    ensures
      var f, b := p.flags, Frame(p)[13];
      b == (if f.cwr then 128 else 0) + (if f.ece then 64 else 0) + (if f.urg then 32 else 0) + (if f.ack then 16 else 0)
           + (if f.psh then 8 else 0) + (if f.rst then 4 else 0) + (if f.syn then 2 else 0) + (if f.fin then 1 else 0)
  {
    hide FrameWith, InternetChecksum, PadEven, PseudoHeader, FlagsByte;
    TcpNumberBytes(p, InternetChecksum(PadEven(PseudoHeader(p) + FrameWith(p, 0))));
    FlagsBits(p.flags);
  }

  /** The twelve bytes that the checksum covers besides the frame: the addresses of the packet, the
      protocol 6 and the length of the frame. */
  lemma PseudoHeaderBytes(p: Params)
    ensures
      var h, length := PseudoHeader(p), (20 + |p.payload|) % 0x1_0000;
      && h[..4] == p.sourceAddress && h[4..8] == p.destAddress && h[8] == 0 && h[9] == 6
      && h[10] == length / 0x100 && h[11] == length % 0x100
  {
    var h, length: u16 := PseudoHeader(p), (TCP_HEADER + |p.payload|) % 0x1_0000;
    assert h[10..12] == Be16(length);
    Field16(h, 10, length);
  }

  /** The checksum of the frame balances frame and pseudo-header. */
  lemma TcpBalanced(p: Params)
    ensures
      var m := PadEven(PseudoHeader(p) + Frame(p));
      Balanced(0x100 * Evens(m) + Odds(m)) && PseudoHeader(p) + Frame(p) <= m
  {
    hide Frame, PseudoHeader, InternetChecksum, Balanced, Evens, Odds;
    FrameVerifies(p);
    VerifiesBytes(PadEven(PseudoHeader(p) + Frame(p)));
  }

  /** IPv4 packets go out with type 0x0800, TCP with protocol 6, UDP with protocol 17, ARP with 0x0806. */
  lemma WireBytes(destMac: Mac, sourceMac: Mac, source: IpAddr, dest: IpAddr, payload: seq<byte>, crc: seq<byte>,
                  arp: ArpParams)
    ensures
      var tcp := Wire(destMac, sourceMac, source, dest, PROTOCOL_TCP, payload, crc);
      var udp := Wire(destMac, sourceMac, source, dest, PROTOCOL_UDP, payload, crc);
      var a := EthernetFrame(destMac, sourceMac, ETHERTYPE_ARP, ArpFrame(arp));
      && tcp[12] == 0x08 && tcp[13] == 0x00 && tcp[23] == 6 && tcp[30..34] == dest
      && udp[12] == 0x08 && udp[13] == 0x00 && udp[23] == 17 && a[12] == 0x08 && a[13] == 0x06
  {
    hide Ipv4Frame, EthernetFrame;
    Ipv4OnWire(destMac, sourceMac, source, dest, PROTOCOL_TCP, payload, crc);
    Ipv4OnWire(destMac, sourceMac, source, dest, PROTOCOL_UDP, payload, crc);
    EthernetBytes(destMac, sourceMac, ETHERTYPE_ARP, ArpFrame(arp));
  }

  lemma Ipv4OnWire(destMac: Mac, sourceMac: Mac, source: IpAddr, dest: IpAddr, protocol: byte, payload: seq<byte>,
                   crc: seq<byte>)
    ensures
      var f := Wire(destMac, sourceMac, source, dest, protocol, payload, crc);
      |f| >= 34 && f[12] == 0x08 && f[13] == 0x00 && f[23] == protocol && f[30..34] == dest
  {
    hide Ipv4Frame, EthernetFrame;
    var ip := Ipv4Frame(payload, protocol, source, dest);
    Ipv4Bytes(payload, protocol, source, dest);
    EthernetBytes(destMac, sourceMac, ETHERTYPE_IPV4, ip);
    var e := EthernetFrame(destMac, sourceMac, ETHERTYPE_IPV4, ip);
    InnerBytes(e, ip);
  }

  lemma InnerBytes(e: seq<byte>, ip: seq<byte>)
    requires |ip| >= 20 && 14 + |ip| <= |e| && e[14..14 + |ip|] == ip
    ensures e[23] == ip[9] && e[30..34] == ip[16..20]
  {
    assert forall k :: 0 <= k < |ip| ==> e[14 + k] == ip[k];
  }

  // ---------------------------------------------------------------- parsers, on any bytes

  /** A frame is taken if something is left between the type and the four bytes of CRC; the tag 0x8100
      moves the type by four bytes.  The parser never panics. */
  lemma EthernetParse(packet: seq<byte>)
    ensures
      var e := ParseEthernet(packet);
      var o := if |packet| >= 14 && packet[12] == 0x81 && packet[13] == 0 then 16 else 12;
      if |packet| < 14 || |packet| <= o + 6 then e == Invalid
      else
        e == Ok(Ethernet(packet[..6], packet[6..12], 0x100 * packet[o] as int + packet[o + 1] as int,
                         packet[o + 2..|packet| - 4]))
  {
    if |packet| >= 14 {
      assert U16At(packet, 12) == 0x8100 <==> packet[12] == 0x81 && packet[13] == 0;
    }
  }

  /** Only requests (1) and replies (2) are taken. */
  lemma ArpParse(packet: seq<byte>)
    ensures
      var a := ParseArp(packet);
      if |packet| < 28 || packet[6] != 0 || !(1 <= packet[7] <= 2) then a == Invalid
      else
        a == Ok(ArpParams(0x100 * packet[0] as int + packet[1] as int, 0x100 * packet[2] as int + packet[3] as int,
                          packet[4], packet[5], if packet[7] == 1 then Request else Reply,
                          packet[8..14], packet[14..18], packet[18..24], packet[24..28]))
  {
  }

  /** The header length is in units of four bytes; it and the total length must fit. */
  lemma Ipv4Parse(packet: seq<byte>)
    ensures
      var r := ParseIpv4(packet);
      if packet == [] || packet[0] % 16 * 4 > |packet| then r == Invalid
      else if |packet| < 4 then r == Panic
      else
        var total := 0x100 * packet[2] as int + packet[3] as int;
        && r == (if total > |packet| then Invalid else Ok(packet))
        && Ipv4Payload(packet)
           == (if packet[0] % 16 * 4 <= total <= |packet| then Ok(packet[packet[0] % 16 * 4..total]) else Panic)
  {
  }

  lemma UdpParse(packet: seq<byte>)
    ensures
      var r := ParseUdp(packet);
      if |packet| < 6 then r == Panic
      else
        var length := 0x100 * packet[4] as int + packet[5] as int;
        && r == (if |packet| < 8 || |packet| < length then Invalid else Ok(packet))
        && (r.Ok? ==> UdpData(packet) == if 8 <= length then Ok(packet[8..length]) else Panic)
  {
  }

  /** The data offset is in units of four bytes; the payload is everything behind it. */
  lemma TcpParse(data: seq<byte>)
    ensures
      var r := ParseTcp(data);
      && (r.Ok? <==> |data| >= 20 && 0 < data[12] / 16 * 4 <= |data|) && !r.Invalid?
      && (r.Ok? ==>
            && r.value.payload == data[data[12] / 16 * 4..]
            && r.value.sourcePort == 0x100 * data[0] as int + data[1] as int
            && r.value.destPort == 0x100 * data[2] as int + data[3] as int
            && r.value.windowSize == 0x100 * data[14] as int + data[15] as int)
  {
    if |data| >= 20 && 0 < data[12] / 16 * 4 <= |data| {
      assert data[data[12] / 16 * 4..|data|] == data[data[12] / 16 * 4..];
    }
  }

  lemma TcpParseNumbers(data: seq<byte>)
    ensures
      var r := ParseTcp(data);
      r.Ok? ==>
        && r.value.seqNum == 0x100_0000 * data[4] as int + 0x1_0000 * data[5] as int + 0x100 * data[6] as int + data[7] as int
        && r.value.ackNum == 0x100_0000 * data[8] as int + 0x1_0000 * data[9] as int + 0x100 * data[10] as int + data[11] as int
  {
  }

  lemma HighBits(b: byte)
    ensures b / 16 / 8 % 2 == b / 128 && b / 16 / 4 % 2 == b / 64 % 2 && b / 16 / 2 % 2 == b / 32 % 2
  {
  }

  lemma LowBits(b: byte)
    ensures b % 16 / 8 % 2 == b / 8 % 2 && b % 16 / 4 % 2 == b / 4 % 2 && b % 16 / 2 % 2 == b / 2 % 2 && b % 16 % 2 == b % 2
  {
    PshBit(b / 16, b % 16);
    EvenPlus(8 * (b / 16), b % 16);
    RstBit(b / 16, b % 16);
    SynBit(b / 16, b % 16);
  }

  // Adding an even number does not change the lowest bit.
  lemma EvenPlus(k: nat, h: nat)
    ensures (2 * k + h) % 2 == h % 2
  {
  }

  lemma PshBit(q: nat, r: nat)
    ensures (16 * q + r) / 8 % 2 == r / 8 % 2
  {
    assert 16 * q + r == 8 * (2 * q + r / 8) + r % 8;
    EvenPlus(q, r / 8);
  }

  lemma RstBit(q: nat, r: nat)
    ensures (16 * q + r) / 4 % 2 == r / 4 % 2
  {
    assert 16 * q + r == 4 * (2 * (2 * q) + r / 4) + r % 4;
    EvenPlus(2 * q, r / 4);
  }

  lemma SynBit(q: nat, r: nat)
    ensures (16 * q + r) / 2 % 2 == r / 2 % 2
  {
    assert 16 * q + r == 2 * (2 * (4 * q) + r / 2) + r % 2;
    EvenPlus(4 * q, r / 2);
  }

  /** Each flag is one bit of the byte. */
  lemma FlagsParse(b: byte)
    ensures
      var f := ParseFlags(b);
      && (f.cwr <==> b / 128 == 1) && (f.ece <==> b / 64 % 2 == 1) && (f.urg <==> b / 32 % 2 == 1) && (f.ack <==> b / 16 % 2 == 1)
      && (f.psh <==> b / 8 % 2 == 1) && (f.rst <==> b / 4 % 2 == 1) && (f.syn <==> b / 2 % 2 == 1) && (f.fin <==> b % 2 == 1)
  {
    HighBits(b);
    LowBits(b);
  }
}
