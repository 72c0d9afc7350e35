/** TCP frames (section 3.1 of RFC 9293): flags, generator, accessors, checksum and round trip. */
module TcpFrame {
  import opened Memory
  import opened Checksum
  import opened Frames

  // ---------------------------------------------------------------- flags

  datatype Flags = Flags(cwr: bool, ece: bool, urg: bool, ack: bool, psh: bool, rst: bool, syn: bool, fin: bool)

  function Bit(enable: bool): (n: nat)
    ensures n <= 1
  {
    if enable then 1 else 0
  }

  function Nibble(a: bool, b: bool, c: bool, d: bool): (n: nat)
    ensures n < 16
  {
    8 * Bit(a) + 4 * Bit(b) + 2 * Bit(c) + Bit(d)
  }

  function NibbleBits(n: nat): (bool, bool, bool, bool)
  {
    (n / 8 % 2 == 1, n / 4 % 2 == 1, n / 2 % 2 == 1, n % 2 == 1)
  }

  lemma NibbleRoundTrip(a: bool, b: bool, c: bool, d: bool)
    ensures NibbleBits(Nibble(a, b, c, d)) == (a, b, c, d)
  {
  }

  /** `generate_tcp_flags`: one bit per flag, `cwr` highest and `fin` lowest. */
  function FlagsByte(f: Flags): byte
  {
    16 * Nibble(f.cwr, f.ece, f.urg, f.ack) + Nibble(f.psh, f.rst, f.syn, f.fin)
  }

  function ParseFlags(b: byte): Flags
  {
    var (cwr, ece, urg, ack) := NibbleBits(b / 16);
    var (psh, rst, syn, fin) := NibbleBits(b % 16);
    Flags(cwr, ece, urg, ack, psh, rst, syn, fin)
  }

  /** The flags are the bits of the byte. */
  lemma FlagsRoundTrip(f: Flags)
    ensures ParseFlags(FlagsByte(f)) == f
  {
    hide Nibble, NibbleBits;
    NibbleRoundTrip(f.cwr, f.ece, f.urg, f.ack);
    NibbleRoundTrip(f.psh, f.rst, f.syn, f.fin);
  }

  // ---------------------------------------------------------------- frames

  datatype Params = Params(
    sourceAddress: IpAddr, destAddress: IpAddr, sourcePort: u16, destPort: u16,
    seqNum: u32, ackNum: u32, flags: Flags, windowSize: u16, urgentPtr: u16, payload: seq<byte>)

  const TCP_HEADER: nat := 20

  function Be32(x: u32): (s: seq<byte>)
    ensures |s| == 4
  {
    Be16(x / 0x1_0000) + Be16(x % 0x1_0000)
  }

  function U32At(s: seq<byte>, i: nat): u32
    requires i + 4 <= |s|
  {
    U16At(s, i) as int * 0x1_0000 + U16At(s, i + 2) as int
  }

  lemma U32Be32(x: u32)
    ensures U32At(Be32(x), 0) == x
  {
    U16Be16(x / 0x1_0000);
    U16Be16(x % 0x1_0000);
    assert Be32(x)[0..2] == Be16(x / 0x1_0000) && Be32(x)[2..4] == Be16(x % 0x1_0000);
  }

  /** The sixteen bytes in front of the checksum. */
  function BeforeChecksum(p: Params): (s: seq<byte>)
    ensures |s| == 16
  {
    Be16(p.sourcePort) + Be16(p.destPort) + Be32(p.seqNum) + Be32(p.ackNum)
    + [0x50, FlagsByte(p.flags)] + Be16(p.windowSize)
  }

  function FrameWith(p: Params, checksum: u16): (s: seq<byte>)
    ensures |s| == TCP_HEADER + |p.payload|
  {
    BeforeChecksum(p) + Be16(checksum) + (Be16(p.urgentPtr) + p.payload)
  }

  /** The pseudo-header; the length is truncated to 16 bits. */
  function PseudoHeader(p: Params): (s: seq<byte>)
    ensures |s| == 12
  {
    p.sourceAddress + p.destAddress + [0, PROTOCOL_TCP] + Be16((TCP_HEADER + |p.payload|) % 0x1_0000)
  }

  function PadEven(s: seq<byte>): (t: seq<byte>)
    ensures |t| % 2 == 0
  {
    if |s| % 2 != 0 then s + [0] else s
  }

  ghost function Frame(p: Params): seq<byte>
  {
    FrameWith(p, InternetChecksum(PadEven(PseudoHeader(p) + FrameWith(p, 0))))
  }

  // The header with a zero checksum.
  method GenerateUnsummed(p: Params) returns (ret: seq<byte>, checksumIdx: nat)
    ensures ret == FrameWith(p, 0) && checksumIdx == 16
  {
    hide Be16, Be32, FlagsByte;
    ret := [];
    ret := ret + Be16(p.sourcePort);
    ret := ret + Be16(p.destPort);
    ret := ret + Be32(p.seqNum);
    ret := ret + Be32(p.ackNum);
    ret := ret + [TCP_HEADER / 4 * 16];
    ret := ret + [FlagsByte(p.flags)];
    ret := ret + Be16(p.windowSize);
    assert ret == BeforeChecksum(p);
    checksumIdx := |ret|;
    ret := ret + Be16(0);
    ret := ret + Be16(p.urgentPtr);
    ret := ret + p.payload;
    assert ret == FrameWith(p, 0);
  }

  // What the checksum is computed over.
  method GenerateChecksumFrame(p: Params, ret: seq<byte>) returns (checksumFrame: seq<byte>)
    requires |ret| == TCP_HEADER + |p.payload|
    ensures checksumFrame == PadEven(PseudoHeader(p) + ret)
  {
    hide Be16;
    checksumFrame := [];
    checksumFrame := checksumFrame + p.sourceAddress;
    checksumFrame := checksumFrame + p.destAddress;
    checksumFrame := checksumFrame + [0];
    checksumFrame := checksumFrame + [PROTOCOL_TCP];
    checksumFrame := checksumFrame + Be16(|ret| % 0x1_0000);
    assert checksumFrame == PseudoHeader(p);
    checksumFrame := checksumFrame + ret;
    if |checksumFrame| % 2 != 0 {
      checksumFrame := checksumFrame + [0];
    }
  }

  /** `generate_tcp_frame` */
  method GenerateTcpFrame(p: Params) returns (ret: seq<byte>)
    ensures ret == Frame(p)
  {
    hide InternetChecksum, Be16, BeforeChecksum, PseudoHeader, PadEven;
    var checksumIdx;
    ret, checksumIdx := GenerateUnsummed(p);
    var checksumFrame := GenerateChecksumFrame(p, ret);
    var checksum := CalculateChecksum(checksumFrame);
    ret := ret[..checksumIdx] + Be16(checksum) + ret[checksumIdx + 2..];
    assert ret == FrameWith(p, checksum);
  }

  /** Pseudo-header and frame, zero-padded to even length, checksum to zero. */
  lemma FrameVerifies(p: Params)
    ensures InternetChecksum(PadEven(PseudoHeader(p) + Frame(p))) == 0
  {
    hide InternetChecksum, Be16, BeforeChecksum, PseudoHeader;
    var pre := PseudoHeader(p) + BeforeChecksum(p);
    var rest := Be16(p.urgentPtr) + p.payload;
    var post := if |rest| % 2 != 0 then rest + [0] else rest;
    var checksum := InternetChecksum(pre + Be16(0) + post);
    forall c: u16
      ensures PadEven(PseudoHeader(p) + FrameWith(p, c)) == pre + Be16(c) + post
    {
      assert PseudoHeader(p) + FrameWith(p, c) == pre + Be16(c) + rest;
    }
    StoredChecksumVerifies(pre, post);
  }

  /** `TcpFrame` accessors: every field, and the payload behind the data offset. */
  datatype Fields = Fields(
    sourcePort: u16, destPort: u16, seqNum: u32, ackNum: u32, flags: Flags, windowSize: u16, checksum: u16,
    urgentPtr: u16, payload: seq<byte>)

  /** The accessors applied to one frame; a data offset of zero fails the assertion. */
  function ParseTcp(data: seq<byte>): Parsed<Fields>
  {
    if |data| < TCP_HEADER then Panic
    else
      var offset := data[12] / 16 * 4;
      if offset == 0 then Panic
      else
        var payload :- Slice(data, offset, |data|);
        Ok(Fields(U16At(data, 0), U16At(data, 2), U32At(data, 4), U32At(data, 8), ParseFlags(data[13]),
                  U16At(data, 14), U16At(data, 16), U16At(data, 18), payload))
  }

  lemma U16Slice(s: seq<byte>, i: nat)
    requires i + 2 <= |s|
    ensures U16At(s[i..i + 2], 0) == U16At(s, i)
  {
  }

  lemma U32Slice(s: seq<byte>, i: nat)
    requires i + 4 <= |s|
    ensures U32At(s[i..i + 4], 0) == U32At(s, i)
  {
  }

  lemma FrameReads(p: Params, c: u16)
    ensures
      var f := FrameWith(p, c);
      && U16At(f, 0) == p.sourcePort && U16At(f, 2) == p.destPort
      && U32At(f, 4) == p.seqNum && U32At(f, 8) == p.ackNum
  {
    hide Be16, Be32, FlagsByte, U16At, U32At;
    var f := FrameWith(p, c);
    U16Be16(p.sourcePort);
    U16Be16(p.destPort);
    U32Be32(p.seqNum);
    U32Be32(p.ackNum);
    U16Slice(f, 0);
    U16Slice(f, 2);
    U32Slice(f, 4);
    U32Slice(f, 8);
    assert f[0..2] == Be16(p.sourcePort) && f[2..4] == Be16(p.destPort);
    assert f[4..8] == Be32(p.seqNum) && f[8..12] == Be32(p.ackNum);
  }

  lemma FrameReadsRest(p: Params, c: u16)
    ensures
      var f := FrameWith(p, c);
      && f[12] == 0x50 && f[13] == FlagsByte(p.flags) && U16At(f, 14) == p.windowSize
      && U16At(f, 16) == c && U16At(f, 18) == p.urgentPtr && f[20..] == p.payload
  {
    hide Be16, Be32, FlagsByte, U16At, U32At;
    var f := FrameWith(p, c);
    U16Be16(p.windowSize);
    U16Be16(c);
    U16Be16(p.urgentPtr);
    U16Slice(f, 14);
    U16Slice(f, 16);
    U16Slice(f, 18);
    assert f[14..16] == Be16(p.windowSize) && f[16..18] == Be16(c) && f[18..20] == Be16(p.urgentPtr);
  }

  /** Parsing a generated frame returns every field and the payload. */
  lemma FrameRoundTrip(p: Params)
    ensures
      var r := ParseTcp(Frame(p));
      && r.Ok?
      && r.value == Fields(p.sourcePort, p.destPort, p.seqNum, p.ackNum, p.flags, p.windowSize,
                           InternetChecksum(PadEven(PseudoHeader(p) + FrameWith(p, 0))), p.urgentPtr, p.payload)
  {
    hide InternetChecksum, FrameWith, PadEven, PseudoHeader, U16At, U32At, FlagsByte, ParseFlags;
    var c := InternetChecksum(PadEven(PseudoHeader(p) + FrameWith(p, 0)));
    FrameReads(p, c);
    FrameReadsRest(p, c);
    FlagsRoundTrip(p.flags);
    var f := FrameWith(p, c);
    assert f[20..|f|] == f[20..];
  }
}
