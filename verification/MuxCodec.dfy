/** The mux frame format: building and parsing frames, and what parsing a built frame gives back. */
module MuxCodec {
  import opened Bytes

  const HEADER_SIZE: nat := 8
  const HEADER_VERSION: u32 := 0
  const HEADER_CONTROL: u32 := 1
  const HEADER_SETUP: u32 := 2
  const HEADER_TCP: u32 := 6
  const TCP_FIN: u16 := 0x001
  const TCP_SYN: u16 := 0x002
  const TCP_RST: u16 := 0x004
  const TCP_ACK: u16 := 0x010
  const INITIAL_WINDOW: u32 := 131072
  const MAGIC_OURS: u32 := 0xFEED_FACE
  const MAGIC_THEIRS: u32 := 0xFACE_FACE

  /** Sequence counters of the extended (version 2) header, sender's first. */
  type Counters = Option<(u16, u16)>

  datatype MuxError = InvalidHeader | UnsupportedProtocol(protocol: u32)

  datatype MuxHeader = MuxHeader(protocol: u32, length: u32, isV2: bool, txSeq: u16, rxSeq: u16) {
    function HeaderLen(): nat { if isV2 then 16 else 8 }
  }

  datatype TcpHeader = TcpHeader(sourcePort: u16, destPort: u16, seqNo: u32, ackNo: u32,
                                 offsetFlags: u16, window: u16) {
    function Flags(): u16 { offsetFlags % 0x100 }
  }

  datatype MuxPacket =
    | Version(major: u32, minor: u32)
    | Control(body: seq<byte>)
    | Setup
    | Tcp(header: TcpHeader, payload: seq<byte>)

  /** Is the single-bit mask `bit` set in `flags`? */
  predicate Has(flags: u16, bit: u16)
    requires bit > 0
  {
    flags / bit % 2 == 1
  }

  predicate IsMagic(m: u32) { m == MAGIC_OURS || m == MAGIC_THEIRS }

  // ---- parsing -------------------------------------------------------------

  function ParseMuxHeader(data: seq<byte>): Result<MuxHeader, MuxError> {
    if |data| < 8 then Err(InvalidHeader)
    else
      var isV2 := |data| >= 12 && IsMagic(U32At(data, 8));
      var counted := isV2 && |data| >= 16;
      Ok(MuxHeader(U32At(data, 0), U32At(data, 4), isV2,
                   if counted then U16At(data, 12) else 0,
                   if counted then U16At(data, 14) else 0))
  }

  function ParseTcpHeader(data: seq<byte>): Result<TcpHeader, MuxError> {
    if |data| < 20 then Err(InvalidHeader)
    else Ok(TcpHeader(U16At(data, 0), U16At(data, 2), U32At(data, 4), U32At(data, 8),
                      U16At(data, 12), U16At(data, 14)))
  }

  function ParseBody(protocol: u32, body: seq<byte>): Result<MuxPacket, MuxError> {
    if protocol == HEADER_VERSION then
      Ok(Version(if |body| >= 4 then U32At(body, 0) else 0, if |body| >= 8 then U32At(body, 4) else 0))
    else if protocol == HEADER_CONTROL then Ok(Control(body))
    else if protocol == HEADER_SETUP then Ok(Setup)
    else if protocol == HEADER_TCP then
      if |body| >= 20 then Ok(Tcp(ParseTcpHeader(body).value, body[20..])) else Err(InvalidHeader)
    else Err(UnsupportedProtocol(protocol))
  }

  function ParsePacket(data: seq<byte>): Result<MuxPacket, MuxError> {
    var header := ParseMuxHeader(data);
    if header.Err? then Err(header.error)
    else
      var start, end := header.value.HeaderLen(), header.value.length;
      if end > |data| || end < start then Err(InvalidHeader)
      else ParseBody(header.value.protocol, data[start..end])
  }

  // ---- building ------------------------------------------------------------

  /** The 32-bit length field wraps, as the cast and the addition of the original do. */
  function FrameHeader(protocol: u32, counters: Counters, bodyLength: nat): (h: seq<byte>)
    ensures |h| == if counters.Some? then 16 else 8
  {
    match counters
    case Some((tx, rx)) =>
      BeU32(protocol) + BeU32((16 + bodyLength) % 0x1_0000_0000) + BeU32(MAGIC_OURS) + BeU16(tx) + BeU16(rx)
    case None =>
      BeU32(protocol) + BeU32((8 + bodyLength) % 0x1_0000_0000)
  }

  function BuildMuxFrame(protocol: u32, counters: Counters, body: seq<byte>): seq<byte> {
    FrameHeader(protocol, counters, |body|) + body
  }

  function BuildVersionRequest(): (f: seq<byte>)
    ensures |f| == 20
  {
    BuildMuxFrame(HEADER_VERSION, None, BeU32(2) + BeU32(0) + BeU32(0))
  }

  function BuildSetupPacket(tx: u16, rx: u16): seq<byte> {
    BuildMuxFrame(HEADER_SETUP, Some((tx, rx)), [0x07])
  }

  /** The arguments of `build_tcp_packet`, as one value. */
  datatype Segment = Segment(counters: Counters, sport: u16, dport: u16, seqNo: u32, ackNo: u32,
                             flags: u16, window: u16, payload: seq<byte>) {
    /** Data offset 5 in the top nibble, low twelve bits of the flags. */
    function OffsetFlags(): u16 { 0x5000 + flags % 0x1000 }

    function Header(): TcpHeader { TcpHeader(sport, dport, seqNo, ackNo, OffsetFlags(), window) }

    /** Size of the encoded frame. */
    function Size(): nat { (if counters.Some? then 16 else 8) + 20 + |payload| }

    /** Can the frame be told from one with the other header size? */
    predicate Unambiguous() {
      counters.Some? || !((sport == 0xFEED || sport == 0xFACE) && dport == 0xFACE)
    }
  }

  function TcpHeaderBytes(g: Segment): (t: seq<byte>)
    ensures |t| == 20
  {
    BeU16(g.sport) + BeU16(g.dport) + BeU32(g.seqNo) + BeU32(g.ackNo)
    + BeU16(g.OffsetFlags()) + BeU16(g.window) + [0, 0] + [0, 0]
  }

  function BuildTcpPacket(g: Segment): (frame: seq<byte>)
    ensures |frame| == g.Size()
  {
    BuildMuxFrame(HEADER_TCP, g.counters, TcpHeaderBytes(g) + g.payload)
  }

  // ---- parsing what was built ------------------------------------------------

  lemma FrameHeaderFields(protocol: u32, counters: Counters, body: seq<byte>)
    ensures var frame := BuildMuxFrame(protocol, counters, body);
      && U32At(frame, 0) == protocol
      && U32At(frame, 4) == |frame| % 0x1_0000_0000
      && (counters.Some? ==> U32At(frame, 8) == MAGIC_OURS
                             && U16At(frame, 12) == counters.value.0 && U16At(frame, 14) == counters.value.1)
      && (counters.None? && |body| >= 4 ==> U32At(frame, 8) == U32At(body, 0))
  {
    hide BeU16, BeU32;
    var frame := BuildMuxFrame(protocol, counters, body);
    var h := FrameHeader(protocol, counters, |body|);
    assert frame[..|h|] == h;
    var len := BeU32(|frame| % 0x1_0000_0000);
    assert h[0..4] == BeU32(protocol) && h[4..8] == len;
    if counters.Some? {
      assert h[8..12] == BeU32(MAGIC_OURS);
      assert h[12..14] == BeU16(counters.value.0) && h[14..16] == BeU16(counters.value.1);
    } else {
      assert frame[8..] == body;
    }
  }

  /** The TCP frame on the wire, field by field: after the mux header come ports, numbers, the data offset
      in 32-bit words with the low twelve bits of the flags, the window and four zero bytes, and the
      data offset leads from the TCP header to the payload. */
  lemma TcpLayout(g: Segment)
    ensures var f, h := BuildTcpPacket(g), if g.counters.Some? then 16 else 8;
      && |f| == h + 20 + |g.payload|
      && U16At(f, h) == g.sport && U16At(f, h + 2) == g.dport
      && U32At(f, h + 4) == g.seqNo && U32At(f, h + 8) == g.ackNo
      && U16At(f, h + 12) % 0x1000 == g.flags % 0x1000
      && f[h + U16At(f, h + 12) / 0x1000 * 4..] == g.payload
      && U16At(f, h + 14) == g.window && f[h + 16..h + 20] == [0, 0, 0, 0]
  {
    var t := TcpHeaderBytes(g);
    var head := FrameHeader(HEADER_TCP, g.counters, |t + g.payload|);
    TcpFieldBytes(g);
    assert BuildTcpPacket(g) == head + t + g.payload;
    hide BuildTcpPacket, TcpHeaderBytes, FrameHeader, U16At, U32At;
    FieldsInside(head, t, g.payload);
  }

  /** The words of a twenty-byte header between other bytes. */
  lemma FieldsInside(head: seq<byte>, t: seq<byte>, payload: seq<byte>)
    requires |t| == 20
    ensures var f, h := head + t + payload, |head|;
      && U16At(f, h) == U16At(t, 0) && U16At(f, h + 2) == U16At(t, 2) && U32At(f, h + 4) == U32At(t, 4)
      && U32At(f, h + 8) == U32At(t, 8) && U16At(f, h + 12) == U16At(t, 12) && U16At(f, h + 14) == U16At(t, 14)
      && f[h + 16..h + 20] == t[16..20] && f[h + 20..] == payload
  {
    ReadInside(head, t, payload, 0);
    ReadInside(head, t, payload, 2);
    ReadInside(head, t, payload, 4);
    ReadInside(head, t, payload, 8);
    ReadInside(head, t, payload, 12);
    ReadInside(head, t, payload, 14);
    hide U16At, U32At;
  }

  lemma TcpFieldBytes(g: Segment)
    ensures var t := TcpHeaderBytes(g);
      && U16At(t, 0) == g.sport && U16At(t, 2) == g.dport && U32At(t, 4) == g.seqNo && U32At(t, 8) == g.ackNo
      && U16At(t, 12) == 0x5000 + g.flags % 0x1000 && U16At(t, 14) == g.window && t[16..20] == [0, 0, 0, 0]
  {
    hide BeU16, BeU32;
    var t := TcpHeaderBytes(g);
    assert t[0..2] == BeU16(g.sport) && t[2..4] == BeU16(g.dport) && t[4..8] == BeU32(g.seqNo);
    assert t[8..12] == BeU32(g.ackNo) && t[12..14] == BeU16(g.OffsetFlags()) && t[14..16] == BeU16(g.window);
  }

  /** The flag bits a segment is tested for. */
  lemma FlagBits(flags: u16)
    ensures Has(flags, TCP_FIN) <==> Bit(flags, 0)
    ensures Has(flags, TCP_SYN) <==> Bit(flags, 1)
    ensures Has(flags, TCP_RST) <==> Bit(flags, 2)
    ensures Has(flags, TCP_ACK) <==> Bit(flags, 4)
  {
    assert flags / 4 == flags / 2 / 2 && flags / 16 == flags / 2 / 2 / 2 / 2;
    assert Bit(flags, 4) <==> Bit(flags / 2, 3);
    assert Bit(flags / 2, 3) <==> Bit(flags / 2 / 2, 2);
    assert Bit(flags / 2 / 2, 2) <==> Bit(flags / 2 / 2 / 2, 1);
  }

  /** The mux header of a TCP frame on the wire: protocol 6, the whole length, magic and counters. */
  lemma TcpFrameStart(g: Segment)
    requires g.Size() < 0x1_0000_0000
    ensures var f := BuildTcpPacket(g);
      && U32At(f, 0) == 6 && U32At(f, 4) == |f|
      && (g.counters.Some? ==>
            U32At(f, 8) == 0xFEED_FACE && U16At(f, 12) == g.counters.value.0 && U16At(f, 14) == g.counters.value.1)
  {
    hide U32At, U16At, FrameHeader, TcpHeaderBytes;
    FrameHeaderFields(HEADER_TCP, g.counters, TcpHeaderBytes(g) + g.payload);
  }

  /** The SETUP frame on the wire: protocol 2, both counters, and the byte 7. */
  lemma SetupFrameBytes(tx: u16, rx: u16)
    ensures var f := BuildSetupPacket(tx, rx);
      U32At(f, 0) == 2 && U16At(f, 12) == tx && U16At(f, 14) == rx && f[16..] == [7]
  {
    hide U32At, U16At, FrameHeader;
    FrameHeaderFields(HEADER_SETUP, Some((tx, rx)), [0x07]);
  }

  /** A built frame parses to its own protocol and body, unless the body of a short-header frame
      starts with one of the two magic numbers; then eight more bytes are taken for header. */
  lemma ParseBuilt(protocol: u32, counters: Counters, body: seq<byte>)
    requires 16 + |body| < 0x1_0000_0000
    ensures var frame := BuildMuxFrame(protocol, counters, body);
      var confused := counters.None? && |body| >= 4 && IsMagic(U32At(body, 0));
      ParsePacket(frame) == if !confused then ParseBody(protocol, body)
                            else if |body| >= 8 then ParseBody(protocol, body[8..])
                            else Err(InvalidHeader)
  {
    hide FrameHeader, ParsePacket, ParseBody, U32At;
    FrameHeaderFields(protocol, counters, body);
    ParseSplit(FrameHeader(protocol, counters, |body|), body, protocol);
  }

  /** Parsing a header followed by a body, from the fields the header holds. */
  lemma ParseSplit(h: seq<byte>, body: seq<byte>, protocol: u32)
    requires |h| == 8 || (|h| == 16 && U32At(h + body, 8) == MAGIC_OURS)
    requires U32At(h + body, 0) == protocol && U32At(h + body, 4) == |h + body|
    requires |h| == 8 && |body| >= 4 ==> U32At(h + body, 8) == U32At(body, 0)
    ensures ParsePacket(h + body) == if |h| == 16 || |body| < 4 || !IsMagic(U32At(body, 0)) then
            ParseBody(protocol, body)
                                     else if |body| >= 8 then ParseBody(protocol, body[8..])
                                     else Err(InvalidHeader)
  {
    hide U32At, U16At, ParseBody;
    var frame := h + body;
    var header := ParseMuxHeader(frame).value;
    assert header.isV2 <==> |h| == 16 || (|body| >= 4 && IsMagic(U32At(body, 0)));
    assert frame[|h|..|frame|] == body;
    if |h| == 8 && |body| >= 8 {
      assert frame[16..|frame|] == body[8..];
    }
  }

  lemma TcpHeaderParsed(g: Segment)
    ensures var body := TcpHeaderBytes(g) + g.payload;
      ParseTcpHeader(body) == Ok(g.Header()) && body[20..] == g.payload
      && U32At(body, 0) == g.sport as int * 0x1_0000 + g.dport
  {
    hide BeU16, BeU32;
    var t := TcpHeaderBytes(g);
    var body := t + g.payload;
    assert body[..20] == t;
    assert t[0..2] == BeU16(g.sport) && t[2..4] == BeU16(g.dport);
    assert t[4..8] == BeU32(g.seqNo) && t[8..12] == BeU32(g.ackNo);
    assert t[12..14] == BeU16(g.OffsetFlags()) && t[14..16] == BeU16(g.window);
  }

  /** Round trip of one segment, with its exact condition: the parsed packet is the segment
      if and only if the header is the extended one or the two ports do not spell a magic number. */
  lemma SegmentRoundTrip(g: Segment)
    requires g.Size() + 8 < 0x1_0000_0000
    ensures ParsePacket(BuildTcpPacket(g)) == Ok(Tcp(g.Header(), g.payload)) <==> g.Unambiguous()
    ensures g.flags < 0x100 ==> g.Header().Flags() == g.flags
  {
    hide ParsePacket, ParseBody, ParseTcpHeader, U32At, BuildMuxFrame, TcpHeaderBytes;
    var body := TcpHeaderBytes(g) + g.payload;
    ParseBuilt(HEADER_TCP, g.counters, body);
    TcpHeaderParsed(g);
    TcpBody(body, g.Header(), g.payload);
  }

  /** A segment that is lost: its ports spell a magic number, so eight bytes of its TCP header are taken
      for mux header and the rest is too short. */
  lemma ConfusedSegment()
    ensures var g := Segment(None, 0xFACE, 0xFACE, 1, 2, TCP_ACK, 512, []);
      !g.Unambiguous() && ParsePacket(BuildTcpPacket(g)) == Err(InvalidHeader)
  {
    hide ParsePacket, ParseTcpHeader, U32At, BuildMuxFrame, TcpHeaderBytes;
    var g := Segment(None, 0xFACE, 0xFACE, 1, 2, TCP_ACK, 512, []);
    ParseBuilt(HEADER_TCP, None, TcpHeaderBytes(g) + g.payload);
    TcpHeaderParsed(g);
  }

  /** A TCP body read from its start gives its header and payload; read eight bytes late, it does not. */
  lemma TcpBody(body: seq<byte>, header: TcpHeader, payload: seq<byte>)
    requires |body| == 20 + |payload| && ParseTcpHeader(body) == Ok(header) && body[20..] == payload
    ensures ParseBody(HEADER_TCP, body) == Ok(Tcp(header, payload))
    ensures ParseBody(HEADER_TCP, body[8..]) != Ok(Tcp(header, payload))
  {
    if |body| >= 28 {
      assert |ParseBody(HEADER_TCP, body[8..]).value.payload| == |payload| - 8;
    }
  }

  /** A frame cut short anywhere is rejected. */
  lemma TruncatedRejected(protocol: u32, counters: Counters, body: seq<byte>, n: nat)
    requires 16 + |body| < 0x1_0000_0000 && n < |BuildMuxFrame(protocol, counters, body)|
    ensures ParsePacket(BuildMuxFrame(protocol, counters, body)[..n]) == Err(InvalidHeader)
  {
    hide FrameHeader, ParsePacket, U32At;
    FrameHeaderFields(protocol, counters, body);
    LongerThanInput(BuildMuxFrame(protocol, counters, body), n);
  }

  /** Bytes whose length field reaches beyond them are rejected. */
  lemma LongerThanInput(frame: seq<byte>, n: nat)
    requires n < |frame| && (|frame| >= 8 ==> U32At(frame, 4) == |frame|)
    ensures ParsePacket(frame[..n]) == Err(InvalidHeader)
  {
    if n >= 8 {
      assert U32At(frame[..n], 4) == U32At(frame, 4);
    }
    hide U32At, U16At, ParseBody;
  }

  /** Headers cut short: fewer than eight bytes are no header, the magic is looked for from twelve bytes on,
      and counters that are not all there read as zero. */
  lemma ShortHeaders(data: seq<byte>)
    ensures ParseMuxHeader(data) == Err(InvalidHeader) <==> |data| < 8
    ensures 8 <= |data| < 12 ==> !ParseMuxHeader(data).value.isV2
    ensures 8 <= |data| < 16 ==> ParseMuxHeader(data).value.txSeq == 0 && ParseMuxHeader(data).value.rxSeq == 0
  {
  }

  /** Frames of the other protocols: control bodies come back as they are, a version body too short for a
      number reads as zero, and an unknown protocol is reported as such. */
  lemma OtherProtocols(protocol: u32, counters: Counters, body: seq<byte>)
    requires 16 + |body| < 0x1_0000_0000 && (counters.Some? || |body| < 4 || !IsMagic(U32At(body, 0)))
    ensures var r := ParsePacket(BuildMuxFrame(protocol, counters, body));
      && (protocol == 0 ==>
            r == Ok(Version(if |body| >= 4 then U32At(body, 0) else 0, if |body| >= 8 then U32At(body, 4) else 0)))
      && (protocol == 1 ==> r == Ok(Control(body)))
      && (protocol == 2 ==> r == Ok(Setup))
      && (protocol == 6 && |body| < 20 ==> r == Err(InvalidHeader))
      && (protocol !in {0, 1, 2, 6} ==> r == Err(UnsupportedProtocol(protocol)))
  {
    ParseBuilt(protocol, counters, body);
    hide ParsePacket, BuildMuxFrame, U32At, ParseTcpHeader;
  }

  /** A frame of three words with the short header, word by word. */
  lemma ThreeWords(protocol: u32, a: u32, b: u32, c: u32)
    ensures var f := BuildMuxFrame(protocol, None, BeU32(a) + BeU32(b) + BeU32(c));
      && |f| == 20 && U32At(f, 0) == protocol && U32At(f, 4) == 20
      && U32At(f, 8) == a && U32At(f, 12) == b && U32At(f, 16) == c
  {
    hide BeU32, U32At, FrameHeader;
    var x, y, z := BeU32(a), BeU32(b), BeU32(c);
    var f, head := BuildMuxFrame(protocol, None, x + y + z), FrameHeader(protocol, None, 12);
    FrameHeaderFields(protocol, None, x + y + z);
    ReadInside(head, x, y + z, 0);
    ReadInside(head + x, y, z, 0);
    ReadInside(head + x + y, z, [], 0);
    assert f == head + x + (y + z) == head + x + y + z == head + x + y + z + [];
  }

  /** The version request on the wire: five words, of which the third asks for version 2. */
  lemma VersionRequestWords(f: seq<byte>)
    requires f == BuildVersionRequest()
    ensures |f| == 20 && U32At(f, 0) == 0 && U32At(f, 4) == 20
    ensures |f| == 20 ==> U32At(f, 8) == 2 && U32At(f, 12) == 0 && U32At(f, 16) == 0
  {
    hide U32At, BeU32, BuildMuxFrame;
    ThreeWords(0, 2, 0, 0);
  }

  /** The two control exchanges of a connection's start parse to what they announce. */
  lemma HandshakeFramesParse(tx: u16, rx: u16)
    ensures ParsePacket(BuildVersionRequest()) == Ok(Version(2, 0)) && |BuildVersionRequest()| == 20
    ensures ParsePacket(BuildSetupPacket(tx, rx)) == Ok(Setup)
    ensures ParseMuxHeader(BuildSetupPacket(tx, rx)) == Ok(MuxHeader(HEADER_SETUP, 17, true, tx, rx))
  {
    hide BeU32, BeU16, ParsePacket, FrameHeader;
    var body := BeU32(2) + BeU32(0) + BeU32(0);
    assert body[0..4] == BeU32(2) && body[4..8] == BeU32(0);
    assert U32At(body, 0) == 2 && U32At(body, 4) == 0;
    hide U32At, U16At;
    ParseBuilt(HEADER_VERSION, None, body);
    ParseBuilt(HEADER_SETUP, Some((tx, rx)), [0x07]);
    FrameHeaderFields(HEADER_SETUP, Some((tx, rx)), [0x07]);
  }

  /** The window field for an amount of free space: 256-byte units, saturating at 16 bits. */
  function ScaledWindow(free: nat): (w: u16)
    ensures w as int * 256 <= free
    ensures free < 0x100_0000 ==> free < (w as int + 1) * 256
    ensures free >= 0x100_0000 ==> w == 0xFFFF
  {
    if free / 256 > 0xFFFF then 0xFFFF else free / 256
  }
}
