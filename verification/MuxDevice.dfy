/** One attached device: its connections, the handlers that change them, and the frames they send. */
module MuxDevice {
  import opened Bytes
  import opened MuxCodec

  const FIRST_PORT: u16 := 1024
  const END_PORT: u16 := 65535
  const HANDSHAKE_WINDOW: u16 := 65535

  datatype ConnState =
    SynSent | SynAckReceived | Established | Connected | Refused | FinWait1 | CloseWait | Closing | Closed | Dead
  {
    predicate IsActive() { Established? || Connected? || CloseWait? }
  }

  datatype Connection = Connection(
    sourcePort: u16, destPort: u16, state: ConnState, txSeq: u32, txAck: u32,
    ibBuf: seq<byte>, obBuf: seq<byte>, tag: u32)

  datatype Device = Device(connections: map<u16, Connection>, version: nat, txSeq: u16, rxSeq: u16)

  datatype ConnectionEvent =
    | ConnectedEvent(sport: u16, tag: u32)
    | Disconnected(sport: u16)
    | DataReady(sport: u16)
    | UnknownConnection(sport: u16)

  datatype ConnectError = NoPorts | SynFailed(sport: u16)

  /** Why a TCP frame was sent. */
  datatype Kind = Syn | HandshakeAck | DataAck | Data | WindowUpdate

  datatype Frame = SetupFrame(tx: u16, rx: u16) | TcpFrame(kind: Kind, segment: Segment) {
    function Encode(): seq<byte> {
      if SetupFrame? then BuildSetupPacket(tx, rx) else BuildTcpPacket(segment)
    }

    /** The frame number on the wire, when the extended header is in use. */
    function Number(): Option<u16> {
      if SetupFrame? then Some(tx)
      else if segment.counters.Some? then Some(segment.counters.value.0) else None
    }
  }

  function Encoded(f: Option<Frame>): Option<seq<byte>> {
    if f.None? then None else Some(f.value.Encode())
  }

  function Bump16(x: u16): u16 { Wrap16(x + 1) }
  function Add32(x: u32, n: nat): u32 { Wrap32(x + n) }

  // ---- what each handler does, as functions of the device -------------------

  function Counters(d: Device): Counters {
    if d.version >= 2 then Some((d.txSeq, d.rxSeq)) else None
  }

  function NewDevice(): Device { Device(map[], 1, 1, 1) }

  ghost predicate LeastFree(d: Device, p: u16) {
    && FIRST_PORT <= p < END_PORT
    && p !in d.connections
    && forall q: u16 :: FIRST_PORT <= q < p ==> q in d.connections
  }

  /** A connection to `dport` that was just opened: nothing sent, nothing received, not accepted yet. */
  predicate Fresh(c: Connection, sport: u16, dport: u16, tag: u32) {
    && c.sourcePort == sport && c.destPort == dport && c.tag == tag && c.state == SynSent
    && c.txSeq == 0 && c.txAck == 0 && c.ibBuf == [] && c.obBuf == []
  }

  function Open(d: Device, sport: u16, dport: u16, tag: u32): Device {
    d.(connections := d.connections[sport := Connection(sport, dport, SynSent, 0, 0, [], [], tag)])
  }

  function SynFrame(d: Device, sport: u16): Frame
    requires sport in d.connections
  {
    TcpFrame(Syn, Segment(Counters(d), sport, d.connections[sport].destPort, 0, 0, TCP_SYN, INITIAL_WINDOW / 256, []))
  }

  function AfterSyn(d: Device): Device {
    if d.version >= 2 then d.(txSeq := Bump16(d.txSeq)) else d
  }

  function Negotiated(d: Device, major: u32): Device {
    d.(version := if major >= 2 then 2 else 1, txSeq := 1)
  }

  /** The peer's counter is remembered from every extended-header TCP frame. */
  function PeerCounter(d: Device, data: seq<byte>): Device {
    var hdr := ParseMuxHeader(data);
    if hdr.Ok? && hdr.value.isV2 then d.(rxSeq := hdr.value.rxSeq) else d
  }

  predicate Exact(c: Connection, h: TcpHeader) {
    c.sourcePort == h.destPort && c.destPort == h.sourcePort
  }

  predicate Loose(c: Connection, h: TcpHeader) {
    c.sourcePort == h.sourcePort || c.destPort == h.sourcePort
  }

  ghost predicate HasExact(d: Device, h: TcpHeader) {
    exists k: u16 :: k in d.connections && Exact(d.connections[k], h)
  }

  /** A lookup outcome some iteration order of the hash map can give. */
  ghost predicate Routed(d: Device, h: TcpHeader, key: Option<u16>) {
    match key
    case Some(k) =>
      k in d.connections
      && (Exact(d.connections[k], h) || (!HasExact(d, h) && Loose(d.connections[k], h)))
    case None =>
      forall k: u16 :: k in d.connections ==> !Exact(d.connections[k], h) && !Loose(d.connections[k], h)
  }

  predicate IsSynAck(h: TcpHeader) { Has(h.Flags(), TCP_SYN) && Has(h.Flags(), TCP_ACK) }

  /** Does a segment carry data the connection will look at? */
  predicate CarriesData(h: TcpHeader, payload: seq<byte>) {
    !IsSynAck(h) && !Has(h.Flags(), TCP_RST) && !Has(h.Flags(), TCP_FIN) && payload != []
  }

  predicate Overflows(c: Connection, payload: seq<byte>, cap: nat) {
    |c.ibBuf| + |payload| > cap
  }

  function Free(c: Connection, cap: nat): nat {
    if |c.ibBuf| <= cap then cap - |c.ibBuf| else 0
  }

  function AckSegment(d: Device, c: Connection, window: u16): Segment {
    Segment(Counters(d), c.sourcePort, c.destPort, c.txSeq, c.txAck, TCP_ACK, window, [])
  }

  datatype Reception = Reception(device: Device, reply: Option<Frame>, event: Option<ConnectionEvent>)

  function Receive(d: Device, h: TcpHeader, payload: seq<byte>, key: Option<u16>, cap: nat): Reception
    requires key.Some? ==> key.value in d.connections
  {
    match key
    case None => Reception(d, None, Some(UnknownConnection(h.sourcePort)))
    case Some(k) =>
      var c := d.connections[k];
      if IsSynAck(h) then
        var c' := c.(state := Connected, txAck := Add32(h.seqNo, 1));
        Reception(d.(connections := d.connections[k := c'], txSeq := Bump16(d.txSeq)),
                  Some(TcpFrame(HandshakeAck, AckSegment(d, c', HANDSHAKE_WINDOW))),
                  Some(ConnectedEvent(c.sourcePort, c.tag)))
      else if Has(h.Flags(), TCP_RST) then
        Reception(d.(connections := d.connections[k := c.(state := Dead)]), None, Some(Disconnected(c.sourcePort)))
      else if Has(h.Flags(), TCP_FIN) then
        Reception(d.(connections := d.connections[k := c.(state := CloseWait)]), None, Some(Disconnected(c.sourcePort)))
      else if payload == [] || Overflows(c, payload, cap) then
        Reception(d, None, None)
      else
        var c' := c.(txAck := Add32(h.seqNo, |payload|), ibBuf := c.ibBuf + payload);
        Reception(d.(connections := d.connections[k := c'], txSeq := Bump16(d.txSeq)),
                  Some(TcpFrame(DataAck, AckSegment(d, c', ScaledWindow(Free(c', cap))))),
                  Some(DataReady(c.sourcePort)))
  }

  /** What a reception can change: the chosen connection's state and inbound side, and the counter
      when a reply goes out. */
  lemma ReceiveEffect(d: Device, h: TcpHeader, payload: seq<byte>, key: Option<u16>, cap: nat)
    requires key.Some? ==> key.value in d.connections
    ensures var r := Receive(d, h, payload, key, cap);
      && r.device.connections.Keys == d.connections.Keys
      && (forall q: u16 :: q in d.connections && Some(q) != key ==> r.device.connections[q] == d.connections[q])
      && r.device.version == d.version && r.device.rxSeq == d.rxSeq
      && r.device.txSeq == (if r.reply.Some? then Bump16(d.txSeq) else d.txSeq)
      && (r.reply.Some? ==>
            key.Some? && r.reply.value.TcpFrame? && r.reply.value.kind != Data && r.reply.value.kind != WindowUpdate
            && r.reply.value.segment.counters == Counters(d))
      && (key.Some? ==>
            var c, c' := d.connections[key.value], r.device.connections[key.value];
            c'.sourcePort == c.sourcePort && c'.destPort == c.destPort && c'.tag == c.tag
            && c'.obBuf == c.obBuf && c'.txSeq == c.txSeq
            && if CarriesData(h, payload) && !Overflows(c, payload, cap) then
                 c'.ibBuf == c.ibBuf + payload && c'.txAck == Add32(h.seqNo, |payload|)
                 && r.reply.Some? && r.reply.value.segment.window == ScaledWindow(Free(c', cap))
               else if IsSynAck(h) then c'.ibBuf == c.ibBuf && c'.txAck == Add32(h.seqNo, 1)
               else c'.ibBuf == c.ibBuf && c'.txAck == c.txAck && r.reply.None?)
  {
    hide Has, ScaledWindow, Bump16, Add32;
  }

  /** A reply goes back to where the connection leads and acknowledges what the connection now has. */
  lemma ReplyAddressed(d: Device, h: TcpHeader, payload: seq<byte>, key: Option<u16>, cap: nat)
    requires key.Some? ==> key.value in d.connections
    ensures var r := Receive(d, h, payload, key, cap);
      r.reply.Some? ==>
        key.Some? && r.reply.value.TcpFrame? && key.value in r.device.connections
        && var g, c, c' := r.reply.value.segment, d.connections[key.value], r.device.connections[key.value];
        g.sport == c.sourcePort && g.dport == c.destPort == c'.destPort && g.seqNo == c.txSeq && g.ackNo == c'.txAck
        && g.flags == TCP_ACK && g.payload == []
        && (r.reply.value.kind == HandshakeAck || r.reply.value.kind == DataAck)
        && g.window == (if r.reply.value.kind == HandshakeAck then 65535 else ScaledWindow(Free(c', cap)))
        && (r.reply.value.kind == HandshakeAck <==> IsSynAck(h))
  {
    hide Has, ScaledWindow, Bump16, Add32;
  }

  /** What the caller is told: a SYN|ACK connects the connection's own client, a reset or FIN disconnects
      it, accepted data makes it readable, and a segment for nobody is reported under its source port. */
  lemma ReceiveTells(d: Device, h: TcpHeader, payload: seq<byte>, key: Option<u16>, cap: nat)
    requires key.Some? ==> key.value in d.connections
    ensures var event := Receive(d, h, payload, key, cap).event;
      && (key.None? ==> event == Some(UnknownConnection(h.sourcePort)))
      && (key.Some? ==>
            var c := d.connections[key.value];
            var syn, ack := Bit(h.Flags(), 1), Bit(h.Flags(), 4);
            var rst, fin := Bit(h.Flags(), 2), Bit(h.Flags(), 0);
            && (syn && ack ==> event == Some(ConnectedEvent(c.sourcePort, c.tag)))
            && (!(syn && ack) && (rst || fin) ==> event == Some(Disconnected(c.sourcePort)))
            && (!(syn && ack) && !rst && !fin && payload != [] ==>
                  event == if |c.ibBuf| + |payload| <= cap then Some(DataReady(c.sourcePort)) else None)
            && (!(syn && ack) && !rst && !fin && payload == [] ==> event == None))
  {
    FlagBits(h.Flags());
    hide Has, Bit, ScaledWindow, Bump16, Add32;
  }

  /** Routing by ports: an exact match wins; without one any connection that has the segment's source port
      on either side may be chosen; and nothing is chosen exactly when no connection has it. */
  lemma RoutingByPorts(d: Device, h: TcpHeader, key: Option<u16>)
    ensures key.None? ==>
      (Routed(d, h, key) <==> forall k: u16 :: k in d.connections ==>
         d.connections[k].sourcePort != h.sourcePort && d.connections[k].destPort != h.sourcePort)
    ensures key.Some? ==>
      (Routed(d, h, key) <==>
         && key.value in d.connections
         && var c := d.connections[key.value];
         || (c.sourcePort == h.destPort && c.destPort == h.sourcePort)
         || (&& (c.sourcePort == h.sourcePort || c.destPort == h.sourcePort)
             && forall k: u16 :: k in d.connections ==>
                  !(d.connections[k].sourcePort == h.destPort && d.connections[k].destPort == h.sourcePort)))
  {
  }

  /** The peer counter is the second counter of the extended header; a short-header frame leaves it. */
  lemma PeerCounterRead(d: Device, g: Segment)
    requires g.Size() + 8 < 0x1_0000_0000 && g.Unambiguous()
    ensures PeerCounter(d, BuildTcpPacket(g)) == if g.counters.Some? then d.(rxSeq := g.counters.value.1) else d
  {
    hide U32At, U16At, FrameHeader, TcpHeaderBytes;
    FrameHeaderFields(HEADER_TCP, g.counters, TcpHeaderBytes(g) + g.payload);
    TcpHeaderParsed(g);
  }

  function DataFrame(d: Device, sport: u16, data: seq<byte>): Option<Frame> {
    if sport !in d.connections || d.connections[sport].state != Connected then None
    else
      var c := d.connections[sport];
      Some(TcpFrame(Data, Segment(Counters(d), sport, c.destPort, c.txSeq, c.txAck, TCP_ACK, INITIAL_WINDOW / 256,
          data)))
  }

  function AfterData(d: Device, sport: u16, data: seq<byte>): Device
    requires sport in d.connections
  {
    var c := d.connections[sport];
    d.(txSeq := Bump16(d.txSeq),
       connections := d.connections[sport := c.(txSeq := Add32(c.txSeq, |data|), obBuf := c.obBuf + data)])
  }

  function WindowFrame(d: Device, sport: u16, cap: nat): Option<Frame> {
    if sport !in d.connections || !d.connections[sport].state.IsActive() then None
    else
      var c := d.connections[sport];
      Some(TcpFrame(WindowUpdate, Segment(Counters(d), sport, c.destPort, c.txSeq, c.txAck, TCP_ACK,
                                          ScaledWindow(Free(c, cap)), [])))
  }

  function Drained(d: Device, sport: u16): Device
    requires sport in d.connections
  {
    d.(connections := d.connections[sport := d.connections[sport].(ibBuf := [])])
  }

  function Removed(d: Device, sport: u16): Device {
    d.(connections := d.connections - {sport})
  }

  function AllDead(d: Device): Device {
    d.(connections := map k | k in d.connections :: d.connections[k].(state := Dead))
  }

  /** What the drain step of the proxy loop found. */
  datatype Drain = Exit | NotConnected | NotFound | Bytes(data: seq<byte>) | NothingYet

  /** What the locked section of the proxy loop makes of a connection. */
  function DrainOf(d: Device, sport: u16): Drain {
    if sport !in d.connections then NotFound
    else
      var c := d.connections[sport];
      if c.state == Dead then Exit
      else if c.state != Connected then NotConnected
      else if c.ibBuf == [] then NothingYet
      else Bytes(c.ibBuf)
  }

  /** What the proxy finds: nothing without a connection, the end of a dead one, an error for one that is
      not connected, and otherwise the buffered bytes, all of them. */
  lemma DrainFinds(d: Device, p: u16)
    ensures DrainOf(Removed(d, p), p) == NotFound
    ensures p in d.connections ==>
              var c := d.connections[p];
              && (DrainOf(d, p) == Exit <==> c.state == Dead)
              && (DrainOf(d, p) == NotConnected <==> c.state != Dead && c.state != Connected)
              && (c.state == Connected && c.ibBuf == [] <==> DrainOf(d, p) == NothingYet)
              && (c.state == Connected && c.ibBuf != [] <==> DrainOf(d, p) == Bytes(c.ibBuf))
  {
  }

  /** Disconnects end the proxy whatever is still buffered: a reset makes it exit, a FIN makes it
      fail, and neither takes the buffer, so delivery is a prefix. Neither state is final: a SYN|ACK
      reconnects the same connection with its buffers and counters as they are. */
  lemma DisconnectsEndProxy(d: Device, h: TcpHeader, payload: seq<byte>, p: u16, cap: nat)
    requires p in d.connections
    ensures var c, d' := d.connections[p], Receive(d, h, payload, Some(p), cap).device;
      && (!IsSynAck(h) && Has(h.Flags(), TCP_RST) ==>
            DrainOf(d', p) == Exit && d'.connections[p].ibBuf == c.ibBuf && DataFrame(d', p, payload).None?)
      && (!IsSynAck(h) && !Has(h.Flags(), TCP_RST) && Has(h.Flags(), TCP_FIN) ==>
            DrainOf(d', p) == NotConnected && d'.connections[p].ibBuf == c.ibBuf && DataFrame(d', p, payload).None?
            && WindowFrame(d', p, cap).Some?)
      && (IsSynAck(h) ==>
            DrainOf(d', p) == (if c.ibBuf == [] then NothingYet else Bytes(c.ibBuf))
            && DataFrame(d', p, payload).Some? && d'.connections[p].txSeq == c.txSeq)
      && (CarriesData(h, payload) ==> d'.connections[p].state == c.state)
  {
    hide Has, ScaledWindow, Bump16, Add32;
  }

  /** After a USB disconnect every proxy exits and nothing more is sent for any connection. */
  lemma UsbDisconnectEndsTraffic(d: Device, p: u16, data: seq<byte>, cap: nat)
    requires p in d.connections
    ensures var d' := AllDead(d);
      && d'.connections.Keys == d.connections.Keys && d'.connections[p] == d.connections[p].(state := Dead)
      && DrainOf(d', p) == Exit && DataFrame(d', p, data).None? && WindowFrame(d', p, cap).None?
  {
  }

  // ---- the object -------------------------------------------------------------

  class Mux {
    var connections: map<u16, Connection>
    var version: nat
    var txSeq: u16
    var rxSeq: u16

    ghost function View(): Device
      reads this
    {
      Device(connections, version, txSeq, rxSeq)
    }

    constructor ()
      ensures View() == NewDevice() && connections == map[] && version == 1 && txSeq == 1 && rxSeq == 1
    {
      connections, version, txSeq, rxSeq := map[], 1, 1, 1;
    }

    /** The least free source port, or an error exactly when all 64511 are taken. */
    method StartConnect(dport: u16, tag: u32) returns (r: Result<u16, ()>)
      modifies this`connections
      ensures r.Ok? ==> LeastFree(old(View()), r.value) && View() == Open(old(View()), r.value, dport, tag)
      ensures r.Ok? ==> 1024 <= r.value <= 65534 && connections.Keys == old(connections).Keys + {r.value}
                        && Fresh(connections[r.value], r.value, dport, tag)
      ensures r.Ok? ==> forall q: u16 :: q in old(connections) ==> connections[q] == old(connections)[q]
      ensures r.Err? <==> forall q: u16 :: 1024 <= q <= 65534 ==> q in old(connections)
      ensures r.Err? ==> View() == old(View())
    {
      var p: u16 := FIRST_PORT;
      while p < END_PORT
        invariant FIRST_PORT <= p <= END_PORT && connections == old(connections)
        invariant forall q: u16 :: FIRST_PORT <= q < p ==> q in connections
      {
        if p !in connections {
          connections := connections[p := Connection(p, dport, SynSent, 0, 0, [], [], tag)];
          return Ok(p);
        }
        p := p + 1;
      }
      return Err(());
    }

    /** The second locked section of a connect request: build the SYN of the port taken in the first. */
    method BuildSyn(sport: u16) returns (pkt: Option<seq<byte>>)
      modifies this
      ensures pkt == if sport in old(connections) then Some(SynFrame(old(View()), sport).Encode()) else None
      ensures View() == if pkt.Some? then AfterSyn(old(View())) else old(View())
      ensures connections == old(connections) && version == old(version) && rxSeq == old(rxSeq)
      ensures txSeq == if pkt.Some? && version >= 2 then (old(txSeq) + 1) % 0x1_0000 else old(txSeq)
    {
      if sport !in connections {
        return None;
      }
      var counters := if version >= 2 then Some((txSeq, rxSeq)) else None;
      pkt := Some(BuildTcpPacket(Segment(counters, sport, connections[sport].destPort, 0, 0,
                                         TCP_SYN, INITIAL_WINDOW / 256, [])));
      if version >= 2 {
        txSeq := Bump16(txSeq);
      }
    }

    /** Both sections with nothing in between. A SYN that cannot be sent leaves its port taken. */
    method Connect(dport: u16, tag: u32, usbOk: bool) returns (r: Result<u16, ConnectError>, pkt: Option<seq<byte>>)
      modifies this
      ensures r == Err(NoPorts) <==> forall q: u16 :: 1024 <= q <= 65534 ==> q in old(connections)
      ensures r == Err(NoPorts) ==> View() == old(View()) && pkt == None
      ensures r != Err(NoPorts) ==>
        var sport := if r.Ok? then r.value else r.error.sport;
        var dialled := Open(old(View()), sport, dport, tag);
        && (r.Ok? <==> usbOk) && LeastFree(old(View()), sport) && View() == AfterSyn(dialled)
        && sport in connections && Fresh(connections[sport], sport, dport, tag)
        && pkt == Some(SynFrame(dialled, sport).Encode())
    {
      var port := StartConnect(dport, tag);
      if port.Err? {
        return Err(NoPorts), None;
      }
      pkt := BuildSyn(port.value);
      r := if usbOk then Ok(port.value) else Err(SynFailed(port.value));
    }

    /** First exact match in iteration order, else first loose match, else nothing. */
    method FindConnection(h: TcpHeader) returns (key: Option<u16>)
      ensures Routed(View(), h, key)
    {
      var keys := connections.Keys;
      while keys != {}
        invariant keys <= connections.Keys
        invariant forall k: u16 :: k in connections && k !in keys ==> !Exact(connections[k], h)
        decreases |keys|
      {
        var k :| k in keys;
        if Exact(connections[k], h) {
          return Some(k);
        }
        keys := keys - {k};
      }
      keys := connections.Keys;
      while keys != {}
        invariant keys <= connections.Keys
        invariant forall k: u16 :: k in connections && k !in keys ==> !Loose(connections[k], h)
        decreases |keys|
      {
        var k :| k in keys;
        if Loose(connections[k], h) {
          return Some(k);
        }
        keys := keys - {k};
      }
      return None;
    }

    method HandleTcpPacket(h: TcpHeader, payload: seq<byte>, cap: nat)
      returns (key: Option<u16>, event: Option<ConnectionEvent>, reply: Option<seq<byte>>)
      modifies this
      ensures Routed(old(View()), h, key)
      ensures var r := Receive(old(View()), h, payload, key, cap);
        View() == r.device && event == r.event && reply == Encoded(r.reply)
    {
      hide Has, BuildTcpPacket, ScaledWindow, Bump16, Add32, HasExact;
      key := FindConnection(h);
      reply, event := None, None;
      if key.None? {
        event := Some(UnknownConnection(h.sourcePort));
        return;
      }
      var conn := connections[key.value];
      var counters := if version >= 2 then Some((txSeq, rxSeq)) else None;
      if Has(h.Flags(), TCP_SYN) && Has(h.Flags(), TCP_ACK) {
        conn := conn.(state := Connected, txAck := Add32(h.seqNo, 1));
        reply := Some(BuildTcpPacket(Segment(counters, conn.sourcePort, conn.destPort, conn.txSeq, conn.txAck,
                                             TCP_ACK, HANDSHAKE_WINDOW, [])));
        txSeq := Bump16(txSeq);
        event := Some(ConnectedEvent(conn.sourcePort, conn.tag));
      } else if Has(h.Flags(), TCP_RST) {
        conn := conn.(state := Dead);
        event := Some(Disconnected(conn.sourcePort));
      } else if Has(h.Flags(), TCP_FIN) {
        conn := conn.(state := CloseWait);
        event := Some(Disconnected(conn.sourcePort));
      } else if payload != [] && |conn.ibBuf| + |payload| <= cap {
        conn := conn.(txAck := Add32(h.seqNo, |payload|), ibBuf := conn.ibBuf + payload);
        reply := Some(BuildTcpPacket(Segment(counters, conn.sourcePort, conn.destPort, conn.txSeq, conn.txAck,
                                             TCP_ACK, ScaledWindow(cap - |conn.ibBuf|), [])));
        txSeq := Bump16(txSeq);
        event := Some(DataReady(conn.sourcePort));
      }
      assert conn == connections[key.value] ==> connections[key.value := conn] == connections;
      connections := connections[key.value := conn];
    }

    /** A packet from the device. `sent` lists the frames handed to USB. */
    method ProcessDevicePacket(data: seq<byte>, cap: nat)
      returns (key: Option<u16>, sent: seq<seq<byte>>)
      modifies this
      ensures ParsePacket(data).Err? || ParsePacket(data).value.Control? || ParsePacket(data).value.Setup? ==>
                View() == old(View()) && sent == []
      ensures ParsePacket(data).Ok? && ParsePacket(data).value.Version? ==>
                var major := ParsePacket(data).value.major;
                View() == Negotiated(old(View()), major)
                && sent == if major >= 2 then [SetupFrame(0, 0xFFFF).Encode()] else []
      ensures ParsePacket(data).Ok? && ParsePacket(data).value.Tcp? ==>
                var p := ParsePacket(data).value;
                var before := PeerCounter(old(View()), data);
                Routed(before, p.header, key)
                && (var r := Receive(before, p.header, p.payload, key, cap);
                    View() == r.device && sent == if r.reply.None? then [] else [r.reply.value.Encode()])
    {
      key, sent := None, [];
      var packet := ParsePacket(data);
      if packet.Err? {
        return;
      }
      match packet.value {
        case Version(major, minor) =>
          if major >= 2 {
            sent := [BuildSetupPacket(0, 0xFFFF)];
          }
          version := if major >= 2 then 2 else 1;
          txSeq := 1;
        case Control(body) =>
        case Setup =>
        case Tcp(header, payload) =>
          var hdr := ParseMuxHeader(data);
          if hdr.Ok? && hdr.value.isV2 {
            rxSeq := hdr.value.rxSeq;
          }
          var event, reply;
          key, event, reply := HandleTcpPacket(header, payload, cap);
          if reply.Some? {
            sent := [reply.value];
          }
      }
    }

    /** Client bytes to the device: nothing is counted unless the USB write succeeds. */
    method SendClientData(sport: u16, data: seq<byte>, usbOk: bool) returns (pkt: Option<seq<byte>>)
      modifies this
      ensures pkt == Encoded(DataFrame(old(View()), sport, data))
      ensures View() == if pkt.Some? && usbOk then AfterData(old(View()), sport, data) else old(View())
      ensures pkt.Some? <==> sport in old(connections) && old(connections)[sport].state == Connected
      ensures txSeq == if pkt.Some? && usbOk then (old(txSeq) + 1) % 0x1_0000 else old(txSeq)
    {
      if sport !in connections || connections[sport].state != Connected {
        return None;
      }
      var conn := connections[sport];
      var counters := if version >= 2 then Some((txSeq, rxSeq)) else None;
      pkt := Some(BuildTcpPacket(Segment(counters, sport, conn.destPort, conn.txSeq, conn.txAck,
                                         TCP_ACK, INITIAL_WINDOW / 256, data)));
      if !usbOk {
        return;
      }
      txSeq := Bump16(txSeq);
      connections := connections[sport := conn.(txSeq := Add32(conn.txSeq, |data|), obBuf := conn.obBuf + data)];
    }

    method SendWindowUpdate(sport: u16, cap: nat, usbOk: bool) returns (pkt: Option<seq<byte>>)
      modifies this
      ensures pkt == Encoded(WindowFrame(old(View()), sport, cap))
      ensures View() == if pkt.Some? && usbOk then old(View()).(txSeq := Bump16(old(txSeq))) else old(View())
      ensures connections == old(connections)
      ensures pkt.Some? <==> sport in connections && connections[sport].state in {Established, Connected, CloseWait}
      ensures txSeq == if pkt.Some? && usbOk then (old(txSeq) + 1) % 0x1_0000 else old(txSeq)
    {
      if sport !in connections || !connections[sport].state.IsActive() {
        return None;
      }
      var conn := connections[sport];
      var free := if |conn.ibBuf| <= cap then cap - |conn.ibBuf| else 0;
      var counters := if version >= 2 then Some((txSeq, rxSeq)) else None;
      pkt := Some(BuildTcpPacket(Segment(counters, sport, conn.destPort, conn.txSeq, conn.txAck,
                                         TCP_ACK, ScaledWindow(free), [])));
      if usbOk {
        txSeq := Bump16(txSeq);
      }
    }

    /** The locked section of the proxy loop: look at the state, take the whole inbound buffer. */
    method DrainInbound(sport: u16) returns (r: Drain)
      modifies this`connections
      ensures r == DrainOf(old(View()), sport)
      ensures View() == if r.Bytes? then Drained(old(View()), sport) else old(View())
    {
      if sport !in connections {
        return NotFound;
      }
      var conn := connections[sport];
      if conn.state == Dead {
        return Exit;
      }
      if conn.state != Connected {
        return NotConnected;
      }
      if conn.ibBuf == [] {
        return NothingYet;
      }
      connections := connections[sport := conn.(ibBuf := [])];
      return Bytes(conn.ibBuf);
    }

    method RemoveConnection(sport: u16)
      modifies this`connections
      ensures View() == Removed(old(View()), sport)
    {
      connections := connections - {sport};
    }

    /** USB disconnect: every connection is marked dead, nothing else changes. */
    method CleanupConnections()
      modifies this`connections
      ensures View() == AllDead(old(View()))
    {
      var keys := connections.Keys;
      while keys != {}
        invariant keys <= connections.Keys == old(connections).Keys
        invariant forall k: u16 :: k in connections ==>
          connections[k] == if k in keys then old(connections)[k] else old(connections)[k].(state := Dead)
        decreases |keys|
      {
        var k :| k in keys;
        connections := connections[k := connections[k].(state := Dead)];
        keys := keys - {k};
      }
    }
  }
}
