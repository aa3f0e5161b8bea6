/** Every run of one device: connects, arriving segments, client data, window updates, drains,
    client writes and removals in any order, with what they send kept in a log. */
module MuxRuns {
  import opened Bytes
  import opened MuxCodec
  import opened MuxDevice

  /** A frame handed to USB and whether the write succeeded. */
  datatype Attempt = Attempt(frame: Frame, ok: bool)

  /** Bookkeeping beside one connection: where the log stood when it was opened, what its client was
      written, what the proxy took and has not written yet, the furthest stream position any data
      ACK or window update has permitted, and the number of the SYN|ACK seen. */
  datatype Side = Side(born: nat, written: seq<byte>, inHand: seq<byte>, edge: nat, irs: Option<u32>)

  /** `epoch` is the log position of the latest SETUP frame, while the extended header is in use. */
  datatype Sys = Sys(dev: Device, sides: map<u16, Side>, log: seq<Attempt>, epoch: Option<nat>)

  datatype Action =
    | Connect(dport: u16, tag: u32, sport: u16, ok: bool)
    | Version(major: u32, ok: bool)
    | Segment(h: TcpHeader, payload: seq<byte>, peer: Option<u16>, key: Option<u16>, ok: bool)
    | ClientData(p: u16, data: seq<byte>, ok: bool)
    | UpdateWindow(p: u16, ok: bool)
    | Take(p: u16)
    | WriteOut(p: u16, n: nat)
    | Remove(p: u16)
    | MarkDead

  function Init(): Sys { Sys(NewDevice(), map[], [], None) }

  function Peer(d: Device, peer: Option<u16>): Device {
    if peer.Some? then d.(rxSeq := peer.value) else d
  }

  /** What the environment and the iteration order of the hash map may do next. */
  ghost predicate Enabled(s: Sys, a: Action) {
    match a
    case Connect(_, _, sport, _) => LeastFree(s.dev, sport)
    case Segment(h, _, _, key, _) => Routed(s.dev, h, key)
    case Take(p) =>
      p in s.dev.connections && p in s.sides && s.sides[p].inHand == []
      && s.dev.connections[p].state == Connected && s.dev.connections[p].ibBuf != []
    case WriteOut(p, n) => p in s.sides && n <= |s.sides[p].inHand|
    case _ => true
  }

  function Logged(log: seq<Attempt>, frame: Option<Frame>, ok: bool): seq<Attempt> {
    if frame.None? then log else log + [Attempt(frame.value, ok)]
  }

  function Max(a: nat, b: nat): nat { if a < b then b else a }

  /** All bytes ever accepted from the device on a connection. */
  function Accepted(c: Connection, side: Side): seq<byte> {
    side.written + side.inHand + c.ibBuf
  }

  /** The position a frame permits the device to send up to. */
  function Permits(accepted: nat, frame: Frame): nat {
    if frame.SetupFrame? then 0 else accepted + frame.segment.window as int * 256
  }

  function SideAfterSegment(side: Side, c: Connection, h: TcpHeader, payload: seq<byte>, reply: Option<Frame>): Side {
    if IsSynAck(h) then side.(irs := Some(h.seqNo))
    else if reply.Some? then
      side.(edge := Max(side.edge, Permits(|Accepted(c, side)| + |payload|, reply.value)))
    else side
  }

  ghost function Step(s: Sys, a: Action, cap: nat): Sys
    requires Enabled(s, a)
  {
    match a
    case Connect(dport, tag, sport, ok) =>
      var d := Open(s.dev, sport, dport, tag);
      Sys(AfterSyn(d), s.sides[sport := Side(|s.log|, [], [], 0, None)],
          s.log + [Attempt(SynFrame(d, sport), ok)], s.epoch)
    case Version(major, ok) =>
      Sys(Negotiated(s.dev, major), s.sides,
          if major >= 2 then s.log + [Attempt(SetupFrame(0, 0xFFFF), ok)] else s.log,
          if major >= 2 then Some(|s.log|) else None)
    case Segment(h, payload, peer, key, ok) =>
      var r := Receive(Peer(s.dev, peer), h, payload, key, cap);
      var sides := if key.Some? && key.value in s.sides
                   then s.sides[key.value := SideAfterSegment(s.sides[key.value], s.dev.connections[key.value], h,
                       payload, r.reply)]
                   else s.sides;
      Sys(r.device, sides, Logged(s.log, r.reply, ok), s.epoch)
    case ClientData(p, data, ok) =>
      var frame := DataFrame(s.dev, p, data);
      Sys(if frame.Some? && ok then AfterData(s.dev, p, data) else s.dev, s.sides, Logged(s.log, frame, ok), s.epoch)
    case UpdateWindow(p, ok) =>
      var frame := WindowFrame(s.dev, p, cap);
      var sides := if frame.Some? && p in s.sides
                   then var side, c := s.sides[p], s.dev.connections[p];
                        s.sides[p := side.(edge := Max(side.edge, Permits(|Accepted(c, side)|, frame.value)))]
                   else s.sides;
      Sys(if frame.Some? && ok then
          s.dev.(txSeq := Bump16(s.dev.txSeq)) else s.dev, sides, Logged(s.log, frame, ok), s.epoch)
    case Take(p) =>
      s.(dev := Drained(s.dev, p), sides := s.sides[p := s.sides[p].(inHand := s.dev.connections[p].ibBuf)])
    case WriteOut(p, n) =>
      var side := s.sides[p];
      s.(sides := s.sides[p := side.(written := side.written + side.inHand[..n], inHand := side.inHand[n..])])
    case Remove(p) =>
      s.(dev := Removed(s.dev, p), sides := s.sides - {p})
    case MarkDead =>
      s.(dev := AllDead(s.dev))
  }

  ghost predicate Run(states: seq<Sys>, acts: seq<Action>, cap: nat) {
    && |states| == |acts| + 1
    && states[0] == Init()
    && forall i :: 0 <= i < |acts| ==> Enabled(states[i], acts[i]) && states[i + 1] == Step(states[i], acts[i], cap)
  }

  // ---- routing isolation -------------------------------------------------------

  ghost predicate Wired(s: Sys) {
    && s.sides.Keys == s.dev.connections.Keys
    && forall p: u16 :: p in s.dev.connections ==>
         FIRST_PORT <= p < END_PORT && s.dev.connections[p].sourcePort == p && s.sides[p].born <= |s.log|
  }

  lemma WiredStep(s: Sys, a: Action, cap: nat)
    requires Wired(s) && Enabled(s, a)
    ensures Wired(Step(s, a, cap))
  {
    WiredKeys(s, a, cap);
    var s' := Step(s, a, cap);
    forall p: u16 | p in s'.dev.connections
      ensures FIRST_PORT <= p < END_PORT && s'.dev.connections[p].sourcePort == p && s'.sides[p].born <= |s'.log|
    {
      WiredPort(s, a, cap, p);
    }
  }

  lemma WiredKeys(s: Sys, a: Action, cap: nat)
    requires Wired(s) && Enabled(s, a)
    ensures Step(s, a, cap).sides.Keys == Step(s, a, cap).dev.connections.Keys
  {
    hide Receive, IsSynAck, ScaledWindow, Bump16, Add32, HasExact, Permits, Accepted, Max;
    if a.Segment? {
      ReceiveEffect(Peer(s.dev, a.peer), a.h, a.payload, a.key, cap);
    }
  }

  lemma WiredPort(s: Sys, a: Action, cap: nat, p: u16)
    requires Wired(s) && Enabled(s, a) && p in Step(s, a, cap).dev.connections && p in Step(s, a, cap).sides
    ensures var s' := Step(s, a, cap);
      FIRST_PORT <= p < END_PORT && s'.dev.connections[p].sourcePort == p && s'.sides[p].born <= |s'.log|
  {
    hide Receive, IsSynAck, ScaledWindow, Bump16, Add32, HasExact, Permits, Accepted, Max;
    if a.Segment? {
      ReceiveEffect(Peer(s.dev, a.peer), a.h, a.payload, a.key, cap);
    }
  }

  lemma {:induction false} WiredAlways(states: seq<Sys>, acts: seq<Action>, cap: nat, i: nat)
    requires Run(states, acts, cap) && i < |states|
    ensures Wired(states[i])
  {
    if i > 0 {
      WiredAlways(states, acts, cap, i - 1);
      WiredStep(states[i - 1], acts[i - 1], cap);
    }
  }

  /** In every reachable state a segment whose ports match a connection exactly goes to that
      connection whatever the iteration order, and changes nothing but it and the frame counters. */
  lemma RoutingIsolation(states: seq<Sys>, acts: seq<Action>, cap: nat, i: nat, p: u16)
    requires Run(states, acts, cap) && i < |acts| && acts[i].Segment?
    requires p in states[i].dev.connections && Exact(states[i].dev.connections[p], acts[i].h)
    ensures acts[i].key == Some(p)
    ensures states[i + 1].dev.connections.Keys == states[i].dev.connections.Keys
    ensures states[i + 1].sides.Keys == states[i].sides.Keys == states[i].dev.connections.Keys
    ensures forall q: u16 :: q in states[i].dev.connections && q != p ==>
              states[i + 1].dev.connections[q] == states[i].dev.connections[q]
                  && states[i + 1].sides[q] == states[i].sides[q]
    ensures states[i + 1].dev.version == states[i].dev.version
  {
    WiredAlways(states, acts, cap, i);
    WiredAlways(states, acts, cap, i + 1);
    hide Receive, IsSynAck, ScaledWindow, Bump16, Add32, Permits, Accepted, Max;
    ReceiveEffect(Peer(states[i].dev, acts[i].peer), acts[i].h, acts[i].payload, acts[i].key, cap);
    assert HasExact(states[i].dev, acts[i].h);
  }

  // ---- client to device ----------------------------------------------------------

  /** A data segment of port `p` that reached the device. */
  predicate IsDataOn(x: Attempt, p: u16) {
    x.ok && x.frame.TcpFrame? && x.frame.kind == Data && x.frame.segment.sport == p
  }

  /** The data segments of port `p` that reached the device, in order. */
  function DataOn(log: seq<Attempt>, p: u16): (out: seq<MuxCodec.Segment>) {
    if log == [] then []
    else
      var last := log[|log| - 1];
      DataOn(log[..|log| - 1], p)
      + (if IsDataOn(last, p) then [last.frame.segment] else [])
  }

  function Payloads(segments: seq<MuxCodec.Segment>): seq<byte> {
    if segments == [] then []
    else Payloads(segments[..|segments| - 1]) + segments[|segments| - 1].payload
  }

  /** Consecutive sequence ranges from `base`, no gap and no overlap, modulo 2^32: each segment is
      numbered with the bytes before it. */
  predicate Tiles(segments: seq<MuxCodec.Segment>, base: nat) {
    segments == [] ||
    var init, last := segments[..|segments| - 1], segments[|segments| - 1];
    Tiles(init, base) && last.seqNo == Wrap32(base + |Payloads(init)|)
  }

  lemma {:induction false} TilesPointwise(segments: seq<MuxCodec.Segment>, base: nat, j: nat)
    requires Tiles(segments, base) && j < |segments|
    ensures segments[j].seqNo == Wrap32(base + |Payloads(segments[..j])|)
    decreases |segments|
  {
    hide Wrap32, Payloads;
    var init := segments[..|segments| - 1];
    if j < |init| {
      TilesPointwise(init, base, j);
      assert init[..j] == segments[..j];
    }
  }

  ghost predicate Tiled(s: Sys, p: u16)
    requires p in s.dev.connections && p in s.sides && s.sides[p].born <= |s.log|
  {
    var sent := DataOn(s.log[s.sides[p].born..], p);
    var c := s.dev.connections[p];
    && Tiles(sent, 0)
    && Payloads(sent) == c.obBuf
    && c.txSeq == Wrap32(|c.obBuf|)
  }

  ghost predicate AllTiled(s: Sys) {
    Wired(s) && forall p: u16 :: p in s.dev.connections ==> Tiled(s, p)
  }

  lemma DataOnSnoc(log: seq<Attempt>, born: nat, x: Attempt, p: u16)
    requires born <= |log|
    ensures DataOn((log + [x])[born..], p)
         == DataOn(log[born..], p)
            + (if IsDataOn(x, p) then [x.frame.segment] else [])
  {
    assert (log + [x])[born..] == log[born..] + [x];
    assert (log[born..] + [x])[..|log| - born] == log[born..];
  }

  lemma TilesSnoc(segments: seq<MuxCodec.Segment>, g: MuxCodec.Segment, base: nat)
    requires Tiles(segments, base) && g.seqNo == Wrap32(base + |Payloads(segments)|)
    ensures Tiles(segments + [g], base) && Payloads(segments + [g]) == Payloads(segments) + g.payload
  {
    assert (segments + [g])[..|segments|] == segments;
  }

  /** What a step can do to the outbound side of a connection: open it, extend it by one data
      segment that is logged, or leave it as it is while logging no data segment for it. */
  lemma OutboundEffect(s: Sys, a: Action, cap: nat, p: u16)
    requires Wired(s) && Enabled(s, a) && p in Step(s, a, cap).dev.connections
    ensures var s' := Step(s, a, cap);
      && p in s'.sides
      && (s'.log == s.log || (|s'.log| == |s.log| + 1 && s'.log[..|s.log|] == s.log))
      && (p !in s.dev.connections ==>
            s'.dev.connections[p].obBuf == [] && s'.dev.connections[p].txSeq == 0 && s'.sides[p].born == |s.log|
            && |s'.log| == |s.log| + 1 && !IsDataOn(s'.log[|s.log|], p))
      && (p in s.dev.connections ==>
            var c, c' := s.dev.connections[p], s'.dev.connections[p];
            s'.sides[p].born == s.sides[p].born
            && if |s'.log| == |s.log| + 1 && IsDataOn(s'.log[|s.log|], p)
               then var g := s'.log[|s.log|].frame.segment;
                    g.seqNo == c.txSeq && c'.obBuf == c.obBuf + g.payload && c'.txSeq == Add32(c.txSeq, |g.payload|)
               else c'.obBuf == c.obBuf && c'.txSeq == c.txSeq)
  {
    hide Receive, IsSynAck, ScaledWindow, Bump16, Add32, HasExact, Permits, Accepted, Max;
    if a.Segment? {
      ReceiveEffect(Peer(s.dev, a.peer), a.h, a.payload, a.key, cap);
    }
  }

  lemma TiledStep(s: Sys, a: Action, cap: nat, p: u16)
    requires AllTiled(s) && Enabled(s, a) && p in Step(s, a, cap).dev.connections
    ensures Wired(Step(s, a, cap)) && Tiled(Step(s, a, cap), p)
  {
    hide Step, Tiles, Payloads, DataOn, Wrap32;
    WiredStep(s, a, cap);
    OutboundEffect(s, a, cap, p);
    NothingSent(p);
    var s' := Step(s, a, cap);
    var born := s'.sides[p].born;
    var before := DataOn(s.log[born..], p);
    if p in s.dev.connections {
      assert Tiled(s, p);
    } else {
      assert s.log[born..] == [];
    }
    if |s'.log| == |s.log| + 1 {
      var x := s'.log[|s.log|];
      assert s'.log == s.log + [x];
      DataOnSnoc(s.log, born, x, p);
      if IsDataOn(x, p) {
        TilesSnoc(before, x.frame.segment, 0);
        Wrap32Add(|s.dev.connections[p].obBuf|, |x.frame.segment.payload|);
      } else {
        assert before + [] == before;
      }
    }
  }

  lemma NothingSent(p: u16)
    ensures DataOn([], p) == [] && Tiles([], 0) && Payloads([]) == [] && Wrap32(0) == 0
  {
  }

  /** Client-to-device tiling: in every state of every run, whatever else the device is doing, the
      data segments sent on a connection since it was opened tile the stream from zero, their
      payloads are its outbound record, and its counter is that record's length modulo 2^32. */
  lemma {:induction false} ClientToDeviceTiling(states: seq<Sys>, acts: seq<Action>, cap: nat, i: nat)
    requires Run(states, acts, cap) && i < |states|
    ensures AllTiled(states[i])
  {
    WiredAlways(states, acts, cap, i);
    if i > 0 {
      ClientToDeviceTiling(states, acts, cap, i - 1);
      forall p: u16 | p in states[i].dev.connections ensures Tiled(states[i], p) {
        TiledStep(states[i - 1], acts[i - 1], cap, p);
      }
    }
  }

  // ---- frame numbers --------------------------------------------------------------

  /** Does an attempt use up a frame number? Data and window updates only if the write succeeded. */
  predicate Consumes(x: Attempt) {
    x.ok || x.frame.SetupFrame? || (x.frame.kind != Data && x.frame.kind != WindowUpdate)
  }

  function Used(log: seq<Attempt>): nat {
    if log == [] then 0 else Used(log[..|log| - 1]) + (if Consumes(log[|log| - 1]) then 1 else 0)
  }

  /** Since the latest SETUP every attempt carries the count of numbers used before it. */
  ghost predicate Numbered(s: Sys) {
    s.dev.version >= 2 ==>
      && s.epoch.Some? && s.epoch.value <= |s.log|
      && s.dev.txSeq == Wrap16(Used(s.log[s.epoch.value..]))
      && forall j :: s.epoch.value <= j < |s.log| ==>
           s.log[j].frame.Number() == Some(Wrap16(Used(s.log[s.epoch.value..j])))
  }

  lemma UsedSnoc(log: seq<Attempt>, from: nat, x: Attempt)
    requires from <= |log|
    ensures Used((log + [x])[from..]) == Used(log[from..]) + (if Consumes(x) then 1 else 0)
  {
    assert (log + [x])[from..] == log[from..] + [x];
    assert (log[from..] + [x])[..|log| - from] == log[from..];
  }

  lemma NumberedSnoc(s: Sys, s': Sys, x: Attempt)
    requires Numbered(s) && s.dev.version >= 2 && s'.epoch == s.epoch && s'.log == s.log + [x]
    requires x.frame.Number() == Some(s.dev.txSeq)
    requires s'.dev.txSeq == if Consumes(x) then Bump16(s.dev.txSeq) else s.dev.txSeq
    ensures Numbered(s')
  {
    hide Wrap16;
    var e := s.epoch.value;
    Wrap16Add(Used(s.log[e..]), 1);
    UsedSnoc(s.log, e, x);
    forall j | e <= j < |s'.log| ensures s'.log[j].frame.Number() == Some(Wrap16(Used(s'.log[e..j]))) {
      assert s'.log[e..j] == s.log[e..j];
      if j == |s.log| {
        assert s.log[e..j] == s.log[e..];
      }
    }
  }

  /** What a step other than a version exchange logs and does to the frame counter. */
  lemma CounterEffect(s: Sys, a: Action, cap: nat)
    requires Enabled(s, a) && !a.Version? && s.dev.version >= 2
    ensures var s' := Step(s, a, cap);
      && s'.epoch == s.epoch && s'.dev.version == s.dev.version
      && if s'.log == s.log then s'.dev.txSeq == s.dev.txSeq
         else && |s'.log| == |s.log| + 1 && s'.log[..|s.log|] == s.log
              && var x := s'.log[|s.log|];
              && x.frame.Number() == Some(s.dev.txSeq)
              && s'.dev.txSeq == if Consumes(x) then Bump16(s.dev.txSeq) else s.dev.txSeq
  {
    hide Receive, IsSynAck, ScaledWindow, Bump16, Add32, HasExact, Permits, Accepted, Max;
    if a.Segment? {
      ReceiveEffect(Peer(s.dev, a.peer), a.h, a.payload, a.key, cap);
    }
  }

  lemma NumberedStep(s: Sys, a: Action, cap: nat)
    requires Numbered(s) && Enabled(s, a)
    ensures Numbered(Step(s, a, cap))
  {
    var s' := Step(s, a, cap);
    if a.Version? {
      if a.major >= 2 {
        var e := |s.log|;
        UsedSnoc(s.log, e, s'.log[e]);
        assert s.log[e..] == [] && s'.log[e..e] == [];
      }
    } else if s.dev.version >= 2 {
      CounterEffect(s, a, cap);
      hide Step, Enabled, Used, Bump16;
      if s'.log != s.log {
        var x := s'.log[|s.log|];
        assert s'.log == s.log + [x];
        NumberedSnoc(s, s', x);
      }
    } else {
      VersionStays(s, a, cap);
    }
  }

  lemma VersionStays(s: Sys, a: Action, cap: nat)
    requires Enabled(s, a) && !a.Version?
    ensures Step(s, a, cap).dev.version == s.dev.version
  {
    hide Receive, IsSynAck, ScaledWindow, Bump16, Add32, HasExact, Permits, Accepted, Max;
    if a.Segment? {
      ReceiveEffect(Peer(s.dev, a.peer), a.h, a.payload, a.key, cap);
    }
  }

  /** Frame numbering for every run and every pattern of failed writes: once the extended header is
      in use, frames from the latest SETUP on carry 0, 1, 2, … modulo 2^16, counting each earlier
      frame that used up a number. */
  lemma {:induction false} FrameNumbering(states: seq<Sys>, acts: seq<Action>, cap: nat, i: nat)
    requires Run(states, acts, cap) && i < |states|
    ensures Numbered(states[i])
  {
    if i > 0 {
      FrameNumbering(states, acts, cap, i - 1);
      NumberedStep(states[i - 1], acts[i - 1], cap);
    }
  }

  lemma {:induction false} UsedAll(log: seq<Attempt>)
    requires forall j :: 0 <= j < |log| ==> log[j].ok
    ensures Used(log) == |log|
  {
    if log != [] {
      UsedAll(log[..|log| - 1]);
    }
  }

  /** With every USB write succeeding, the k-th frame after SETUP carries exactly k modulo 2^16. */
  lemma FrameNumbersExact(states: seq<Sys>, acts: seq<Action>, cap: nat, i: nat, j: nat)
    requires Run(states, acts, cap) && i < |states| && states[i].dev.version >= 2
    requires forall k :: 0 <= k < |states[i].log| ==> states[i].log[k].ok
    requires states[i].epoch.Some? && states[i].epoch.value <= j < |states[i].log|
    ensures states[i].log[j].frame.Number() == Some(Wrap16(j - states[i].epoch.value))
  {
    FrameNumbering(states, acts, cap, i);
    var e := states[i].epoch.value;
    UsedAll(states[i].log[e..j]);
  }

  // ---- receive window ----------------------------------------------------------------

  /** No byte beyond the permitted edge can fail to fit. */
  ghost predicate WindowSound(s: Sys, cap: nat) {
    forall p: u16 :: p in s.dev.connections && p in s.sides ==>
      var c := s.dev.connections[p];
      |c.ibBuf| <= cap && s.sides[p].edge <= |Accepted(c, s.sides[p])| + (cap - |c.ibBuf|)
  }

  /** The bytes a connection's computed window permits. */
  function Space(c: Connection, cap: nat): nat { ScaledWindow(Free(c, cap)) as int * 256 }

  /** What a step from `s` to `s'` can do to the inbound side of the connection at `p`: open it, buffer a
      segment and permit more, note a SYN|ACK, take the buffer, or move the permitted edge and bytes in
      hand. */
  ghost predicate Inbound(s: Sys, a: Action, s': Sys, cap: nat, p: u16)
    requires p in s'.dev.connections && (p in s.dev.connections ==> p in s.sides)
  {
    && p in s'.sides
    && var c', side' := s'.dev.connections[p], s'.sides[p];
    if p !in s.dev.connections then c'.ibBuf == [] && c'.txAck == 0 && side' == Side(|s.log|, [], [], 0, None)
    else
      var c, side := s.dev.connections[p], s.sides[p];
      if a.Segment? && a.key == Some(p) && CarriesData(a.h, a.payload) && !Overflows(c, a.payload, cap) then
        && c'.ibBuf == c.ibBuf + a.payload && c'.txAck == Add32(a.h.seqNo, |a.payload|)
        && side' == side.(edge := Max(side.edge, |Accepted(c, side)| + |a.payload| + Space(c', cap)))
      else if a.Segment? && a.key == Some(p) && IsSynAck(a.h) then
        c'.ibBuf == c.ibBuf && c'.txAck == Add32(a.h.seqNo, 1) && side' == side.(irs := Some(a.h.seqNo))
      else
        && c'.txAck == c.txAck && side'.irs == side.irs
        && if a == Take(p) then c'.ibBuf == [] && side' == side.(inHand := c.ibBuf) && side.inHand == []
           else && c'.ibBuf == c.ibBuf && side'.written + side'.inHand == side.written + side.inHand
                && (side'.edge == side.edge || side'.edge == Max(side.edge, |Accepted(c, side)| + Space(c, cap)))
  }

  lemma InboundEffect(s: Sys, a: Action, cap: nat, p: u16)
    requires Wired(s) && Enabled(s, a) && p in Step(s, a, cap).dev.connections
    ensures Inbound(s, a, Step(s, a, cap), cap, p)
  {
    if a.Segment? {
      InboundSegment(s, a, cap, p);
    } else {
      InboundOther(s, a, cap, p);
    }
  }

  lemma InboundSegment(s: Sys, a: Action, cap: nat, p: u16)
    requires Wired(s) && Enabled(s, a) && a.Segment? && p in Step(s, a, cap).dev.connections
    ensures Inbound(s, a, Step(s, a, cap), cap, p)
  {
    hide Receive, Has, ScaledWindow, Bump16, Add32, HasExact, Max;
    ReceiveEffect(Peer(s.dev, a.peer), a.h, a.payload, a.key, cap);
  }

  lemma InboundOther(s: Sys, a: Action, cap: nat, p: u16)
    requires Wired(s) && Enabled(s, a) && !a.Segment? && p in Step(s, a, cap).dev.connections
    ensures Inbound(s, a, Step(s, a, cap), cap, p)
  {
    hide Receive, Has, ScaledWindow, Bump16, Add32, HasExact, Max;
    if a.WriteOut? && a.p == p {
      var side := s.sides[p];
      AppendAssoc(side.written, side.inHand[..a.n], side.inHand[a.n..]);
      assert side.inHand[..a.n] + side.inHand[a.n..] == side.inHand;
    }
  }

  lemma WindowStep(s: Sys, a: Action, cap: nat)
    requires Wired(s) && WindowSound(s, cap) && Enabled(s, a)
    ensures WindowSound(Step(s, a, cap), cap)
  {
    hide Step, Has;
    var s' := Step(s, a, cap);
    forall p: u16 | p in s'.dev.connections && p in s'.sides
      ensures |s'.dev.connections[p].ibBuf| <= cap
      ensures s'.sides[p].edge <= |Accepted(s'.dev.connections[p], s'.sides[p])| + (cap - |s'.dev.connections[p].ibBuf|)
    {
      InboundEffect(s, a, cap, p);
    }
  }

  lemma {:induction false} WindowAlways(states: seq<Sys>, acts: seq<Action>, cap: nat, i: nat)
    requires Run(states, acts, cap) && i < |states|
    ensures Wired(states[i]) && WindowSound(states[i], cap)
  {
    WiredAlways(states, acts, cap, i);
    if i > 0 {
      WindowAlways(states, acts, cap, i - 1);
      WindowStep(states[i - 1], acts[i - 1], cap);
    }
  }

  /** Receive-window soundness: starting from any initial allowance within the cap, a device that
      stays inside the furthest edge ever permitted to it by data ACKs and window updates never
      reaches the overflow branch, in any interleaving of arrivals, drains and updates. */
  lemma ReceiveWindowSoundness(states: seq<Sys>, acts: seq<Action>, cap: nat, i: nat, p: u16, payload: seq<byte>,
    start: nat)
    requires Run(states, acts, cap) && i < |states| && p in states[i].dev.connections && p in states[i].sides
    requires start <= cap
    requires |Accepted(states[i].dev.connections[p], states[i].sides[p])| + |payload| <= Max(start,
            states[i].sides[p].edge)
    ensures !Overflows(states[i].dev.connections[p], payload, cap)
  {
    WindowAlways(states, acts, cap, i);
  }
}
