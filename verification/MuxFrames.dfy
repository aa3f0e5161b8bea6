/** Every frame of a run, field by field: its header form and counters, where it goes, and what it carries. */
module MuxFrames {
  import opened Bytes
  import opened MuxCodec
  import opened MuxDevice
  import opened MuxRuns
  import opened MuxStreams
  import opened MuxFlow

  // ---- header form and counters --------------------------------------------------------------

  /** The protocol version agreed in the first `i` steps: that of the latest exchange, one before any. */
  function VersionAfter(acts: seq<Action>, i: nat): nat
    requires i <= |acts|
  {
    if i == 0 then 1
    else if acts[i - 1].Version? then if acts[i - 1].major >= 2 then 2 else 1
    else VersionAfter(acts, i - 1)
  }

  /** The peer's counter: that of the latest segment with the extended header, one before any. */
  function PeerAfter(acts: seq<Action>, i: nat): u16
    requires i <= |acts|
  {
    if i == 0 then 1
    else if acts[i - 1].Segment? && acts[i - 1].peer.Some? then acts[i - 1].peer.value
    else PeerAfter(acts, i - 1)
  }

  lemma HeaderStep(s: Sys, a: Action, cap: nat)
    requires Enabled(s, a)
    ensures var d := Step(s, a, cap).dev;
      && d.version == (if a.Version? then if a.major >= 2 then 2 else 1 else s.dev.version)
      && d.rxSeq == (if a.Segment? && a.peer.Some? then a.peer.value else s.dev.rxSeq)
  {
    hide Receive, IsSynAck, ScaledWindow, Bump16, Add32, HasExact, Permits, Accepted, Max;
    if a.Segment? {
      ReceiveEffect(Peer(s.dev, a.peer), a.h, a.payload, a.key, cap);
    }
  }

  lemma {:induction false} HeaderState(states: seq<Sys>, acts: seq<Action>, cap: nat, i: nat)
    requires Run(states, acts, cap) && i < |states|
    ensures states[i].dev.version == VersionAfter(acts, i) && states[i].dev.rxSeq == PeerAfter(acts, i)
  {
    if i > 0 {
      HeaderState(states, acts, cap, i - 1);
      HeaderStep(states[i - 1], acts[i - 1], cap);
      hide Step, Enabled;
    }
  }

  lemma CountersStep(s: Sys, a: Action, cap: nat)
    requires Enabled(s, a)
    ensures var s' := Step(s, a, cap);
      |s'.log| > |s.log| && s'.log[|s.log|].frame.TcpFrame? ==>
        s'.log[|s.log|].frame.segment.counters ==
          if s.dev.version >= 2 then Some((s.dev.txSeq, s'.dev.rxSeq)) else None
  {
    hide Receive, IsSynAck, ScaledWindow, Bump16, Add32, HasExact, Permits, Accepted, Max;
    if a.Segment? {
      ReceiveEffect(Peer(s.dev, a.peer), a.h, a.payload, a.key, cap);
    }
  }

  /** Header form over runs: a TCP frame logged before version 2 is agreed has the eight-byte header, one
      logged after has the sixteen-byte header, with the relay's counter and the latest counter read
      from the peer. */
  lemma FramesFitVersion(states: seq<Sys>, acts: seq<Action>, cap: nat, i: nat)
    requires Run(states, acts, cap) && i < |acts|
    requires |states[i + 1].log| > |states[i].log| && states[i + 1].log[|states[i].log|].frame.TcpFrame?
    ensures var g := states[i + 1].log[|states[i].log|].frame.segment;
      if VersionAfter(acts, i) < 2 then g.counters == None && |BuildTcpPacket(g)| == 8 + 20 + |g.payload|
      else && g.counters == Some((states[i].dev.txSeq, PeerAfter(acts, i + 1)))
           && |BuildTcpPacket(g)| == 16 + 20 + |g.payload|
  {
    HeaderState(states, acts, cap, i);
    HeaderState(states, acts, cap, i + 1);
    CountersStep(states[i], acts[i], cap);
    hide Step, Enabled;
  }

  // ---- what a frame carries --------------------------------------------------------------------

  /** A frame of the connection at `p`, by its kind. `c` is the connection after the step. */
  ghost predicate FieldsOf(s: Sys, a: Action, x: Frame, c: Connection, cap: nat, p: u16) {
    && x.TcpFrame? && x.segment.dport == c.destPort
    && match x.kind
       case Syn => x.segment.flags == 0x02 && x.segment.seqNo == 0 && x.segment.ackNo == 0
                   && x.segment.window == 512 && x.segment.payload == []
       case Data => && x.segment.flags == 0x10 && x.segment.ackNo == c.txAck && x.segment.window == 512
                    && a.ClientData? && a.p == p && x.segment.payload == a.data
                    && p in s.dev.connections && s.dev.connections[p].state == Connected
                    && x.segment.seqNo == s.dev.connections[p].txSeq
       case HandshakeAck => && x.segment.flags == 0x10 && x.segment.seqNo == c.txSeq && x.segment.ackNo == c.txAck
                            && x.segment.window == 65535 && x.segment.payload == [] && Revives(a, p)
       case _ => && x.segment.flags == 0x10 && x.segment.seqNo == c.txSeq && x.segment.ackNo == c.txAck
                 && x.segment.window == ScaledWindow(Free(c, cap)) && x.segment.payload == []
  }

  lemma FrameFields(s: Sys, a: Action, cap: nat, p: u16)
    requires Wired(s) && Enabled(s, a) && p in Step(s, a, cap).dev.connections
    ensures var s' := Step(s, a, cap);
      |s'.log| > |s.log| && s'.log[|s.log|].frame.TcpFrame? && s'.log[|s.log|].frame.segment.sport == p ==>
        FieldsOf(s, a, s'.log[|s.log|].frame, s'.dev.connections[p], cap, p)
  {
    hide Receive, IsSynAck, ScaledWindow, Bump16, Add32, HasExact, Permits, Accepted, Max;
    if a.Segment? {
      ReceiveEffect(Peer(s.dev, a.peer), a.h, a.payload, a.key, cap);
      ReplyAddressed(Peer(s.dev, a.peer), a.h, a.payload, a.key, cap);
    }
  }

  // ---- where a connection's frames go -----------------------------------------------------------

  /** The client bytes a step sends on the connection at `p`. */
  function Sending(s: Sys, a: Action, p: u16): seq<byte> {
    if a.ClientData? && a.p == p && a.ok && p in s.dev.connections && s.dev.connections[p].state == Connected
    then a.data else []
  }

  /** Destination and tag stay, and the record grows by what the client sends while connected. */
  lemma IdentityStep(s: Sys, a: Action, cap: nat, p: u16)
    requires Wired(s) && Enabled(s, a) && p in s.dev.connections && a != Remove(p)
    ensures var s' := Step(s, a, cap);
      && p in s'.dev.connections && p in s'.sides && s'.sides[p].born == s.sides[p].born
      && s'.dev.connections[p].destPort == s.dev.connections[p].destPort
      && s'.dev.connections[p].tag == s.dev.connections[p].tag
      && s'.dev.connections[p].obBuf == s.dev.connections[p].obBuf + Sending(s, a, p)
  {
    StaysOpen(s, a, cap, p);
    hide Receive, IsSynAck, ScaledWindow, Bump16, Add32, HasExact, Permits, Accepted, Max;
    var old' := s.dev.connections[p].obBuf;
    assert old' + [] == old';
    if a.Segment? {
      ReceiveEffect(Peer(s.dev, a.peer), a.h, a.payload, a.key, cap);
    }
  }

  /** The frame is for `p` and goes elsewhere than `dport`, or is data where none may be. */
  predicate Strays(x: Attempt, p: u16, dport: u16, dataToo: bool) {
    && x.frame.TcpFrame? && x.frame.segment.sport == p
    && (x.frame.segment.dport != dport || (dataToo && x.frame.kind == Data))
  }

  lemma StraysStep(s: Sys, a: Action, cap: nat, p: u16, dport: u16)
    requires Wired(s) && Enabled(s, a) && p in Step(s, a, cap).dev.connections
    requires Step(s, a, cap).dev.connections[p].destPort == dport
    ensures var s' := Step(s, a, cap);
      && s.log <= s'.log && |s'.log| <= |s.log| + 1
      && (|s'.log| > |s.log| ==> !Strays(s'.log[|s.log|], p, dport, false))
      && (|s'.log| > |s.log| && (p in s.dev.connections ==> s.dev.connections[p].state != Connected) ==>
            !Strays(s'.log[|s.log|], p, dport, true))
  {
    FrameFields(s, a, cap, p);
    OutboundEffect(s, a, cap, p);
    hide Step, Enabled, Wired;
  }

  /** Where frames go, over runs: from the opening of a connection until its removal every frame sent for its
      port goes to the destination it was opened to, and no data is sent before a SYN|ACK for it. The
      SYN|ACK is reported under the tag it was opened with. */
  lemma {:induction false} FramesReachDestination(
    states: seq<Sys>, acts: seq<Action>, cap: nat, from: nat, i: nat, p: u16)
    requires Run(states, acts, cap) && from < i < |states| && acts[from].Connect? && acts[from].sport == p
    requires forall j :: from < j < i ==> acts[j] != Remove(p)
    ensures p in states[i].dev.connections && states[i].dev.connections[p].destPort == acts[from].dport
    ensures states[i].dev.connections[p].tag == acts[from].tag
    ensures |states[from].log| <= |states[i].log|
    ensures forall k :: |states[from].log| <= k < |states[i].log| ==>
              !Strays(states[i].log[k], p, acts[from].dport, false)
    ensures (forall j :: from < j < i ==> !Revives(acts[j], p)) ==>
              && states[i].dev.connections[p].state != Connected
              && forall k :: |states[from].log| <= k < |states[i].log| ==>
                   !Strays(states[i].log[k], p, acts[from].dport, true)
  {
    var j := i - 1;
    var s, a, dport := states[j], acts[j], acts[from].dport;
    WiredAlways(states, acts, cap, j);
    assert Enabled(s, a) && states[i] == Step(s, a, cap);
    if j == from {
      Dialled(s, a, cap);
    } else {
      FramesReachDestination(states, acts, cap, from, j, p);
      IdentityStep(s, a, cap, p);
      StateEffect(s, a, cap, p);
    }
    StraysStep(s, a, cap, p, dport);
    hide Step, Enabled, Run, Strays, Ends, Revives;
  }

  lemma Dialled(s: Sys, a: Action, cap: nat)
    requires Enabled(s, a) && a.Connect?
    ensures var s' := Step(s, a, cap);
      && a.sport !in s.dev.connections && a.sport in s'.dev.connections && a.sport in s'.sides
      && Fresh(s'.dev.connections[a.sport], a.sport, a.dport, a.tag) && s'.sides[a.sport].born == |s.log|
  {
  }

  /** The event of the SYN|ACK that connects it. */
  lemma ConnectedUnderTag(states: seq<Sys>, acts: seq<Action>, cap: nat, from: nat, i: nat, p: u16)
    requires Run(states, acts, cap) && from < i < |acts| && acts[from].Connect? && acts[from].sport == p
    requires forall j :: from < j < i ==> acts[j] != Remove(p)
    requires Revives(acts[i], p)
    ensures p in states[i].dev.connections
    ensures var a := acts[i];
      Receive(Peer(states[i].dev, a.peer), a.h, a.payload, a.key, cap).event == Some(ConnectedEvent(p, acts[from].tag))
  {
    FramesReachDestination(states, acts, cap, from, i, p);
    WiredAlways(states, acts, cap, i);
    FlagBits(acts[i].h.Flags());
    hide Step, Run;
    ReceiveTells(Peer(states[i].dev, acts[i].peer), acts[i].h, acts[i].payload, acts[i].key, cap);
  }

  // ---- whole streams of client bytes -------------------------------------------------------------

  /** What the client sent on the connection opened at step `from`, as far as the writes succeeded. */
  function ClientBytes(states: seq<Sys>, acts: seq<Action>, from: nat, i: nat, p: u16): seq<byte>
    requires from < i <= |acts| < |states|
    decreases i
  {
    if i == from + 1 then []
    else ClientBytes(states, acts, from, i - 1, p) + Sending(states[i - 1], acts[i - 1], p)
  }

  lemma {:induction false} RecordIsClientBytes(
    states: seq<Sys>, acts: seq<Action>, cap: nat, from: nat, i: nat, p: u16)
    requires Run(states, acts, cap) && from < i < |states| && acts[from].Connect? && acts[from].sport == p
    requires forall j :: from < j < i ==> acts[j] != Remove(p)
    ensures p in states[i].dev.connections && p in states[i].sides && states[i].sides[p].born == |states[from].log|
    ensures states[i].dev.connections[p].obBuf == ClientBytes(states, acts, from, i, p)
  {
    hide Step, Enabled, Wired, Sending;
    var j := i - 1;
    WiredAlways(states, acts, cap, j);
    WiredAlways(states, acts, cap, i);
    assert Enabled(states[j], acts[j]) && states[i] == Step(states[j], acts[j], cap);
    if j == from {
      Dialled(states[j], acts[j], cap);
    } else {
      RecordIsClientBytes(states, acts, cap, from, j, p);
      hide Run;
      IdentityStep(states[j], acts[j], cap, p);
    }
  }

  /** Client to device, end to end: the data segments that reached the device on a connection, one after
      another, carry exactly the bytes its client sent while it was connected, no more, no less and in
      order. */
  lemma ClientBytesSent(states: seq<Sys>, acts: seq<Action>, cap: nat, from: nat, i: nat, p: u16)
    requires Run(states, acts, cap) && from < i < |states| && acts[from].Connect? && acts[from].sport == p
    requires forall j :: from < j < i ==> acts[j] != Remove(p)
    ensures |states[from].log| <= |states[i].log|
    ensures var sent := DataOn(states[i].log[|states[from].log|..], p);
      Tiles(sent, 0) && Payloads(sent) == ClientBytes(states, acts, from, i, p)
  {
    RecordIsClientBytes(states, acts, cap, from, i, p);
    ClientToDeviceTiling(states, acts, cap, i);
    hide Run;
    assert Tiled(states[i], p);
  }
}
