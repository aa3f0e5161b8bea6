/** The device-to-client byte stream seen end to end, and what the advertised windows promise. */
module MuxStreams {
  import opened Bytes
  import opened MuxCodec
  import opened MuxDevice
  import opened MuxRuns

  // ---- device to client ----------------------------------------------------------

  /** The segment holds the stream's bytes from position `k`, numbered accordingly. */
  ghost predicate SliceAt(h: TcpHeader, payload: seq<byte>, stream: seq<byte>, irs: u32, k: nat) {
    && k + |payload| <= |stream|
    && payload == stream[k..k + |payload|]
    && h.seqNo == Wrap32(irs + 1 + k)
  }

  predicate Near(k: int, n: int) { -0x8000_0000 < k - n < 0x8000_0000 }

  /** What the device is trusted with, on everything that is routed to `p`: one SYN|ACK first, then
      data that tells the truth about its stream, from a position less than 2^31 away from the bytes
      accepted so far. Resets, FINs and empty segments may come at any time. */
  ghost predicate Truthful(s: Sys, a: Action, p: u16, stream: seq<byte>, irs: u32)
    requires p in s.dev.connections && p in s.sides
  {
    a.Segment? && a.key == Some(p) ==>
      var c, side := s.dev.connections[p], s.sides[p];
      && (IsSynAck(a.h) ==> side.irs.None? && a.h.seqNo == irs)
      && (CarriesData(a.h, a.payload) ==>
            side.irs.Some? && exists k: nat :: SliceAt(a.h, a.payload, stream, irs, k) && Near(k, |Accepted(c, side)|))
  }

  /** Is this a data segment that the connection at `p` buffers? */
  predicate Buffers(s: Sys, a: Action, p: u16, cap: nat)
    requires p in s.dev.connections
  {
    a.Segment? && a.key == Some(p) && CarriesData(a.h, a.payload) && !Overflows(s.dev.connections[p], a.payload, cap)
  }

  /** The guard the code does not have: a buffered segment starts at the acknowledgement in force. */
  predicate InOrder(s: Sys, a: Action, p: u16, cap: nat)
    requires p in s.dev.connections
  {
    Buffers(s, a, p, cap) ==> a.h.seqNo == s.dev.connections[p].txAck
  }

  ghost predicate Behaves(s: Sys, a: Action, p: u16, stream: seq<byte>, irs: u32, cap: nat)
    requires p in s.dev.connections && p in s.sides
  {
    a != Remove(p) && Truthful(s, a, p, stream, irs) && InOrder(s, a, p, cap)
  }

  /** Written, in hand and buffered bytes together are a prefix of the device's stream, the
      acknowledgement is their count after the SYN|ACK number, and the buffer is within the cap. */
  ghost predicate InStep(s: Sys, p: u16, stream: seq<byte>, irs: u32, cap: nat) {
    && p in s.dev.connections && p in s.sides
    && var c, side := s.dev.connections[p], s.sides[p];
    && |c.ibBuf| <= cap
    && Accepted(c, side) <= stream
    && (side.irs.Some? ==> side.irs.value == irs && c.txAck == Wrap32(irs + 1 + |Accepted(c, side)|))
    && (side.irs.None? ==> Accepted(c, side) == [])
  }

  /** Positions less than 2^31 apart with equal numbers are equal. */
  lemma SamePosition(irs: u32, k: nat, n: nat)
    requires Wrap32(irs + 1 + k) == Wrap32(irs + 1 + n)
    requires Near(k, n)
    ensures k == n
  {
  }

  /** Accepting the next slice. */
  lemma AcceptStep(c: Connection, side: Side, c': Connection, side': Side, h: TcpHeader, payload: seq<byte>,
                   stream: seq<byte>, irs: u32, k: nat)
    requires Accepted(c, side) <= stream && c.txAck == Wrap32(irs + 1 + |Accepted(c, side)|)
    requires h.seqNo == c.txAck && SliceAt(h, payload, stream, irs, k) && Near(k, |Accepted(c, side)|)
    requires c'.ibBuf == c.ibBuf + payload && c'.txAck == Add32(h.seqNo, |payload|)
    requires side'.written == side.written && side'.inHand == side.inHand
    ensures Accepted(c', side') <= stream && c'.txAck == Wrap32(irs + 1 + |Accepted(c', side')|)
  {
    hide Wrap32, Add32;
    var before := Accepted(c, side);
    SamePosition(irs, k, |before|);
    AppendAssoc(side.written + side.inHand, c.ibBuf, payload);
    assert Accepted(c', side') == before + payload;
    NextSlice(before, payload, stream);
    Advance32(irs, |before|, |payload|);
  }

  lemma InStepStep(s: Sys, a: Action, p: u16, stream: seq<byte>, irs: u32, cap: nat)
    requires Wired(s) && Enabled(s, a) && InStep(s, p, stream, irs, cap)
    requires Behaves(s, a, p, stream, irs, cap)
    ensures InStep(Step(s, a, cap), p, stream, irs, cap)
  {
    StaysOpen(s, a, cap, p);
    hide Step, Enabled, Wired, IsSynAck, CarriesData, Add32, Wrap32, SliceAt, ScaledWindow;
    InboundEffect(s, a, cap, p);
    Advance32(irs, 0, 0);
    var s' := Step(s, a, cap);
    var c, side, c', side' := s.dev.connections[p], s.sides[p], s'.dev.connections[p], s'.sides[p];
    if a.Segment? && a.key == Some(p) && CarriesData(a.h, a.payload) && !Overflows(c, a.payload, cap) {
      var k: nat :| SliceAt(a.h, a.payload, stream, irs, k) && Near(k, |Accepted(c, side)|);
      AcceptStep(c, side, c', side', a.h, a.payload, stream, irs, k);
    } else {
      assert Accepted(c', side') == Accepted(c, side);
    }
  }

  lemma NextSlice(sofar: seq<byte>, payload: seq<byte>, stream: seq<byte>)
    requires sofar <= stream && |sofar| + |payload| <= |stream|
    requires payload == stream[|sofar|..|sofar| + |payload|]
    ensures sofar + payload <= stream
  {
    assert stream[..|sofar| + |payload|] == stream[..|sofar|] + payload;
  }

  lemma Advance32(irs: u32, n: nat, m: nat)
    ensures Add32(Wrap32(irs + 1 + n), m) == Wrap32(irs + 1 + (n + m))
    ensures Add32(irs, 1) == Wrap32(irs + 1 + 0)
  {
    Wrap32Add(irs + 1 + n, m);
  }

  lemma StaysOpen(s: Sys, a: Action, cap: nat, p: u16)
    requires Wired(s) && Enabled(s, a) && p in s.dev.connections && a != Remove(p)
    ensures p in Step(s, a, cap).dev.connections && p in Step(s, a, cap).sides
  {
    WiredStep(s, a, cap);
    hide Receive, IsSynAck, ScaledWindow, HasExact;
    if a.Segment? {
      ReceiveEffect(Peer(s.dev, a.peer), a.h, a.payload, a.key, cap);
    }
  }

  /** Device-to-client stream: from the moment a connection is opened, in every interleaving of
      arrivals, overflow drops, drains, partial client writes and everything other connections do,
      the client has been written a prefix of the device's stream and nothing else. */
  lemma {:induction false} DeviceToClientStream(
    states: seq<Sys>, acts: seq<Action>, cap: nat, from: nat, i: nat, p: u16, stream: seq<byte>, irs: u32)
    requires Run(states, acts, cap) && from < i < |states|
    requires acts[from].Connect? && acts[from].sport == p
    requires forall j :: from < j < i ==>
               p in states[j].dev.connections && p in states[j].sides ==>
                   Behaves(states[j], acts[j], p, stream, irs, cap)
    ensures InStep(states[i], p, stream, irs, cap)
    ensures states[i].sides[p].written <= stream
  {
    WiredAlways(states, acts, cap, i - 1);
    if i == from + 1 {
      WiredAlways(states, acts, cap, i);
      assert states[i] == Step(states[from], acts[from], cap);
    } else {
      DeviceToClientStream(states, acts, cap, from, i - 1, p, stream, irs);
      InStepStep(states[i - 1], acts[i - 1], p, stream, irs, cap);
      assert states[i] == Step(states[i - 1], acts[i - 1], cap);
    }
    var c, side := states[i].dev.connections[p], states[i].sides[p];
    AppendAssoc(side.written, side.inHand, c.ibBuf);
  }

  /** What a step that logs a frame for port `p` puts in it. */
  lemma WireEffect(s: Sys, a: Action, cap: nat, p: u16)
    requires Wired(s) && Enabled(s, a) && p in Step(s, a, cap).dev.connections
    ensures var s' := Step(s, a, cap);
      |s'.log| > |s.log| && s'.log[|s.log|].frame.TcpFrame? && s'.log[|s.log|].frame.segment.sport == p ==>
        var x, c' := s'.log[|s.log|].frame, s'.dev.connections[p];
        && x.segment.dport == c'.destPort
        && (x.kind != Data ==> x.segment.payload == [])
        && if x.kind == Syn then x.segment.flags == TCP_SYN && c'.txSeq == 0 && x.segment.seqNo == 0
           else x.segment.flags == TCP_ACK && x.segment.ackNo == c'.txAck
                && (x.kind != Data ==> x.segment.seqNo == c'.txSeq)
  {
    hide Receive, IsSynAck, ScaledWindow, Bump16, Add32, HasExact, Permits, Accepted, Max;
    if a.Segment? {
      ReceiveEffect(Peer(s.dev, a.peer), a.h, a.payload, a.key, cap);
      ReplyAddressed(Peer(s.dev, a.peer), a.h, a.payload, a.key, cap);
    }
  }

  /** Acknowledgements on the wire: under the conditions of the stream theorem every frame sent for the
      connection after its SYN|ACK acknowledges exactly the bytes accepted so far, is addressed to
      the connection's own destination, and an answer with its ports exchanged comes back to it. */
  lemma AcksCountAccepted(
    states: seq<Sys>, acts: seq<Action>, cap: nat, from: nat, i: nat, p: u16, stream: seq<byte>, irs: u32,
    answer: TcpHeader, key: Option<u16>)
    requires Run(states, acts, cap) && from < i < |acts|
    requires acts[from].Connect? && acts[from].sport == p
    requires forall j :: from < j < i + 1 ==>
               p in states[j].dev.connections && p in states[j].sides ==>
                   Behaves(states[j], acts[j], p, stream, irs, cap)
    requires |states[i + 1].log| > |states[i].log| && states[i + 1].log[|states[i].log|].frame.TcpFrame?
    requires states[i + 1].log[|states[i].log|].frame.segment.sport == p
    requires answer.sourcePort == states[i + 1].log[|states[i].log|].frame.segment.dport && answer.destPort == p
    ensures InStep(states[i + 1], p, stream, irs, cap)
    ensures var g := states[i + 1].log[|states[i].log|].frame.segment;
      var c, side := states[i + 1].dev.connections[p], states[i + 1].sides[p];
      && (side.irs.Some? ==> g.flags == TCP_ACK && g.ackNo == Wrap32(irs + 1 + |Accepted(c, side)|))
      && Exact(c, answer)
      && (Routed(states[i + 1].dev, answer, key) ==> key == Some(p))
  {
    hide Step, Enabled, Behaves, Wired, Routed, Exact, Wrap32, Accepted, IsSynAck, CarriesData;
    DeviceToClientStream(states, acts, cap, from, i + 1, p, stream, irs);
    DeviceToClientStream(states, acts, cap, from, i, p, stream, irs);
    WiredAlways(states, acts, cap, i);
    WiredAlways(states, acts, cap, i + 1);
    AckStep(states[i], acts[i], cap, p, stream, irs, answer, key);
  }

  lemma AckStep(s: Sys, a: Action, cap: nat, p: u16, stream: seq<byte>, irs: u32, answer: TcpHeader, key: Option<u16>)
    requires Wired(s) && Enabled(s, a) && InStep(s, p, stream, irs, cap)
    requires Wired(Step(s, a, cap)) && InStep(Step(s, a, cap), p, stream, irs, cap)
    requires |Step(s, a, cap).log| > |s.log| && Step(s, a, cap).log[|s.log|].frame.TcpFrame?
    requires Step(s, a, cap).log[|s.log|].frame.segment.sport == p
    requires answer.sourcePort == Step(s, a, cap).log[|s.log|].frame.segment.dport && answer.destPort == p
    ensures var s' := Step(s, a, cap);
      var g, c, side := s'.log[|s.log|].frame.segment, s'.dev.connections[p], s'.sides[p];
      && (side.irs.Some? ==> g.flags == TCP_ACK && g.ackNo == Wrap32(irs + 1 + |Accepted(c, side)|))
      && Exact(c, answer)
      && (Routed(s'.dev, answer, key) ==> key == Some(p))
  {
    WireEffect(s, a, cap, p);
    SynFirst(s, a, cap, p);
    hide Step, Enabled, Wrap32, Accepted, Loose;
    assert HasExact(Step(s, a, cap).dev, answer);
  }

  /** A SYN is only sent for a connection that was not there. */
  lemma SynFirst(s: Sys, a: Action, cap: nat, p: u16)
    requires Wired(s) && Enabled(s, a) && p in s.dev.connections
    ensures var s' := Step(s, a, cap);
      |s'.log| > |s.log| && s'.log[|s.log|].frame.TcpFrame? && s'.log[|s.log|].frame.segment.sport == p ==>
        s'.log[|s.log|].frame.kind != Syn
  {
    hide Receive, IsSynAck, ScaledWindow, Bump16, Add32, HasExact, Permits, Accepted, Max;
    if a.Segment? {
      ReplyAddressed(Peer(s.dev, a.peer), a.h, a.payload, a.key, cap);
    }
  }

  /** The relay does not look at sequence numbers. A truthful segment it buffers keeps the prefix and
      its acknowledgement if and only if the segment starts at the acknowledgement in force. */
  lemma PrefixKeptExactly(s: Sys, a: Action, p: u16, stream: seq<byte>, irs: u32, cap: nat)
    requires Wired(s) && Enabled(s, a) && InStep(s, p, stream, irs, cap)
    requires Truthful(s, a, p, stream, irs) && Buffers(s, a, p, cap)
    ensures InStep(Step(s, a, cap), p, stream, irs, cap) <==> a.h.seqNo == s.dev.connections[p].txAck
  {
    StaysOpen(s, a, cap, p);
    var s' := Step(s, a, cap);
    var c, side, c', side' := s.dev.connections[p], s.sides[p], s'.dev.connections[p], s'.sides[p];
    if a.h.seqNo == c.txAck {
      InStepStep(s, a, p, stream, irs, cap);
    } else if InStep(s', p, stream, irs, cap) {
      hide Step, Enabled, Wired, IsSynAck, CarriesData, Add32, Wrap32, SliceAt, ScaledWindow;
      InboundEffect(s, a, cap, p);
      var k: nat :| SliceAt(a.h, a.payload, stream, irs, k) && Near(k, |Accepted(c, side)|);
      SliceNumber(a.h, a.payload, stream, irs, k);
      assert |Accepted(c', side')| == |Accepted(c, side)| + |a.payload|;
      Advance32(irs, k, |a.payload|);
      SamePosition(irs, k + |a.payload|, |Accepted(c', side')|);
      assert false;
    }
  }

  lemma SliceNumber(h: TcpHeader, payload: seq<byte>, stream: seq<byte>, irs: u32, k: nat)
    requires SliceAt(h, payload, stream, irs, k)
    ensures h.seqNo == Wrap32(irs + 1 + k)
  {
  }

  /** The exact condition over runs: with a truthful device the stream theorem holds at every state
      since the connection was opened if and only if every data segment buffered in between started
      at the acknowledgement then in force. */
  lemma StreamKeptExactly(
    states: seq<Sys>, acts: seq<Action>, cap: nat, from: nat, i: nat, p: u16, stream: seq<byte>, irs: u32)
    requires Run(states, acts, cap) && from < i < |states|
    requires acts[from].Connect? && acts[from].sport == p
    requires forall j :: from < j < i ==>
               p in states[j].dev.connections && p in states[j].sides ==>
                 acts[j] != Remove(p) && Truthful(states[j], acts[j], p, stream, irs)
    ensures (forall j :: from < j <= i ==> InStep(states[j], p, stream, irs, cap))
       <==> (forall j :: from < j < i ==> p in states[j].dev.connections && InOrder(states[j], acts[j], p, cap))
  {
    hide Step, Enabled, Truthful, InStep, InOrder;
    if forall j :: from < j < i ==> p in states[j].dev.connections && InOrder(states[j], acts[j], p, cap) {
      forall j | from < j <= i ensures InStep(states[j], p, stream, irs, cap) {
        DeviceToClientStream(states, acts, cap, from, j, p, stream, irs);
      }
    }
    if forall j :: from < j <= i ==> InStep(states[j], p, stream, irs, cap) {
      forall j | from < j < i ensures p in states[j].dev.connections && InOrder(states[j], acts[j], p, cap) {
        WiredAlways(states, acts, cap, j);
        assert InStep(states[j], p, stream, irs, cap) && InStep(states[j + 1], p, stream, irs, cap);
        OrderStep(states[j], acts[j], p, stream, irs, cap);
      }
    }
  }

  lemma OrderStep(s: Sys, a: Action, p: u16, stream: seq<byte>, irs: u32, cap: nat)
    requires Wired(s) && Enabled(s, a) && InStep(s, p, stream, irs, cap) && InStep(Step(s, a, cap), p, stream, irs, cap)
    requires p in s.dev.connections && p in s.sides ==> a != Remove(p) && Truthful(s, a, p, stream, irs)
    ensures p in s.dev.connections && InOrder(s, a, p, cap)
  {
    hide Step, Enabled, Wired, Truthful;
    if Buffers(s, a, p, cap) {
      PrefixKeptExactly(s, a, p, stream, irs, cap);
    }
  }

  // ---- what an advertised window promises -------------------------------------------

  ghost predicate Honest(c: Connection, window: u16, cap: nat) {
    forall payload: seq<byte> :: |payload| <= window as int * 256 ==> !Overflows(c, payload, cap)
  }

  /** A window is honest if and only if it fits the free space. */
  lemma HonestExactly(c: Connection, window: u16, cap: nat)
    ensures Honest(c, window, cap) <==> |c.ibBuf| + window as int * 256 <= cap
  {
    if Honest(c, window, cap) {
      var payload: seq<byte> := seq(window as int * 256, _ => 0);
      assert !Overflows(c, payload, cap);
    }
  }

  /** The three windows the relay advertises: the one computed from free space is always honest, the
      handshake's constant only with a buffer cap of 16776960 bytes or more to spare, and the
      constant of data frames only with 131072 bytes to spare. */
  lemma AdvertisedWindows(c: Connection, cap: nat)
    requires |c.ibBuf| <= cap
    ensures Honest(c, ScaledWindow(Free(c, cap)), cap)
    ensures Honest(c, HANDSHAKE_WINDOW, cap) <==> |c.ibBuf| + 16776960 <= cap
    ensures Honest(c, INITIAL_WINDOW / 256, cap) <==> |c.ibBuf| + 131072 <= cap
  {
    HonestExactly(c, ScaledWindow(Free(c, cap)), cap);
    HonestExactly(c, HANDSHAKE_WINDOW, cap);
    HonestExactly(c, INITIAL_WINDOW / 256, cap);
  }
}
