/** Whole exchanges with a device: windows and numbers together, what ends a connection, and runs that
    show where the guarantees stop. */
module MuxFlow {
  import opened Bytes
  import opened MuxCodec
  import opened MuxDevice
  import opened MuxRuns
  import opened MuxStreams

  // ---- a device that counts its own bytes and stays within the window -------------------

  /** Bytes of data the device has sent to `p` since the connection was opened at step `from`,
      whether the relay buffered them or not. */
  function Offered(acts: seq<Action>, from: nat, i: nat, p: u16): nat
    requires from < i <= |acts|
    decreases i
  {
    if i == from + 1 then 0
    else
      var a := acts[i - 1];
      Offered(acts, from, i - 1, p)
      + (if a.Segment? && a.key == Some(p) && CarriesData(a.h, a.payload) then |a.payload| else 0)
  }

  /** The device sends its stream in order, numbering by what it has sent, and never past the furthest
      edge permitted to it. It does not look at acknowledgements. */
  ghost predicate Paced(s: Sys, a: Action, p: u16, stream: seq<byte>, irs: u32, sent: nat, start: nat)
    requires p in s.dev.connections && p in s.sides
  {
    && a != Remove(p)
    && (a.Segment? && a.key == Some(p) ==>
          && (IsSynAck(a.h) ==> s.sides[p].irs.None? && a.h.seqNo == irs)
          && (CarriesData(a.h, a.payload) ==>
                && s.sides[p].irs.Some? && SliceAt(a.h, a.payload, stream, irs, sent)
                && sent + |a.payload| <= Max(start, s.sides[p].edge)))
  }

  /** One step: what is sent fits, so it is buffered and everything sent stays accepted. */
  lemma PacedStep(s: Sys, a: Action, p: u16, stream: seq<byte>, irs: u32, cap: nat, sent: nat, start: nat)
    requires Wired(s) && Enabled(s, a) && InStep(s, p, stream, irs, cap) && WindowSound(s, cap) && start <= cap
    requires |Accepted(s.dev.connections[p], s.sides[p])| == sent && Paced(s, a, p, stream, irs, sent, start)
    ensures var s' := Step(s, a, cap);
      var data := a.Segment? && a.key == Some(p) && CarriesData(a.h, a.payload);
      && InStep(s', p, stream, irs, cap)
      && |Accepted(s'.dev.connections[p], s'.sides[p])| == sent + (if data then |a.payload| else 0)
      && (data ==> Buffers(s, a, p, cap))
  {
    StaysOpen(s, a, cap, p);
    hide Step, Enabled, IsSynAck, CarriesData, Add32, ScaledWindow;
    if a.Segment? && a.key == Some(p) && CarriesData(a.h, a.payload) {
      SliceNumber(a.h, a.payload, stream, irs, sent);
      assert !Overflows(s.dev.connections[p], a.payload, cap);
      assert Near(sent, |Accepted(s.dev.connections[p], s.sides[p])|);
    }
    hide SliceAt, Wrap32;
    InStepStep(s, a, p, stream, irs, cap);
    hide InStep, Behaves, Wired;
    InboundEffect(s, a, cap, p);
  }

  /** The device was paced from the moment `p` was opened at step `from`. */
  ghost predicate PacedSince(
    states: seq<Sys>, acts: seq<Action>, from: nat, i: nat, p: u16, stream: seq<byte>, irs: u32, start: nat)
    requires i <= |acts| < |states|
  {
    forall j :: from < j < i ==>
      p in states[j].dev.connections && p in states[j].sides ==>
        Paced(states[j], acts[j], p, stream, irs, Offered(acts, from, j, p), start)
  }

  /** Every data segment for `p` since then was buffered. */
  ghost predicate NothingDropped(states: seq<Sys>, acts: seq<Action>, cap: nat, from: nat, i: nat, p: u16)
    requires i <= |acts| < |states|
  {
    forall j :: from < j < i ==>
      p in states[j].dev.connections
      && (acts[j].Segment? && acts[j].key == Some(p) && CarriesData(acts[j].h, acts[j].payload) ==>
            Buffers(states[j], acts[j], p, cap))
  }

  /** Windows and numbers together: a device that sends its stream in order, counting its own bytes,
      and stays within the edge permitted to it has every byte accepted, in every interleaving; the
      client's bytes are a prefix of its stream, and no segment is ever dropped. */
  lemma {:induction false} WindowKeepsStream(
    states: seq<Sys>, acts: seq<Action>, cap: nat, from: nat, i: nat, p: u16, stream: seq<byte>, irs: u32, start: nat)
    requires Run(states, acts, cap) && from < i < |states| && start <= cap
    requires acts[from].Connect? && acts[from].sport == p
    requires PacedSince(states, acts, from, i, p, stream, irs, start)
    ensures InStep(states[i], p, stream, irs, cap)
    ensures |Accepted(states[i].dev.connections[p], states[i].sides[p])| == Offered(acts, from, i, p)
    ensures NothingDropped(states, acts, cap, from, i, p)
  {
    hide Paced, CarriesData, WindowSound, Step, Enabled, PacedSince, NothingDropped, Buffers;
    if i == from + 1 {
      DeviceToClientStream(states, acts, cap, from, i, p, stream, irs);
      FreshConnection(states[from], acts[from], cap);
      NoneSentYet(states, acts, cap, from, p);
    } else {
      PacedPrefix(states, acts, from, i, p, stream, irs, start);
      WindowKeepsStream(states, acts, cap, from, i - 1, p, stream, irs, start);
      WindowAlways(states, acts, cap, i - 1);
      OpenInStep(states[i - 1], p, stream, irs, cap);
      hide InStep, Accepted;
      PacedStep(states[i - 1], acts[i - 1], p, stream, irs, cap, Offered(acts, from, i - 1, p), start);
      NothingDroppedStep(states, acts, cap, from, i, p);
    }
  }

  lemma PacedPrefix(
    states: seq<Sys>, acts: seq<Action>, from: nat, i: nat, p: u16, stream: seq<byte>, irs: u32, start: nat)
    requires from + 1 < i <= |acts| < |states| && PacedSince(states, acts, from, i, p, stream, irs, start)
    ensures PacedSince(states, acts, from, i - 1, p, stream, irs, start)
    ensures p in states[i - 1].dev.connections && p in states[i - 1].sides ==>
              Paced(states[i - 1], acts[i - 1], p, stream, irs, Offered(acts, from, i - 1, p), start)
  {
    hide Paced;
  }

  lemma NoneSentYet(states: seq<Sys>, acts: seq<Action>, cap: nat, from: nat, p: u16)
    requires from < |acts| < |states|
    ensures NothingDropped(states, acts, cap, from, from + 1, p)
  {
  }

  lemma NothingDroppedStep(states: seq<Sys>, acts: seq<Action>, cap: nat, from: nat, i: nat, p: u16)
    requires from + 1 < i <= |acts| < |states| && NothingDropped(states, acts, cap, from, i - 1, p)
    requires p in states[i - 1].dev.connections
    requires var a := acts[i - 1];
      a.Segment? && a.key == Some(p) && CarriesData(a.h, a.payload) ==> Buffers(states[i - 1], a, p, cap)
    ensures NothingDropped(states, acts, cap, from, i, p)
  {
    hide CarriesData, Buffers;
  }

  lemma OpenInStep(s: Sys, p: u16, stream: seq<byte>, irs: u32, cap: nat)
    requires InStep(s, p, stream, irs, cap)
    ensures p in s.dev.connections && p in s.sides
  {
  }

  lemma FreshConnection(s: Sys, a: Action, cap: nat)
    requires Enabled(s, a) && a.Connect?
    ensures var s' := Step(s, a, cap);
      a.sport in s'.dev.connections && a.sport in s'.sides
      && Accepted(s'.dev.connections[a.sport], s'.sides[a.sport]) == []
  {
  }

  // ---- what ends a connection ---------------------------------------------------------------

  /** A reset or FIN for the connection, or the loss of the device. */
  predicate Ends(a: Action, p: u16) {
    a.MarkDead? ||
    (a.Segment? && a.key == Some(p) && !IsSynAck(a.h) && (Has(a.h.Flags(), TCP_RST) || Has(a.h.Flags(), TCP_FIN)))
  }

  /** A SYN|ACK connects again, whatever the state. */
  predicate Revives(a: Action, p: u16) { a.Segment? && a.key == Some(p) && IsSynAck(a.h) }

  predicate Ended(c: Connection) { c.state == Dead || c.state == CloseWait }

  /** What a step can do to the state of a connection, and to its record while it is not connected. */
  lemma StateEffect(s: Sys, a: Action, cap: nat, p: u16)
    requires Wired(s) && Enabled(s, a) && p in s.dev.connections && a != Remove(p)
    ensures var s' := Step(s, a, cap);
      && p in s'.dev.connections && p in s'.sides
      && (if Revives(a, p) then s'.dev.connections[p].state == Connected
          else if Ends(a, p) then Ended(s'.dev.connections[p])
          else s'.dev.connections[p].state == s.dev.connections[p].state)
      && (s.dev.connections[p].state != Connected || Ends(a, p) ==>
            s'.dev.connections[p].obBuf == s.dev.connections[p].obBuf)
  {
    StaysOpen(s, a, cap, p);
    if a.MarkDead? {
      UsbDisconnectEndsTraffic(s.dev, p, [], cap);
    } else if a.Segment? {
      ReceiveEffect(Peer(s.dev, a.peer), a.h, a.payload, a.key, cap);
      if a.key == Some(p) {
        DisconnectsEndProxy(Peer(s.dev, a.peer), a.h, a.payload, p, cap);
      }
      hide Receive, IsSynAck, ScaledWindow, Bump16, Add32, HasExact, Has;
    }
  }

  /** Disconnects over runs: from a reset, a FIN or the loss of the device until the next SYN|ACK for the
      connection, the proxy takes nothing more, so what the client was and will be written stays as it
      was, buffered bytes included; and no client byte is sent. A SYN|ACK revives the connection. */
  lemma {:induction false} DisconnectsFreeze(
    states: seq<Sys>, acts: seq<Action>, cap: nat, from: nat, i: nat, p: u16, data: seq<byte>)
    requires Run(states, acts, cap) && from < i < |states| && p in states[from].dev.connections
    requires Ends(acts[from], p)
    requires forall j :: from < j < i ==> acts[j] != Remove(p) && !Revives(acts[j], p)
    ensures p in states[i].dev.connections && Ended(states[i].dev.connections[p])
    ensures p in states[from].sides && p in states[i].sides
    ensures states[i].sides[p].written + states[i].sides[p].inHand
         == states[from].sides[p].written + states[from].sides[p].inHand
    ensures states[i].dev.connections[p].obBuf == states[from].dev.connections[p].obBuf
    ensures !Enabled(states[i], Take(p)) && DataFrame(states[i].dev, p, data).None?
    ensures states[i].dev.connections[p].state == Dead ==> WindowFrame(states[i].dev, p, cap).None?
    ensures i < |acts| && Revives(acts[i], p) ==>
              p in states[i + 1].dev.connections && states[i + 1].dev.connections[p].state == Connected
  {
    var j := i - 1;
    WiredAlways(states, acts, cap, j);
    if j > from {
      DisconnectsFreeze(states, acts, cap, from, j, p, data);
    }
    hide Step, Revives, Ends;
    assert acts[j] != Remove(p) && Enabled(states[j], acts[j]) by {
      NotRemoval(acts[from], p);
    }
    FrozenStep(states[j], acts[j], cap, p);
    if i < |acts| && Revives(acts[i], p) {
      WiredAlways(states, acts, cap, i);
      NotRemoval(acts[i], p);
      StateEffect(states[i], acts[i], cap, p);
    }
  }

  lemma NotRemoval(a: Action, p: u16)
    ensures Ends(a, p) || Revives(a, p) ==> a != Remove(p)
  {
  }

  lemma FrozenStep(s: Sys, a: Action, cap: nat, p: u16)
    requires Wired(s) && Enabled(s, a) && p in s.dev.connections && a != Remove(p)
    requires Ends(a, p) || (Ended(s.dev.connections[p]) && !Revives(a, p))
    ensures var s' := Step(s, a, cap);
      && p in s.sides && p in s'.dev.connections && p in s'.sides && Ended(s'.dev.connections[p])
      && s'.sides[p].written + s'.sides[p].inHand == s.sides[p].written + s.sides[p].inHand
      && s'.dev.connections[p].obBuf == s.dev.connections[p].obBuf
  {
    StateEffect(s, a, cap, p);
    TakeNeedsConnected(s, a, p);
    hide Step, Enabled, IsSynAck, CarriesData, Has, Add32, ScaledWindow, Accepted, Max;
    InboundEffect(s, a, cap, p);
  }

  lemma TakeNeedsConnected(s: Sys, a: Action, p: u16)
    requires Enabled(s, a) && p in s.dev.connections
    ensures a == Take(p) ==> s.dev.connections[p].state == Connected && !Ends(a, p)
  {
  }

  // ---- runs -----------------------------------------------------------------------------------

  const SYN_ACK: TcpHeader := TcpHeader(80, 1024, 0, 0, 0x5012, 512)

  function DataAt(n: u32): TcpHeader { TcpHeader(80, 1024, n, 0, 0x5010, 512) }

  /** A data segment numbered `n` for the connection at port 1024. */
  function DataStep(n: u32, payload: seq<byte>): Action {
    Action.Segment(DataAt(n), payload, None, Some(1024), true)
  }

  const DIAL: Action := Connect(80, 0, 1024, true)
  const ACCEPT: Action := Action.Segment(SYN_ACK, [], None, Some(1024), true)

  /** The connection at port 1024 after its handshake, with these accepted bytes, all still buffered. */
  ghost predicate Has1024(s: Sys, buffered: seq<byte>) {
    && Wired(s) && s.dev.connections.Keys == s.sides.Keys == {1024}
    && s.dev.connections[1024].destPort == 80 && s.dev.connections[1024].state == Connected
    && s.dev.connections[1024].ibBuf == buffered
    && s.sides[1024].written == [] && s.sides[1024].inHand == [] && s.sides[1024].irs == Some(0)
  }

  lemma RunFlags(n: u32, payload: seq<byte>)
    ensures IsSynAck(SYN_ACK) && !IsSynAck(DataAt(n)) && (CarriesData(DataAt(n), payload) <==> payload != [])
    ensures SYN_ACK.Flags() == 0x12 && DataAt(n).Flags() == 0x10
  {
    assert SYN_ACK.Flags() == 0x12 && DataAt(n).Flags() == 0x10;
    assert Has(0x12, TCP_SYN) && Has(0x12, TCP_ACK);
    assert !Has(0x10, TCP_SYN) && !Has(0x10, TCP_RST) && !Has(0x10, TCP_FIN);
  }

  lemma Handshake(cap: nat, stream: seq<byte>) returns (s1: Sys, s2: Sys)
    ensures Enabled(Init(), DIAL) && s1 == Step(Init(), DIAL, cap) && Enabled(s1, ACCEPT) && s2 == Step(s1, ACCEPT, cap)
    ensures 1024 in s1.dev.connections && 1024 in s1.sides && Truthful(s1, ACCEPT, 1024, stream, 0)
    ensures Has1024(s2, []) && |s2.log| == 2 && s2.sides[1024].edge == 0
    ensures s2.log[1].frame.TcpFrame? && s2.log[1].frame.kind == HandshakeAck
    ensures Permits(0, s2.log[1].frame) == 16776960
  {
    hide Bump16, ScaledWindow, Has;
    RunFlags(0, []);
    assert LeastFree(Init().dev, 1024);
    s1 := Step(Init(), DIAL, cap);
    assert Exact(s1.dev.connections[1024], SYN_ACK);
    s2 := Step(s1, ACCEPT, cap);
  }

  /** A data segment arrives and fits. */
  lemma DataArrives(s: Sys, buffered: seq<byte>, n: u32, payload: seq<byte>, cap: nat) returns (s': Sys)
    requires Has1024(s, buffered) && payload != [] && |buffered| + |payload| <= cap
    ensures var a := DataStep(n, payload);
      Enabled(s, a) && s' == Step(s, a, cap) && Buffers(s, a, 1024, cap)
    ensures Has1024(s', buffered + payload) && s'.dev.connections[1024].txAck == Add32(n, |payload|)
    ensures |s'.log| == |s.log| + 1 && s'.log[..|s.log|] == s.log && s'.log[|s.log|].frame.TcpFrame?
    ensures s'.log[|s.log|].frame.segment.window == ScaledWindow(cap - |buffered| - |payload|)
  {
    hide Bump16, ScaledWindow, Has, Max, Permits, Add32;
    RunFlags(n, payload);
    var a := DataStep(n, payload);
    assert Exact(s.dev.connections[1024], DataAt(n));
    WiredStep(s, a, cap);
    s' := Step(s, a, cap);
  }

  /** A data segment arrives and does not fit: nothing changes. */
  lemma DataDropped(s: Sys, buffered: seq<byte>, n: u32, payload: seq<byte>, cap: nat)
    requires Has1024(s, buffered) && payload != [] && |buffered| + |payload| > cap
    ensures Enabled(s, DataStep(n, payload)) && Step(s, DataStep(n, payload), cap) == s
    ensures Overflows(s.dev.connections[1024], payload, cap)
  {
    hide Bump16, ScaledWindow, Has, Max, Permits, Add32;
    RunFlags(n, payload);
    assert Exact(s.dev.connections[1024], DataAt(n));
    assert s.sides[1024 := s.sides[1024]] == s.sides;
  }

  lemma TellsTruth(s: Sys, buffered: seq<byte>, n: u32, payload: seq<byte>, stream: seq<byte>, k: nat)
    requires Has1024(s, buffered) && SliceAt(DataAt(n), payload, stream, 0, k) && Near(k, |buffered|)
    ensures Truthful(s, DataStep(n, payload), 1024, stream, 0)
  {
    RunFlags(n, payload);
    assert Accepted(s.dev.connections[1024], s.sides[1024]) == buffered;
  }

  /** A one-byte segment that is sent twice. */
  function Repeat(): seq<Action> { [DIAL, ACCEPT, DataStep(1, [7]), DataStep(1, [7])] }

  /** A segment that is repeated is buffered twice: every segment of this run tells the truth about the
      stream, the last one is not in order, and the client is left with two bytes. They are a prefix
      still if the stream happens to go on with the same byte, but the acknowledgement is wrong. */
  lemma RepeatBufferedTwice(stream: seq<byte>) returns (states: seq<Sys>)
    requires stream != [] && stream[0] == 7
    ensures Run(states, Repeat(), 100)
    ensures forall j :: 0 < j < 4 ==>
              1024 in states[j].dev.connections && 1024 in states[j].sides
              && Truthful(states[j], Repeat()[j], 1024, stream, 0)
    ensures Has1024(states[2], []) && Has1024(states[3], [7]) && Has1024(states[4], [7, 7])
    ensures !InOrder(states[3], Repeat()[3], 1024, 100) && !InStep(states[4], 1024, stream, 0, 100)
  {
    hide Step, Enabled, Wired, Has, Init, Truthful;
    var s1, s2 := Handshake(100, stream);
    assert SliceAt(DataAt(1), [7], stream, 0, 0);
    TellsTruth(s2, [], 1, [7], stream, 0);
    var s3 := DataArrives(s2, [], 1, [7], 100);
    TellsTruth(s3, [] + [7], 1, [7], stream, 0);
    var s4 := DataArrives(s3, [] + [7], 1, [7], 100);
    states := [Init(), s1, s2, s3, s4];
    assert [] + [7] == [7] && [] + [7] + [7] == [7, 7];
    assert Add32(1, 1) == 2;
    assert |Accepted(s4.dev.connections[1024], s4.sides[1024])| == 2;
  }

  lemma WindowReopens(s: Sys, cap: nat) returns (s': Sys)
    requires Has1024(s, [])
    ensures var a := UpdateWindow(1024, true);
      && Enabled(s, a) && s' == Step(s, a, cap) && Has1024(s', [])
      && |s'.log| == |s.log| + 1 && s'.log[|s.log|].frame.TcpFrame?
      && s'.log[|s.log|].frame.segment.window == ScaledWindow(cap)
  {
    hide Bump16, ScaledWindow, Max, Permits;
    WiredStep(s, UpdateWindow(1024, true), cap);
    s' := Step(s, UpdateWindow(1024, true), cap);
  }

  /** A window update, then one byte. */
  function Reopening(): seq<Action> { [DIAL, ACCEPT, UpdateWindow(1024, true), DataStep(1, [7])] }

  /** The right edge can move left. With 512 bytes of buffer a window update permits the device to send
      up to byte 512; accepting one byte then permits it only up to byte 257. */
  lemma EdgeCanShrink() returns (states: seq<Sys>)
    ensures Run(states, Reopening(), 512) && Has1024(states[3], []) && Has1024(states[4], [7])
    ensures |states[3].log| == 3 && Permits(0, states[3].log[2].frame) == 512
    ensures |states[4].log| == 4 && Permits(1, states[4].log[3].frame) == 257
  {
    hide Step, Enabled, Wired, Has1024, Init;
    var s1, s2 := Handshake(512, []);
    var s3 := WindowReopens(s2, 512);
    var s4 := DataArrives(s3, [], 1, [7], 512);
    states := [Init(), s1, s2, s3, s4];
    assert ScaledWindow(512) == 2 && ScaledWindow(511) == 1;
    assert [] + [7] == [7];
  }

  // ---- the handshake's window ------------------------------------------------------------------

  /** `m` bytes equal to `b`. */
  function Block(m: nat, b: byte): (s: seq<byte>)
    ensures |s| == m && forall i :: 0 <= i < m ==> s[i] == b
  {
    seq(m, _ => b)
  }

  /** Two blocks of `m` bytes and one byte more. */
  function TwoBlocks(m: nat): seq<byte> { Block(m, 1) + Block(m, 2) + [3] }

  /** The device sends `x`, `y` and one byte more, in order, in three segments. */
  function ThreeSegments(x: seq<byte>, y: seq<byte>): seq<Action>
    requires |x| + |y| + 1 < 0x1_0000_0000
  {
    [DIAL, ACCEPT, DataStep(1, x), DataStep(1 + |x|, y), DataStep(1 + |x| + |y|, [3])]
  }

  function Burst(m: nat): seq<Action>
    requires 2 * m + 1 < 0x1_0000_0000
  {
    ThreeSegments(Block(m, 1), Block(m, 2))
  }

  /** The segment holds the stream from position `k`, numbered from a first number of zero. */
  ghost predicate Truth(a: Action, stream: seq<byte>, k: nat) {
    a.Segment? && SliceAt(a.h, a.payload, stream, 0, k)
  }

  /** The burst is the stream, sent in order. */
  lemma BurstIsStream(m: nat)
    requires 2 * m + 1 < 0x1_0000_0000
    ensures Truth(Burst(m)[2], TwoBlocks(m), 0) && Truth(Burst(m)[3], TwoBlocks(m), m)
    ensures Truth(Burst(m)[4], TwoBlocks(m), 2 * m)
  {
    var stream := TwoBlocks(m);
    assert stream[0..0 + m] == Block(m, 1);
    assert stream[m..m + m] == Block(m, 2);
    assert stream[2 * m..2 * m + 1] == [3];
  }

  /** The handshake's window is not honest. With any buffer between one and two blocks, a device that
      sends three segments in order, well within the window its handshake was answered with, has the
      second dropped and the third buffered: the client is left with a hole in its bytes, and the relay
      has acknowledged what it dropped. */
  lemma HandshakeWindowOverflows(m: nat, cap: nat) returns (states: seq<Sys>)
    requires m < cap < 2 * m && 2 * m + 1 <= 16776960
    ensures Run(states, Burst(m), cap)
    ensures Truth(Burst(m)[2], TwoBlocks(m), 0) && Truth(Burst(m)[3], TwoBlocks(m), m)
    ensures Truth(Burst(m)[4], TwoBlocks(m), 2 * m)
    ensures |states[2].log| == 2
    ensures states[2].log[1].frame.TcpFrame? && states[2].log[1].frame.kind == HandshakeAck
    ensures |TwoBlocks(m)| == 2 * m + 1 <= Permits(0, states[2].log[1].frame)
    ensures Has1024(states[3], Block(m, 1)) && Overflows(states[3].dev.connections[1024], Block(m, 2), cap)
    ensures Has1024(states[5], Block(m, 1) + [3]) && !(Block(m, 1) + [3] <= TwoBlocks(m))
    ensures states[5].dev.connections[1024].txAck == Wrap32(1 + |TwoBlocks(m)|)
  {
    hide Has1024, Overflows, Run, TwoBlocks, Truth, ThreeSegments;
    states := MiddleDropped(Block(m, 1), Block(m, 2), cap);
    HoleShows(m);
    BurstIsStream(m);
  }

  /** Of three segments the second does not fit. */
  lemma MiddleDropped(x: seq<byte>, y: seq<byte>, cap: nat) returns (states: seq<Sys>)
    requires 0 < |x| < cap < |x| + |y| && |x| + |y| + 1 < 0x1_0000_0000
    ensures Run(states, ThreeSegments(x, y), cap)
    ensures |states[2].log| == 2
    ensures states[2].log[1].frame.TcpFrame? && states[2].log[1].frame.kind == HandshakeAck
    ensures Permits(0, states[2].log[1].frame) == 16776960
    ensures Has1024(states[3], x) && Overflows(states[3].dev.connections[1024], y, cap)
    ensures Has1024(states[5], x + [3]) && states[5].dev.connections[1024].txAck == Wrap32(1 + |x| + |y| + 1)
  {
    hide Step, Enabled, Wired, Has, Init;
    var s1, s2 := Handshake(cap, []);
    var s3 := DataArrives(s2, [], 1, x, cap);
    assert [] + x == x;
    DataDropped(s3, x, 1 + |x|, y, cap);
    var s5 := DataArrives(s3, x, 1 + |x| + |y|, [3], cap);
    states := [Init(), s1, s2, s3, s3, s5];
  }

  lemma HoleShows(m: nat)
    requires m > 0
    ensures |TwoBlocks(m)| == 2 * m + 1 && !(Block(m, 1) + [3] <= TwoBlocks(m))
  {
    var got := Block(m, 1) + [3];
    assert got[m] == 3 && TwoBlocks(m)[m] == 2;
  }

  /** With the default buffer of one mebibyte, blocks of 600000 bytes do it. */
  lemma DefaultBufferOverflows() returns (states: seq<Sys>)
    ensures Run(states, Burst(600000), 1048576)
    ensures 1024 in states[3].dev.connections && Overflows(states[3].dev.connections[1024], Block(600000, 2), 1048576)
    ensures 1024 in states[5].dev.connections && !(states[5].dev.connections[1024].ibBuf <= TwoBlocks(600000))
  {
    states := HandshakeWindowOverflows(600000, 1048576);
  }
}
