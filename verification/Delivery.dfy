/** What a viewer's queue makes of the messages the encoder enqueues to it: the queue's stale rule can
    discard the greeting, and when it does not. */
module Delivery {
  import opened Bytes
  import opened WebSocket
  import E = Encoder
  import O = Outbox

  const TEXT: byte := 0x1

  /** Codec descriptions travel as text, everything else as binary. */
  function Opcode(m: E.Msg): byte { if m.Codec? then TEXT else O.BINARY }

  /** The calls of `enqueue` among the first `n` steps. */
  function Calls(ts: seq<O.Step>, n: nat): seq<(byte, seq<byte>)>
    requires n <= |ts|
  {
    if n == 0 then []
    else Calls(ts, n - 1) + (if ts[n - 1].Enqueue? then [(ts[n - 1].opcode, ts[n - 1].payload)] else [])
  }

  /** Among the calls are the first messages of a log, in order, at the positions `at`; `body` encodes a
      message. Every other call, a pong, a reply or a broadcast, carries no binary frame. */
  ghost predicate Drives(ts: seq<O.Step>, n: nat, log: seq<E.Msg>, at: seq<nat>, body: E.Msg -> seq<byte>)
    requires n <= |ts|
  {
    var calls := Calls(ts, n);
    && |at| <= |log|
    && (forall i :: 0 <= i < |at| ==> at[i] < |calls| && calls[at[i]] == (Opcode(log[i]), body(log[i])))
    && (forall i, j :: 0 <= i < j < |at| ==> at[i] < at[j])
    && (forall c :: 0 <= c < |calls| && c !in at ==> calls[c].0 != O.BINARY)
  }

  // ---- which frames a queue keeps -----------------------------------------------------------

  /** The step discards one of these frames: a binary frame is enqueued while two or more frames wait,
      or the connection closes, with that frame still queued. */
  predicate Loses(b: O.Box, t: O.Step, ids: set<nat>) {
    && !b.closed && (t.Close? || (t.Enqueue? && O.DropsStale(b, t.opcode)))
    && exists i :: 0 <= i < |b.outbox| && b.outbox[i].id in ids
  }

  ghost predicate NoneGone(b: O.Box, ids: set<nat>) {
    forall id :: id in ids ==> id !in b.stale + b.dropped
  }

  lemma GoneStep(b: O.Box, t: O.Step, ids: set<nat>)
    requires O.Enabled(b, t)
    ensures NoneGone(O.Next(b, t), ids) <==> NoneGone(b, ids) && !Loses(b, t, ids)
  {
    hide EncodeFrame, O.BatchBytes;
    var b' := O.Next(b, t);
    var gone, gone' := b.stale + b.dropped, b'.stale + b'.dropped;
    if !b.closed && (t.Close? || (t.Enqueue? && O.DropsStale(b, t.opcode))) {
      assert gone' == gone + O.Ids(b.outbox);
      if Loses(b, t, ids) {
        var i :| 0 <= i < |b.outbox| && b.outbox[i].id in ids;
        assert b.outbox[i].id in gone';
      }
    } else {
      assert gone' == gone;
    }
  }

  /** None of some frames is gone if and only if no step discarded one of them. */
  lemma {:induction false} NoneGoneExactly(bs: seq<O.Box>, ts: seq<O.Step>, n: nat, ids: set<nat>)
    requires O.Run(bs, ts) && n < |bs|
    ensures NoneGone(bs[n], ids) <==> forall j :: 0 <= j < n ==> !Loses(bs[j], ts[j], ids)
  {
    if n > 0 {
      NoneGoneExactly(bs, ts, n - 1, ids);
      hide O.Next, Loses, NoneGone;
      GoneStep(bs[n - 1], ts[n - 1], ids);
      assert bs[n] == O.Next(bs[n - 1], ts[n - 1]);
    }
  }

  /** Accepted frames are the calls, in order, up to the closing of the connection. */
  lemma {:induction false} AcceptedCalls(bs: seq<O.Box>, ts: seq<O.Step>, n: nat)
    requires O.Run(bs, ts) && n < |bs|
    ensures var accepted, calls := bs[n].accepted, Calls(ts, n);
      && |accepted| <= |calls| && (!bs[n].closed ==> |accepted| == |calls|)
      && forall i :: 0 <= i < |accepted| ==> accepted[i] == O.Item(i, calls[i].0, calls[i].1)
  {
    hide EncodeFrame, O.BatchBytes;
    if n > 0 {
      AcceptedCalls(bs, ts, n - 1);
      assert bs[n] == O.Next(bs[n - 1], ts[n - 1]);
    }
  }

  /** Where an accepted frame that is not gone is kept. */
  lemma KeptAt(b: O.Box, id: nat) returns (i: nat)
    requires O.Ordered(b) && id < |b.accepted| && id !in b.stale + b.dropped
    ensures i < |O.Kept(b)| && O.Kept(b)[i] == b.accepted[id] && O.Kept(b)[i].id == id
  {
    var kept := O.Kept(b);
    assert id in O.Ids(kept);
    i :| 0 <= i < |kept| && kept[i].id == id;
    assert b.accepted[kept[i].id] == kept[i];
  }

  /** Kept frames lie in the order of their ids. */
  lemma PlacedById(q: seq<O.Queued>, x: nat, y: nat)
    requires x < |q| && y < |q| && forall i, j :: 0 <= i < j < |q| ==> q[i].id < q[j].id
    ensures (q[x].id < q[y].id <==> x < y) && (q[x].id == q[y].id <==> x == y)
  {
  }

  // ---- the greeting -------------------------------------------------------------------------

  /** Codec text, the init segment of that codec and a sync fragment, at these three places of a list, and
      no other binary frame before the sync fragment. */
  ghost predicate GreetsAt(q: seq<O.Queued>, body: E.Msg -> seq<byte>, ids: seq<nat>, i: nat, j: nat, k: nat)
    requires |ids| == 3
  {
    && i < j < k < |q|
    && (exists avc: E.Avc ::
          && q[i] == O.Item(ids[0], TEXT, body(E.Codec(avc)))
          && q[j] == O.Item(ids[1], O.BINARY, body(E.InitSegment(avc))))
    && (exists f: E.Msg :: f.Fragment? && f.sync && q[k] == O.Item(ids[2], O.BINARY, body(f)))
    && (forall x :: 0 <= x < k && q[x].opcode == O.BINARY ==> x == j)
  }

  ghost predicate Greets(q: seq<O.Queued>, body: E.Msg -> seq<byte>, ids: seq<nat>)
    requires |ids| == 3
  {
    exists i: nat, j: nat, k: nat :: GreetsAt(q, body, ids, i, j, k)
  }

  /** What a queue driven with a viewer's messages accepted. */
  ghost predicate Accepts(b: O.Box, log: seq<E.Msg>, at: seq<nat>, body: E.Msg -> seq<byte>) {
    && |at| >= 3 && |log| >= 3 && at[0] < at[1] < at[2] < |b.accepted|
    && (forall c :: 0 <= c < |b.accepted| ==> b.accepted[c].id == c)
    && (forall i :: 0 <= i < 3 ==> b.accepted[at[i]] == O.Item(at[i], Opcode(log[i]), body(log[i])))
    && (forall c :: 0 <= c < at[2] && b.accepted[c].opcode == O.BINARY ==> c == at[1])
  }

  lemma AcceptsGreeting(
    log: seq<E.Msg>, bs: seq<O.Box>, ts: seq<O.Step>, n: nat, at: seq<nat>, body: E.Msg -> seq<byte>)
    requires O.Run(bs, ts) && n < |bs| && E.Shape(log) && Drives(ts, n, log, at, body)
    requires |at| >= 3 && at[2] < |bs[n].accepted|
    ensures Accepts(bs[n], log, at, body)
  {
    hide O.Run;
    AcceptedCalls(bs, ts, n);
    var accepted := bs[n].accepted;
    forall c | 0 <= c < at[2] && accepted[c].opcode == O.BINARY ensures c == at[1] {
      assert c in at;
      var i :| 0 <= i < |at| && at[i] == c;
      assert i < 2;
      assert accepted[at[0]].opcode == TEXT;
    }
  }

  /** Not gone means kept, with the greeting in order and before every other binary frame. */
  lemma KeptGreets(b: O.Box, log: seq<E.Msg>, at: seq<nat>, body: E.Msg -> seq<byte>)
    requires O.Ordered(b) && E.Shape(log) && Accepts(b, log, at, body) && NoneGone(b, {at[0], at[1], at[2]})
    ensures Greets(O.Kept(b), body, at[..3])
  {
    var kept := O.Kept(b);
    var i := KeptAt(b, at[0]);
    var j := KeptAt(b, at[1]);
    var k := KeptAt(b, at[2]);
    forall x | 0 <= x < k && kept[x].opcode == O.BINARY ensures x == j {
      assert kept[x].id < kept[k].id && b.accepted[kept[x].id] == kept[x];
      PlacedById(kept, x, j);
    }
    PlacedById(kept, i, j);
    PlacedById(kept, j, k);
    var avc := log[0].avc;
    assert kept[i] == O.Item(at[..3][0], TEXT, body(E.Codec(avc)));
    assert kept[j] == O.Item(at[..3][1], O.BINARY, body(E.InitSegment(avc)));
    assert log[2].Fragment? && log[2].sync && kept[k] == O.Item(at[..3][2], O.BINARY, body(log[2]));
    assert GreetsAt(kept, body, at[..3], i, j, k);
  }

  lemma GreetsKept(b: O.Box, at: seq<nat>, body: E.Msg -> seq<byte>)
    requires O.Ordered(b) && |at| >= 3 && Greets(O.Kept(b), body, at[..3])
    ensures NoneGone(b, {at[0], at[1], at[2]})
  {
    var kept := O.Kept(b);
    var i: nat, j: nat, k: nat :| GreetsAt(kept, body, at[..3], i, j, k);
    assert kept[i].id == at[0] && kept[j].id == at[1] && kept[k].id == at[2];
    assert at[0] in O.Ids(kept) && at[1] in O.Ids(kept) && at[2] in O.Ids(kept);
  }

  /** If the sync fragment was handed over, the greeting was: it is a prefix matter. */
  lemma HandedGreets(b: O.Box, ids: seq<nat>, body: E.Msg -> seq<byte>)
    requires O.Ordered(b) && |ids| == 3 && Greets(O.Kept(b), body, ids) && ids[2] in O.Ids(b.handed)
    ensures Greets(b.handed, body, ids)
  {
    var kept := O.Kept(b);
    var i: nat, j: nat, k: nat :| GreetsAt(kept, body, ids, i, j, k);
    var h :| 0 <= h < |b.handed| && b.handed[h].id == ids[2];
    assert forall x :: 0 <= x < |b.handed| ==> kept[x] == b.handed[x];
    PlacedById(kept, h, k);
    assert GreetsAt(b.handed, body, ids, i, j, k);
  }

  /** The composed property. In every interleaving of the encoder, its viewers and one viewer's queue,
      whatever other text and control frames share that queue, what the queue keeps holds the codec
      text, the matching init segment and a sync fragment, in this order and before any other binary
      frame, if and only if no step discarded a part of the greeting that was still queued: no binary
      enqueue while two or more frames waited, and no closing. Once the sync fragment is handed over, the
      viewer's socket was given bytes that decode to such a list. */
  lemma GreetingKeptExactly(es: seq<E.Enc>, us: seq<E.Step>, k: nat, id: nat,
                            bs: seq<O.Box>, ts: seq<O.Step>, n: nat, at: seq<nat>, body: E.Msg -> seq<byte>)
    requires E.Run(es, us) && k < |es| && id in es[k].logs
    requires O.Run(bs, ts) && n < |bs| && Drives(ts, n, es[k].logs[id], at, body)
    requires |at| >= 3 && at[2] < |bs[n].accepted|
    ensures Greets(O.Kept(bs[n]), body, at[..3])
       <==> forall j :: 0 <= j < n ==> !Loses(bs[j], ts[j], {at[0], at[1], at[2]})
    ensures Greets(O.Kept(bs[n]), body, at[..3]) && at[2] in O.Ids(bs[n].handed) ==>
              Greets(bs[n].handed, body, at[..3]) && Decode(bs[n].wire) == Decoded(Sent(O.Pairs(bs[n].handed)), [])
  {
    E.JoinOrder(es, us, k);
    O.OutboxSafety(bs, ts, n);
    O.SocketBytes(bs, ts, n);
    AcceptsGreeting(es[k].logs[id], bs, ts, n, at, body);
    NoneGoneExactly(bs, ts, n, {at[0], at[1], at[2]});
    hide O.Run, E.Run, O.Next, E.Shape, Loses, NoneGone, Drives, Accepts, Greets, O.Ordered, O.Counted;
    if NoneGone(bs[n], {at[0], at[1], at[2]}) {
      KeptGreets(bs[n], es[k].logs[id], at, body);
    }
    if Greets(O.Kept(bs[n]), body, at[..3]) {
      GreetsKept(bs[n], at, body);
      if at[2] in O.Ids(bs[n].handed) {
        HandedGreets(bs[n], at[..3], body);
      }
    }
  }

  // ---- a run that loses it -------------------------------------------------------------------

  /** One viewer joins, then a sync fragment and one more are made. */
  function TwoFragments(): seq<E.Step> {
    [E.EnsureBegin, E.EnsureOk, E.Join,
     E.Number(true, []), E.PickTargets, E.SendNext, E.CallbackDone,
     E.Number(false, []), E.PickTargets, E.SendNext]
  }

  function FourMessages(): seq<E.Msg> {
    [E.Codec([]), E.InitSegment([]), E.Fragment(1, 1, 1, true), E.Fragment(1, 2, 2, false)]
  }

  /** The codec text is on its way when the other three messages are enqueued. */
  function SlowSocket(): seq<O.Step> {
    [O.Enqueue(TEXT, []), O.PumpBegin, O.PumpSend(0),
     O.Enqueue(O.BINARY, []), O.Enqueue(O.BINARY, []), O.Enqueue(O.BINARY, [])]
  }

  lemma OneTarget(id: nat, joined: bool, sync: bool)
    requires joined || sync
    ensures E.Targets([E.Client(id, joined)], sync) == [(id, !joined)]
    ensures E.Joined([E.Client(id, joined)], sync) == [E.Client(id, true)]
  {
    assert [E.Client(id, joined)][..0] == [];
  }

  /** Between callbacks: `made` fragments of the first session, one viewer with this log. */
  ghost predicate Streaming(e: E.Enc, made: nat, joined: bool, log: seq<E.Msg>) {
    && e.callback == E.Idle && e.session == Some(1) && e.created == 1 && e.made == made && e.seqNo == made
    && (made == 0 ==> e.avcC == None)
    && e.clients == [E.Client(0, joined)] && 0 in e.logs && e.logs[0] == log
  }

  lemma Joining() returns (e1: E.Enc, e2: E.Enc, e3: E.Enc)
    ensures var us := TwoFragments();
      && E.Enabled(E.Start(), us[0]) && e1 == E.Next(E.Start(), us[0])
      && E.Enabled(e1, us[1]) && e2 == E.Next(e1, us[1]) && E.Enabled(e2, us[2]) && e3 == E.Next(e2, us[2])
    ensures Streaming(e3, 0, false, [])
  {
    var us := TwoFragments();
    e1 := E.Next(E.Start(), us[0]);
    e2 := E.Next(e1, us[1]);
    e3 := E.Next(e2, us[2]);
  }

  lemma FirstFragment(e3: E.Enc) returns (e4: E.Enc, e5: E.Enc, e6: E.Enc)
    requires Streaming(e3, 0, false, [])
    ensures var us := TwoFragments();
      && E.Enabled(e3, us[3]) && e4 == E.Next(e3, us[3]) && E.Enabled(e4, us[4]) && e5 == E.Next(e4, us[4])
      && E.Enabled(e5, us[5]) && e6 == E.Next(e5, us[5])
    ensures E.Enabled(e6, E.CallbackDone) && Streaming(E.Next(e6, E.CallbackDone), 1, true, FourMessages()[..3])
  {
    var us := TwoFragments();
    e4 := E.Next(e3, us[3]);
    OneTarget(0, false, true);
    hide E.Targets, E.Joined;
    e5 := E.Next(e4, us[4]);
    assert e5.callback == E.Sending(1, true, [], Some([]), [(0, true)]);
    e6 := E.Next(e5, us[5]);
    assert e6.logs[0] == [] + FourMessages()[..3];
  }

  lemma SecondFragment(e7: E.Enc) returns (e8: E.Enc, e9: E.Enc, e10: E.Enc)
    requires Streaming(e7, 1, true, FourMessages()[..3])
    ensures var us := TwoFragments();
      && E.Enabled(e7, us[7]) && e8 == E.Next(e7, us[7]) && E.Enabled(e8, us[8]) && e9 == E.Next(e8, us[8])
      && E.Enabled(e9, us[9]) && e10 == E.Next(e9, us[9])
    ensures 0 in e10.logs && e10.logs[0] == FourMessages() && e10.clients == [E.Client(0, true)]
  {
    var us := TwoFragments();
    e8 := E.Next(e7, us[7]);
    OneTarget(0, true, false);
    hide E.Targets, E.Joined;
    e9 := E.Next(e8, us[8]);
    assert e9.callback.targets == [(0, false)];
    e10 := E.Next(e9, us[9]);
    assert e10.logs[0] == FourMessages()[..3] + [FourMessages()[3]];
  }

  /** The queue while the codec text is on its way, with these frames waiting. */
  ghost predicate Waiting(b: O.Box, n: nat, outbox: seq<O.Item>) {
    |b.accepted| == n && b.outbox == outbox && b.stale == {} && b.dropped == {} && !b.closed
  }

  lemma CodecSent() returns (b1: O.Box, b2: O.Box, b3: O.Box)
    ensures var ts := SlowSocket();
      && O.Enabled(O.Empty(), ts[0]) && b1 == O.Next(O.Empty(), ts[0])
      && O.Enabled(b1, ts[1]) && b2 == O.Next(b1, ts[1]) && O.Enabled(b2, ts[2]) && b3 == O.Next(b2, ts[2])
    ensures Waiting(b3, 1, [])
  {
    hide EncodeFrame, O.BatchBytes;
    var ts := SlowSocket();
    b1 := O.Next(O.Empty(), ts[0]);
    b2 := O.Next(b1, ts[1]);
    assert b2.holding[0] == [O.Item(0, TEXT, [])];
    b3 := O.Next(b2, ts[2]);
  }

  lemma OneWaits(b: O.Box, n: nat, outbox: seq<O.Item>) returns (b': O.Box)
    requires Waiting(b, n, outbox) && |outbox| < 2
    ensures O.Enabled(b, O.Enqueue(O.BINARY, [])) && b' == O.Next(b, O.Enqueue(O.BINARY, []))
    ensures Waiting(b', n + 1, outbox + [O.Item(n, O.BINARY, [])])
  {
    hide EncodeFrame;
    b' := O.Next(b, O.Enqueue(O.BINARY, []));
  }

  lemma SlowRun() returns (bs: seq<O.Box>)
    ensures O.Run(bs, SlowSocket()) && |bs[6].accepted| == 4 && bs[6].stale == {1, 2}
    ensures |bs[5].outbox| == 2 && bs[5].outbox[0].id == 1 && !bs[5].closed
  {
    var b1, b2, b3 := CodecSent();
    var b4 := OneWaits(b3, 1, []);
    var b5 := OneWaits(b4, 2, [] + [O.Item(1, O.BINARY, [])]);
    assert b5.outbox[0].id == 1 && b5.outbox[1].id == 2 && O.Ids(b5.outbox) == {1, 2};
    var b6 := O.Next(b5, SlowSocket()[5]);
    assert b6.stale == {} + {1, 2};
    hide O.Next, O.Enabled, O.Empty;
    bs := [O.Empty(), b1, b2, b3, b4, b5, b6];
  }

  lemma ViewerRun() returns (es: seq<E.Enc>)
    ensures E.Run(es, TwoFragments()) && 0 in es[10].logs && es[10].logs[0] == FourMessages()
    ensures es[10].clients == [E.Client(0, true)]
  {
    hide E.Next, E.Enabled, E.Start, FourMessages;
    var e1, e2, e3 := Joining();
    var e4, e5, e6 := FirstFragment(e3);
    var e7 := E.Next(e6, E.CallbackDone);
    var e8, e9, e10 := SecondFragment(e7);
    es := [E.Start(), e1, e2, e3, e4, e5, e6, e7, e8, e9, e10];
  }

  lemma SlowCalls()
    ensures Calls(SlowSocket(), 6) == [(TEXT, []), (O.BINARY, []), (O.BINARY, []), (O.BINARY, [])]
  {
    var ts := SlowSocket();
    assert Calls(ts, 1) == [(TEXT, [])];
    assert Calls(ts, 3) == Calls(ts, 2) == [(TEXT, [])];
    assert Calls(ts, 5) == [(TEXT, []), (O.BINARY, []), (O.BINARY, [])];
  }

  function UpTo(n: nat): (s: seq<nat>)
    ensures |s| == n && forall i :: 0 <= i < n ==> s[i] == i
  {
    seq(n, i => i)
  }

  /** A queue that carries the encoder's messages and nothing else. */
  lemma DrivenAlone(ts: seq<O.Step>, n: nat, log: seq<E.Msg>, body: E.Msg -> seq<byte>)
    requires n <= |ts| && |Calls(ts, n)| == |log|
    requires forall i :: 0 <= i < |log| ==> Calls(ts, n)[i] == (Opcode(log[i]), body(log[i]))
    ensures Drives(ts, n, log, UpTo(|log|), body)
  {
    hide Calls;
    var at := UpTo(|log|);
    forall c | 0 <= c < |log| ensures c in at {
      assert at[c] == c;
    }
  }

  /** A viewer can lose its greeting for good: here the init segment and the sync fragment are discarded
      by the stale rule, and the encoder counts the viewer as joined. */
  lemma GreetingCanBeLost() returns (es: seq<E.Enc>, bs: seq<O.Box>)
    ensures E.Run(es, TwoFragments()) && 0 in es[10].logs && es[10].logs[0] == FourMessages()
    ensures es[10].clients == [E.Client(0, true)]
    ensures O.Run(bs, SlowSocket()) && Drives(SlowSocket(), 6, FourMessages(), UpTo(4), _ => [])
    ensures bs[6].stale == {1, 2} && Loses(bs[5], SlowSocket()[5], {0, 1, 2})
  {
    hide E.Next, O.Next, E.Run, O.Run, E.Enabled, TwoFragments, Drives, Calls;
    es := ViewerRun();
    bs := SlowRun();
    SlowCalls();
    DrivenAlone(SlowSocket(), 6, FourMessages(), _ => []);
  }
}
