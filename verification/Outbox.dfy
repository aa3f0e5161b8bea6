/** The per-viewer outbound queue: locked sections interleaved in any order, one flusher at a time. */
module Outbox {
  import opened Bytes
  import opened WebSocket

  const MAX_OUTBOX_BYTES: nat := 6 * 1024 * 1024
  const BINARY: byte := 0x2

  /** A frame to send; `id` is its place in the order of acceptance. */
  datatype Item = Item(id: nat, opcode: byte, payload: seq<byte>)

  /** Frames the encoder can build. */
  type Queued = x: Item | |x.payload| < SIZE_LIMIT witness Item(0, 0, [])

  function FrameOf(q: Queued): seq<byte> { EncodeFrame(q.opcode, q.payload) }

  /** The four locked fields, the batches of threads that hold the flushing flag and have not sent
      yet, the sends in flight, and the history: everything accepted, every frame and every byte handed
      to the socket, and what was discarded by the stale rule or by closing. */
  datatype Box = Box(outbox: seq<Queued>, outBytes: nat, flushing: bool, closed: bool,
                     holding: seq<seq<Queued>>, inFlight: nat,
                     accepted: seq<Queued>, handed: seq<Queued>, wire: seq<byte>, stale: set<nat>, dropped: set<nat>)

  datatype Step =
    | Enqueue(opcode: byte, payload: seq<byte>)
    | PumpBegin
    | PumpEmpty(i: nat)
    | PumpSend(i: nat)
    | SendDone
    | Close

  function Empty(): Box { Box([], 0, false, false, [], 0, [], [], [], {}, {}) }

  function Ids(q: seq<Queued>): set<nat> {
    set i | 0 <= i < |q| :: q[i].id
  }

  predicate Enabled(b: Box, t: Step) {
    match t
    case Enqueue(_, payload) => |payload| < SIZE_LIMIT
    case PumpEmpty(i) => i < |b.holding| && b.holding[i] == []
    case PumpSend(i) => i < |b.holding| && b.holding[i] != []
    case SendDone => b.inFlight > 0
    case _ => true
  }

  function Without<T>(s: seq<T>, i: nat): seq<T>
    requires i < |s|
  {
    s[..i] + s[i + 1..]
  }

  function Pairs(q: seq<Queued>): (s: seq<(byte, seq<byte>)>)
    ensures |s| == |q|
    ensures forall i :: 0 <= i < |s| ==> s[i] == (q[i].opcode, q[i].payload) && |s[i].1| < SIZE_LIMIT
  {
    seq(|q|, i requires 0 <= i < |q| => (q[i].opcode, q[i].payload))
  }

  /** A batch as bytes: its frames one after another. */
  function BatchBytes(q: seq<Queued>): seq<byte> { Stream(Pairs(q)) }

  predicate DropsStale(b: Box, opcode: byte) {
    opcode == BINARY && |b.outbox| >= 2
  }

  function Next(b: Box, t: Step): Box
    requires Enabled(b, t)
  {
    match t
    case Enqueue(opcode, payload) =>
      if b.closed then b
      else
        var q: Queued := Item(|b.accepted|, opcode, payload);
        var kept := if DropsStale(b, opcode) then [] else b.outbox;
        b.(outbox := kept + [q],
           outBytes := (if DropsStale(b, opcode) then 0 else b.outBytes) + |FrameOf(q)|,
           accepted := b.accepted + [q],
           stale := if DropsStale(b, opcode) then b.stale + Ids(b.outbox) else b.stale)
    case PumpBegin =>
      if b.flushing || b.closed then b
      else b.(flushing := true, holding := b.holding + [b.outbox], outbox := [], outBytes := 0)
    case PumpEmpty(i) => b.(flushing := false, holding := Without(b.holding, i))
    case PumpSend(i) =>
      b.(handed := b.handed + b.holding[i], wire := b.wire + BatchBytes(b.holding[i]), inFlight := b.inFlight + 1,
         holding := Without(b.holding, i))
    case SendDone => b.(flushing := false, inFlight := b.inFlight - 1)
    case Close =>
      if b.closed then b else b.(closed := true, outbox := [], outBytes := 0, dropped := b.dropped + Ids(b.outbox))
  }

  // ---- what every interleaving keeps --------------------------------------------------

  function Total(q: seq<Queued>): nat {
    if q == [] then 0 else Total(q[..|q| - 1]) + |FrameOf(q[|q| - 1])|
  }

  function Binaries(q: seq<Queued>): nat {
    if q == [] then 0 else Binaries(q[..|q| - 1]) + (if q[|q| - 1].opcode == BINARY then 1 else 0)
  }

  /** Everything accepted and not discarded, in the order it is or will be sent. */
  function Kept(b: Box): seq<Queued> {
    b.handed + (if |b.holding| == 0 then [] else b.holding[0]) + b.outbox
  }

  /** Counting and flags: byte count, closing, one flusher, at most two binary frames waiting. */
  ghost predicate Counted(b: Box) {
    && b.outBytes == Total(b.outbox)
    && (b.closed ==> b.outbox == [])
    && |b.holding| + b.inFlight == (if b.flushing then 1 else 0)
    && Binaries(b.outbox) <= 2
  }

  /** Order and completeness: `kept` is a duplicate-free, order-preserving part of what was accepted,
      and every accepted frame is either kept or gone, never both. */
  ghost predicate Accounts(kept: seq<Queued>, accepted: seq<Queued>, gone: set<nat>) {
    && (forall i :: 0 <= i < |kept| ==> kept[i].id < |accepted| && accepted[kept[i].id] == kept[i])
    && (forall i, j :: 0 <= i < j < |kept| ==> kept[i].id < kept[j].id)
    && (forall id :: id in gone ==> id < |accepted|)
    && (forall id :: 0 <= id < |accepted| ==> (id in Ids(kept) <==> id !in gone))
  }

  ghost predicate Ordered(b: Box) {
    Accounts(Kept(b), b.accepted, b.stale + b.dropped)
  }

  lemma TotalSnoc(q: seq<Queued>, x: Queued)
    ensures Total(q + [x]) == Total(q) + |FrameOf(x)|
    ensures Binaries(q + [x]) == Binaries(q) + if x.opcode == BINARY then 1 else 0
  {
    assert (q + [x])[..|q|] == q;
  }

  lemma {:induction false} BinariesBounded(q: seq<Queued>)
    ensures Binaries(q) <= |q|
  {
    if q != [] {
      BinariesBounded(q[..|q| - 1]);
    }
  }

  lemma CountedStep(b: Box, t: Step)
    requires Counted(b) && Enabled(b, t)
    ensures Counted(Next(b, t))
  {
    if t.Enqueue? && !b.closed {
      hide EncodeFrame;
      var q: Queued := Item(|b.accepted|, t.opcode, t.payload);
      var kept := if DropsStale(b, t.opcode) then [] else b.outbox;
      TotalSnoc(kept, q);
      BinariesBounded(kept);
    }
  }

  /** Discarding the back of what is kept. */
  lemma AccountsDrop(front: seq<Queued>, back: seq<Queued>, accepted: seq<Queued>, gone: set<nat>)
    requires Accounts(front + back, accepted, gone)
    ensures Accounts(front, accepted, gone + Ids(back))
  {
    var kept := front + back;
    IdsAppend(front, back);
    forall i | 0 <= i < |front| ensures front[i] == kept[i] {
    }
    forall j | 0 <= j < |back| ensures back[j].id < |accepted| && back[j].id !in Ids(front) {
      assert kept[|front| + j] == back[j];
      forall i | 0 <= i < |front| ensures front[i].id != back[j].id {
        assert kept[i].id < kept[|front| + j].id;
      }
    }
  }

  /** Accepting one more frame. */
  lemma AccountsAdd(kept: seq<Queued>, accepted: seq<Queued>, gone: set<nat>, q: Queued)
    requires Accounts(kept, accepted, gone) && q.id == |accepted|
    ensures Accounts(kept + [q], accepted + [q], gone)
  {
    IdsAppend(kept, [q]);
    assert Ids([q]) == {q.id} by {
      assert [q][0].id == q.id;
    }
    var kept', accepted' := kept + [q], accepted + [q];
    forall i | 0 <= i < |kept'| ensures kept'[i].id < |accepted'| && accepted'[kept'[i].id] == kept'[i] {
    }
    forall id | 0 <= id < |accepted'| ensures id in Ids(kept') <==> id !in gone {
      if id < |accepted| {
        assert id in Ids(kept) <==> id !in gone;
      }
    }
  }

  lemma IdsAppend(a: seq<Queued>, c: seq<Queued>)
    ensures Ids(a + c) == Ids(a) + Ids(c)
  {
    var all := a + c;
    forall x | x in Ids(a) + Ids(c) ensures x in Ids(all) {
      if x in Ids(a) {
        var i :| 0 <= i < |a| && a[i].id == x;
        assert all[i].id == x;
      } else {
        var i :| 0 <= i < |c| && c[i].id == x;
        assert all[|a| + i].id == x;
      }
    }
    forall x | x in Ids(all) ensures x in Ids(a) + Ids(c) {
      var i :| 0 <= i < |all| && all[i].id == x;
      if i < |a| {
        assert a[i].id == x;
      } else {
        assert c[i - |a|].id == x;
      }
    }
  }

  lemma OrderedStep(b: Box, t: Step)
    requires Ordered(b) && Counted(b) && Enabled(b, t)
    ensures Ordered(Next(b, t))
  {
    hide Accounts, Ids, EncodeFrame;
    var b' := Next(b, t);
    var front := b.handed + (if |b.holding| == 0 then [] else b.holding[0]);
    if t.Enqueue? && !b.closed {
      var q: Queued := Item(|b.accepted|, t.opcode, t.payload);
      if DropsStale(b, t.opcode) {
        AccountsDrop(front, b.outbox, b.accepted, b.stale + b.dropped);
        assert b.stale + Ids(b.outbox) + b.dropped == b.stale + b.dropped + Ids(b.outbox);
        AccountsAdd(front, b.accepted, b.stale + b.dropped + Ids(b.outbox), q);
        assert Kept(b') == front + [q];
      } else {
        AccountsAdd(Kept(b), b.accepted, b.stale + b.dropped, q);
        assert Kept(b') == Kept(b) + [q];
      }
    } else if t.Close? && !b.closed {
      AccountsDrop(front, b.outbox, b.accepted, b.stale + b.dropped);
      assert b.stale + (b.dropped + Ids(b.outbox)) == b.stale + b.dropped + Ids(b.outbox);
      assert Kept(b') == front;
    } else {
      assert Kept(b') == Kept(b);
    }
  }

  // ---- what the socket was given ------------------------------------------------------

  lemma {:induction false} StreamAppend(a: seq<(byte, seq<byte>)>, c: seq<(byte, seq<byte>)>)
    requires forall i :: 0 <= i < |a| ==> |a[i].1| < SIZE_LIMIT
    requires forall i :: 0 <= i < |c| ==> |c[i].1| < SIZE_LIMIT
    ensures Stream(a + c) == Stream(a) + Stream(c)
  {
    hide EncodeFrame;
    if a == [] {
      assert a + c == c;
    } else {
      assert (a + c)[0] == a[0] && (a + c)[1..] == a[1..] + c;
      StreamAppend(a[1..], c);
      AppendAssoc(EncodeFrame(a[0].0, a[0].1), Stream(a[1..]), Stream(c));
    }
  }

  lemma BatchAppend(a: seq<Queued>, c: seq<Queued>)
    ensures BatchBytes(a + c) == BatchBytes(a) + BatchBytes(c)
  {
    assert Pairs(a + c) == Pairs(a) + Pairs(c);
    StreamAppend(Pairs(a), Pairs(c));
  }

  /** Every byte on the wire belongs to a whole frame that was handed over. */
  ghost predicate WholeFrames(b: Box) { b.wire == BatchBytes(b.handed) }

  lemma WireStep(b: Box, t: Step)
    requires WholeFrames(b) && Enabled(b, t)
    ensures WholeFrames(Next(b, t))
  {
    hide BatchBytes, EncodeFrame;
    if t.PumpSend? {
      BatchAppend(b.handed, b.holding[t.i]);
    }
  }

  // ---- runs ---------------------------------------------------------------------------

  ghost predicate Run(bs: seq<Box>, ts: seq<Step>) {
    && |bs| == |ts| + 1 && bs[0] == Empty()
    && forall i :: 0 <= i < |ts| ==> Enabled(bs[i], ts[i]) && bs[i + 1] == Next(bs[i], ts[i])
  }

  /** Outbox safety, in every state of every interleaving. */
  lemma {:induction false} OutboxSafety(bs: seq<Box>, ts: seq<Step>, i: nat)
    requires Run(bs, ts) && i < |bs|
    ensures Counted(bs[i]) && Ordered(bs[i]) && WholeFrames(bs[i])
    ensures bs[i].inFlight <= 1
  {
    if i > 0 {
      OutboxSafety(bs, ts, i - 1);
      hide Next, Counted, Ordered, WholeFrames;
      assert bs[i] == Next(bs[i - 1], ts[i - 1]);
      CountedStep(bs[i - 1], ts[i - 1]);
      OrderedStep(bs[i - 1], ts[i - 1]);
      WireStep(bs[i - 1], ts[i - 1]);
    }
    OneInFlight(bs[i]);
  }

  lemma OneInFlight(b: Box)
    ensures Counted(b) ==> b.inFlight <= 1
  {
  }

  /** The bytes the socket was given over all batches decode, with nothing left over, to exactly the
      frames handed over, which are accepted ones in strictly increasing order of acceptance. */
  lemma SocketBytes(bs: seq<Box>, ts: seq<Step>, i: nat)
    requires Run(bs, ts) && i < |bs|
    ensures Decode(bs[i].wire) == Decoded(Sent(Pairs(bs[i].handed)), [])
    ensures forall k :: 0 <= k < |bs[i].handed| ==> bs[i].handed[k] in bs[i].accepted
    ensures forall j, k :: 0 <= j < k < |bs[i].handed| ==> bs[i].handed[j].id < bs[i].handed[k].id
  {
    OutboxSafety(bs, ts, i);
    var b := bs[i];
    var kept := Kept(b);
    forall k | 0 <= k < |b.handed| ensures b.handed[k] == kept[k] && b.handed[k] in b.accepted {
      assert b.accepted[kept[k].id] == kept[k];
    }
    var pairs := Pairs(b.handed);
    DecodeEncoded(pairs, []);
    assert Stream(pairs) + [] == Stream(pairs);
    assert Sent(pairs) + Decode([]).frames == Sent(pairs);
  }

  lemma {:induction false} StreamSnoc(pairs: seq<(byte, seq<byte>)>, k: nat)
    requires k < |pairs| && forall i :: 0 <= i < |pairs| ==> |pairs[i].1| < SIZE_LIMIT
    ensures Stream(pairs[..k + 1]) == Stream(pairs[..k]) + EncodeFrame(pairs[k].0, pairs[k].1)
  {
    hide EncodeFrame;
    if k == 0 {
      assert pairs[..1] == [pairs[0]] && pairs[..1][1..] == [] && pairs[..0] == [];
    } else {
      StreamSnoc(pairs[1..], k - 1);
      assert pairs[..k + 1][1..] == pairs[1..][..k] && pairs[..k][1..] == pairs[1..][..k - 1];
      AppendAssoc(EncodeFrame(pairs[0].0, pairs[0].1), Stream(pairs[..k][1..]), EncodeFrame(pairs[k].0, pairs[k].1));
    }
  }

  // ---- the object --------------------------------------------------------------------------

  /** The queue's fields as the original has them; `box` follows along as the specification state. */
  class Connection {
    var outbox: seq<seq<byte>>
    var outBytes: nat
    var flushing: bool
    var closed: bool
    ghost var box: Box

    ghost predicate Valid()
      reads this
    {
      && Counted(box)
      && outBytes == box.outBytes && flushing == box.flushing && closed == box.closed
      && |outbox| == |box.outbox|
      && forall i :: 0 <= i < |outbox| ==> outbox[i] == FrameOf(box.outbox[i])
    }

    constructor ()
      ensures Valid() && box == Empty()
    {
      outbox, outBytes, flushing, closed := [], 0, false, false;
      box := Empty();
    }

    /** The locked section of `enqueue`. The caller closes on overflow and pumps otherwise. */
    method EnqueueLocked(opcode: byte, payload: seq<byte>) returns (overflow: bool, wantKeyFrame: bool)
      requires Valid() && |payload| < SIZE_LIMIT
      modifies this
      ensures Valid() && box == Next(old(box), Enqueue(opcode, payload))
      ensures closed == old(closed) && flushing == old(flushing)
      ensures wantKeyFrame <==> !closed && opcode == 2 && |old(outbox)| >= 2
      ensures outbox == if closed then old(outbox)
                        else (if wantKeyFrame then [] else old(outbox)) + [EncodeFrame(opcode, payload)]
      ensures overflow <==> !closed && outBytes > 6291456
    {
      CountedStep(box, Enqueue(opcode, payload));
      hide EncodeFrame, Counted;
      overflow, wantKeyFrame := false, false;
      if closed {
        return;
      }
      if opcode == BINARY && |outbox| >= 2 {
        outbox, outBytes, wantKeyFrame := [], 0, true;
      }
      var frame := EncodeFrame(opcode, payload);
      outbox := outbox + [frame];
      outBytes := outBytes + |frame|;
      overflow := outBytes > MAX_OUTBOX_BYTES;
      box := Next(box, Enqueue(opcode, payload));
    }

    method CloseLocked()
      requires Valid()
      modifies this
      ensures Valid() && box == Next(old(box), Close) && closed && outbox == [] && outBytes == 0
      ensures flushing == old(flushing)
    {
      CountedStep(box, Close);
      if !closed {
        closed, outbox, outBytes := true, [], 0;
      }
      box := Next(box, Close);
    }

    /** The first locked section of `pump`: claim the flag and take the whole queue. */
    method PumpLocked() returns (claimed: bool, batch: seq<seq<byte>>)
      requires Valid()
      modifies this
      ensures Valid() && box == Next(old(box), PumpBegin)
      ensures claimed <==> !old(flushing) && !closed
      ensures claimed ==> batch == old(outbox) && outbox == [] && flushing && Holds(|box.holding| - 1, batch)
      ensures !claimed ==> outbox == old(outbox) && flushing == old(flushing)
    {
      CountedStep(box, PumpBegin);
      claimed, batch := false, [];
      if !(flushing || closed) {
        claimed, batch := true, outbox;
        flushing, outbox, outBytes := true, [], 0;
      }
      box := Next(box, PumpBegin);
    }

    /** The batch a flushing thread took, as bytes. */
    ghost predicate Holds(i: int, batch: seq<seq<byte>>)
      reads this
    {
      && 0 <= i < |box.holding| && |batch| == |box.holding[i]|
      && forall k :: 0 <= k < |batch| ==> batch[k] == FrameOf(box.holding[i][k])
    }

    /** Outside the lock: concatenate the batch and hand it to the socket. */
    method SendBatch(batch: seq<seq<byte>>, ghost i: nat) returns (all: seq<byte>)
      requires Valid() && Holds(i, batch) && batch != []
      modifies this`box
      ensures Valid() && box == Next(old(box), PumpSend(i))
      ensures all == BatchBytes(old(box).holding[i]) && box.wire == old(box).wire + all
    {
      CountedStep(box, PumpSend(i));
      hide EncodeFrame, Counted;
      all := [];
      ghost var pairs := Pairs(box.holding[i]);
      for k := 0 to |batch|
        invariant box == old(box) && all == Stream(pairs[..k])
      {
        all := all + batch[k];
        StreamSnoc(pairs, k);
      }
      assert pairs[..|batch|] == pairs;
      box := Next(box, PumpSend(i));
    }

    /** The empty-batch path and the completion handler both give the flag back. */
    method ReleaseLocked(ghost t: Step) returns (more: bool)
      requires Valid() && (t.PumpEmpty? || t.SendDone?) && Enabled(box, t)
      modifies this
      ensures Valid() && box == Next(old(box), t)
      ensures !flushing && outbox == old(outbox) && closed == old(closed)
      ensures more <==> outbox != [] && !closed
    {
      CountedStep(box, t);
      flushing := false;
      more := outbox != [] && !closed;
      box := Next(box, t);
    }
  }
}
