/** The resynchronising stream reassembler: what it cuts a byte stream into, and why the
    way the stream arrives in chunks does not matter. */
module Reassembler {
  import opened Bytes
  import opened MuxCodec

  /** Where a byte of the stream went: into an emitted packet, or dropped to resynchronise. */
  datatype Piece = Packet(data: seq<byte>) | Dropped(b: byte) {
    function Content(): seq<byte> { if Packet? then data else [b] }
  }

  datatype Cut = Cut(pieces: seq<Piece>, rest: seq<byte>)

  predicate Plausible(buf: seq<byte>, i: nat, cap: nat)
    requires i + 8 <= |buf|
  {
    HEADER_SIZE <= U32At(buf, i + 4) <= cap
  }

  /** A whole frame: its length field is its own size, at most the cap. */
  predicate IsFrame(f: seq<byte>, cap: nat) {
    8 <= |f| <= cap && U32At(f, 4) == |f|
  }

  /** How many bytes the next piece takes from the front: one for a drop, the whole frame for a
      packet, zero while the front cannot be decided yet. */
  function Advance(buf: seq<byte>, cap: nat): (n: nat)
    ensures n <= |buf|
  {
    if |buf| < HEADER_SIZE then 0
    else if !Plausible(buf, 0, cap) then 1
    else if |buf| < U32At(buf, 4) then 0
    else U32At(buf, 4)
  }

  function Head(buf: seq<byte>, cap: nat): Piece
    requires Advance(buf, cap) > 0
  {
    if Advance(buf, cap) == 1 then Dropped(buf[0]) else Packet(buf[..Advance(buf, cap)])
  }

  /** The cut of a buffer: decided from the front, one piece at a time. */
  function Split(buf: seq<byte>, cap: nat): (c: Cut)
    decreases |buf|
  {
    var n := Advance(buf, cap);
    if n == 0 then Cut([], buf)
    else
      var c := Split(buf[n..], cap);
      Cut([Head(buf, cap)] + c.pieces, c.rest)
  }

  function Packets(pieces: seq<Piece>): seq<seq<byte>> {
    if pieces == [] then []
    else (if pieces[0].Packet? then [pieces[0].data] else []) + Packets(pieces[1..])
  }

  function Contents(pieces: seq<Piece>): seq<byte> {
    if pieces == [] then [] else pieces[0].Content() + Contents(pieces[1..])
  }

  lemma {:induction false} PacketsAppend(a: seq<Piece>, b: seq<Piece>)
    ensures Packets(a + b) == Packets(a) + Packets(b)
  {
    if a == [] {
      assert a + b == b;
    } else {
      assert (a + b)[0] == a[0] && (a + b)[1..] == a[1..] + b;
      PacketsAppend(a[1..], b);
    }
  }

  /** Result of feeding a chunk: the packets returned and the retained buffer. */
  datatype Fed = Fed(packets: seq<seq<byte>>, buffer: seq<byte>)

  function Feed(buf: seq<byte>, data: seq<byte>, cap: nat): Fed {
    var c := Split(buf + data, cap);
    Fed(Packets(c.pieces), if |c.rest| > cap then [] else c.rest)
  }

  function FeedAll(buf: seq<byte>, chunks: seq<seq<byte>>, cap: nat): Fed
    decreases |chunks|
  {
    if chunks == [] then Fed([], buf)
    else
      var first := Feed(buf, chunks[0], cap);
      var later := FeedAll(first.buffer, chunks[1..], cap);
      Fed(first.packets + later.packets, later.buffer)
  }

  /** The reassembler object; its two fields are those of the original. */
  class PacketReassembler {
    const maxBuffer: nat
    var buffers: seq<byte>

    constructor (maxBuffer: nat)
      ensures this.maxBuffer == maxBuffer && buffers == []
    {
      this.maxBuffer := maxBuffer;
      buffers := [];
    }

    method FeedChunk(data: seq<byte>) returns (packets: seq<seq<byte>>)
      modifies this`buffers
      ensures Fed(packets, buffers) == Feed(old(buffers), data, maxBuffer)
    {
      hide Advance, Head;
      buffers := buffers + data;
      packets := [];
      ghost var whole := Split(buffers, maxBuffer);
      ghost var done: seq<Piece> := [];
      while |buffers| >= HEADER_SIZE
        invariant Packets(done) == packets
        invariant done + Split(buffers, maxBuffer).pieces == whole.pieces
        invariant Split(buffers, maxBuffer).rest == whole.rest
        decreases |buffers|
      {
        var length := U32At(buffers, 4);
        ghost var was := buffers;
        if length < HEADER_SIZE || length > maxBuffer {
          DropCase(buffers, maxBuffer);
          buffers := buffers[1..];
        } else if |buffers| < length {
          WaitCase(buffers, maxBuffer);
          break;
        } else {
          PacketCase(buffers, maxBuffer);
          packets := packets + [buffers[..length]];
          buffers := buffers[length..];
        }
        AppendAssoc(done, [Head(was, maxBuffer)], Split(buffers, maxBuffer).pieces);
        PacketsAppend(done, [Head(was, maxBuffer)]);
        done := done + [Head(was, maxBuffer)];
      }
      WaitCase(buffers, maxBuffer);
      assert done == whole.pieces;
      if |buffers| > maxBuffer {
        buffers := [];
      }
    }
  }

  lemma DropCase(buf: seq<byte>, cap: nat)
    requires |buf| >= 8 && !Plausible(buf, 0, cap)
    ensures Advance(buf, cap) == 1 && Head(buf, cap) == Dropped(buf[0])
  {
  }

  lemma WaitCase(buf: seq<byte>, cap: nat)
    requires |buf| < 8 || (Plausible(buf, 0, cap) && |buf| < U32At(buf, 4))
    ensures Split(buf, cap) == Cut([], buf)
  {
  }

  lemma PacketCase(buf: seq<byte>, cap: nat)
    requires |buf| >= 8 && Plausible(buf, 0, cap) && |buf| >= U32At(buf, 4)
    ensures Advance(buf, cap) == U32At(buf, 4) && Head(buf, cap) == Packet(buf[..U32At(buf, 4)])
  {
  }

  // ---- conservation ----------------------------------------------------------

  /** Every byte fed goes, in order, to exactly one of a packet, a one-byte drop or the retained rest. */
  lemma {:induction false} Conservation(buf: seq<byte>, cap: nat)
    ensures Contents(Split(buf, cap).pieces) + Split(buf, cap).rest == buf
    decreases |buf|
  {
    hide Advance, Head;
    var n := Advance(buf, cap);
    if n > 0 {
      Conservation(buf[n..], cap);
      HeadContent(buf, cap);
      var tail := Split(buf[n..], cap);
      assert Split(buf, cap).pieces[1..] == tail.pieces;
      AppendAssoc(buf[..n], Contents(tail.pieces), tail.rest);
      assert buf[..n] + buf[n..] == buf;
    }
  }

  /** The retained rest stays below the larger of a header and the cap. */
  lemma {:induction false} RestBounded(buf: seq<byte>, cap: nat)
    ensures |Split(buf, cap).rest| < if cap < 8 then 8 else cap
    decreases |buf|
  {
    hide U32At, Head;
    var n := Advance(buf, cap);
    if n > 0 {
      RestBounded(buf[n..], cap);
    }
  }

  /** Only whole frames are emitted as packets. */
  lemma {:induction false} OnlyFrames(buf: seq<byte>, cap: nat)
    ensures forall p :: p in Split(buf, cap).pieces && p.Packet? ==> IsFrame(p.data, cap)
    decreases |buf|
  {
    var n := Advance(buf, cap);
    if n > 0 {
      OnlyFrames(buf[n..], cap);
      HeadContent(buf, cap);
    }
  }

  lemma HeadContent(buf: seq<byte>, cap: nat)
    requires Advance(buf, cap) > 0
    ensures Head(buf, cap).Content() == buf[..Advance(buf, cap)]
    ensures Head(buf, cap).Packet? ==> IsFrame(Head(buf, cap).data, cap)
  {
    if Advance(buf, cap) > 1 {
      assert U32At(buf[..Advance(buf, cap)], 4) == U32At(buf, 4);
    }
  }

  /** The final clear can fire if and only if the cap is below seven bytes. */
  lemma ClearNeverFires(cap: nat)
    ensures (forall buf: seq<byte> :: |Split(buf, cap).rest| <= cap) <==> cap >= 7
  {
    if cap >= 7 {
      forall buf: seq<byte> ensures |Split(buf, cap).rest| <= cap {
        RestBounded(buf, cap);
      }
    } else {
      var buf: seq<byte> := [0, 0, 0, 0, 0, 0, 0];
      assert Split(buf, cap).rest == buf;
    }
  }

  // ---- chunking independence -------------------------------------------------

  /** Cutting a prefix first and then its rest with what follows is cutting the whole. */
  lemma {:induction false} SplitAppend(a: seq<byte>, b: seq<byte>, cap: nat)
    ensures var first := Split(a, cap);
      var second := Split(first.rest + b, cap);
      Split(a + b, cap) == Cut(first.pieces + second.pieces, second.rest)
    decreases |a|
  {
    hide Advance, Head;
    var first := Split(a, cap);
    var second := Split(first.rest + b, cap);
    var n := Advance(a, cap);
    if n == 0 {
      assert first.pieces + second.pieces == second.pieces;
    } else {
      AdvanceAppend(a, b, cap);
      assert (a + b)[n..] == a[n..] + b;
      SplitAppend(a[n..], b, cap);
      AppendAssoc([Head(a, cap)], Split(a[n..], cap).pieces, second.pieces);
    }
  }

  /** A decision taken on a prefix stands whatever follows. */
  lemma AdvanceAppend(a: seq<byte>, b: seq<byte>, cap: nat)
    requires Advance(a, cap) > 0
    ensures Advance(a + b, cap) == Advance(a, cap) && Head(a + b, cap) == Head(a, cap)
  {
    assert U32At(a + b, 4) == U32At(a, 4);
    var n := Advance(a, cap);
    assert (a + b)[..n] == a[..n];
  }

  /** Two feeds are one feed of the concatenation. */
  lemma FeedTwice(buf: seq<byte>, a: seq<byte>, b: seq<byte>, cap: nat)
    requires cap >= 7
    ensures var first := Feed(buf, a, cap);
      var second := Feed(first.buffer, b, cap);
      Feed(buf, a + b, cap) == Fed(first.packets + second.packets, second.buffer)
  {
    hide Split, Packets;
    SplitAppend(buf + a, b, cap);
    assert buf + (a + b) == (buf + a) + b;
    var c := Split(buf + a, cap);
    RestBounded(buf + a, cap);
    PacketsAppend(c.pieces, Split(c.rest + b, cap).pieces);
  }

  /** A retained buffer holds nothing that could still be cut. */
  lemma {:induction false} RestIsFinal(buf: seq<byte>, cap: nat)
    ensures Split(Split(buf, cap).rest, cap) == Cut([], Split(buf, cap).rest)
    decreases |buf|
  {
    if Advance(buf, cap) > 0 {
      RestIsFinal(buf[Advance(buf, cap)..], cap);
    }
  }

  /** Buffers a reassembler can be in: the empty one, and what a feed leaves. */
  ghost predicate Retained(buf: seq<byte>, cap: nat) {
    Feed(buf, [], cap) == Fed([], buf)
  }

  lemma FeedRetains(buf: seq<byte>, data: seq<byte>, cap: nat)
    ensures Retained([], cap) && Retained(Feed(buf, data, cap).buffer, cap)
  {
    RestIsFinal(buf + data, cap);
    var left := Feed(buf, data, cap).buffer;
    assert left + [] == left;
  }

  /** Chunking independence: any split of a stream gives the packets and the buffer of the whole. */
  lemma {:induction false} AnyChunking(buf: seq<byte>, chunks: seq<seq<byte>>, cap: nat)
    requires cap >= 7 && Retained(buf, cap)
    ensures FeedAll(buf, chunks, cap) == Feed(buf, Flatten(chunks), cap)
    decreases |chunks|
  {
    if chunks != [] {
      FeedRetains(buf, chunks[0], cap);
      AnyChunking(Feed(buf, chunks[0], cap).buffer, chunks[1..], cap);
      FeedTwice(buf, chunks[0], Flatten(chunks[1..]), cap);
    }
  }

  ghost predicate ChunkingIndependent(cap: nat) {
    forall a: seq<byte>, b: seq<byte> :: FeedAll([], [a, b], cap) == Feed([], a + b, cap)
  }

  /** Caps for which two chunks are as good as one: seven and up, and the degenerate zero. */
  lemma ChunkingExactly(cap: nat)
    ensures ChunkingIndependent(cap) <==> cap >= 7 || cap == 0
  {
    hide Feed, FeedAll;
    if cap >= 7 || cap == 0 {
      forall a: seq<byte>, b: seq<byte> ensures FeedAll([], [a, b], cap) == Feed([], a + b, cap) {
        FeedPair(a, b, cap);
        if cap >= 7 {
          FeedTwice([], a, b, cap);
        } else {
          NothingKept(a);
          NothingKept(b);
          NothingKept(a + b);
        }
      }
    } else {
      SevenThenOne(cap);
      assert !ChunkingIndependent(cap);
    }
  }

  lemma NothingKept(a: seq<byte>)
    ensures Feed([], a, 0) == Fed([], [])
  {
    assert [] + a == a;
    NothingFits(a);
  }

  /** Seven bytes are cleared when they arrive alone and kept when an eighth comes with them. */
  lemma SevenThenOne(cap: nat)
    requires 1 <= cap < 7
    ensures FeedAll([], [[0, 0, 0, 0, 0, 0, 0], [0]], cap) != Feed([], [0, 0, 0, 0, 0, 0, 0] + [0], cap)
  {
    var a: seq<byte>, b: seq<byte> := [0, 0, 0, 0, 0, 0, 0], [0];
    FeedPair(a, b, cap);
    assert [] + a == a && [] + b == b;
    WaitCase(a, cap);
    WaitCase(b, cap);
    var ab := [] + (a + b);
    assert ab[1..] == a;
    DropFirst(ab, cap);
    hide Split;
  }

  lemma FeedPair(a: seq<byte>, b: seq<byte>, cap: nat)
    ensures var first := Feed([], a, cap);
      var second := Feed(first.buffer, b, cap);
      FeedAll([], [a, b], cap) == Fed(first.packets + second.packets, second.buffer)
  {
    var left := Feed([], a, cap).buffer;
    var second := Feed(left, b, cap);
    assert [a, b][1..] == [b] && [b][1..] == [];
    assert second.packets + [] == second.packets;
    assert FeedAll(left, [b], cap) == second;
  }

  lemma {:induction false} NothingFits(buf: seq<byte>)
    ensures Feed(buf, [], 0) == Fed([], [])
    ensures Packets(Split(buf, 0).pieces) == []
    decreases |buf|
  {
    assert buf + [] == buf;
    if |buf| >= 8 {
      NothingFits(buf[1..]);
      assert buf[1..] + [] == buf[1..];
      assert Split(buf, 0).pieces[1..] == Split(buf[1..], 0).pieces;
    }
  }

  // ---- resynchronisation -----------------------------------------------------

  function Drops(g: seq<byte>): seq<Piece> {
    seq(|g|, i requires 0 <= i < |g| => Dropped(g[i]))
  }

  /** No length window that starts in the first `n` bytes is plausible. */
  ghost predicate Garbage(s: seq<byte>, n: nat, cap: nat)
    requires n + 8 <= |s|
  {
    forall i :: 0 <= i < n ==> !Plausible(s, i, cap)
  }

  /** Exactly the bytes before a frame are dropped, and that frame comes next, if and only if
      every length window that starts before the frame is implausible. */
  lemma {:induction false} Resync(g: seq<byte>, f: seq<byte>, more: seq<byte>, cap: nat)
    requires IsFrame(f, cap)
    ensures Garbage(g + f + more, |g|, cap)
       <==> Drops(g) + [Packet(f)] <= Split(g + f + more, cap).pieces
    ensures Garbage(g + f + more, |g|, cap) ==>
              Split(g + f + more, cap) == Cut(Drops(g) + [Packet(f)] + Split(more, cap).pieces, Split(more, cap).rest)
    decreases |g|
  {
    assert |f| >= 8;
    hide U32At, U16At, Split, Garbage, IsFrame;
    var s := g + f + more;
    if g == [] {
      assert s == f + more;
      FrameFirst(f, more, cap);
      assert Drops(g) + [Packet(f)] == [Packet(f)];
    } else {
      hide Plausible;
      var s' := g[1..] + f + more;
      assert s[1..] == s' && s[0] == g[0];
      Resync(g[1..], f, more, cap);
      GarbageStep(s, |g|, cap);
      DropFirst(s, cap);
      DropsFirst(g, Packet(f));
      hide Drops;
      var want := Drops(g[1..]) + [Packet(f)];
      PrefixStep(Dropped(g[0]), want, Split(s', cap).pieces);
      AppendAssoc([Dropped(g[0])], want, Split(more, cap).pieces);
    }
  }

  lemma DropsFirst(g: seq<byte>, p: Piece)
    requires g != []
    ensures Drops(g) + [p] == [Dropped(g[0])] + (Drops(g[1..]) + [p])
  {
  }

  /** A whole frame at the front is cut off first. */
  lemma FrameFirst(f: seq<byte>, more: seq<byte>, cap: nat)
    requires IsFrame(f, cap)
    ensures Split(f + more, cap) == Cut([Packet(f)] + Split(more, cap).pieces, Split(more, cap).rest)
    ensures |f + more| >= 8 && Garbage(f + more, 0, cap)
  {
    hide U32At;
    var s := f + more;
    assert s[..|f|] == f && s[|f|..] == more;
    ReadInside([], f, more, 4);
    assert [] + f + more == s;
  }

  /** The first piece of a buffer is a drop exactly when its length window is implausible. */
  lemma DropFirst(s: seq<byte>, cap: nat)
    requires |s| >= 8
    ensures if Plausible(s, 0, cap) then Split(s, cap).pieces == [] || Split(s, cap).pieces[0].Packet?
            else Split(s, cap) == Cut([Dropped(s[0])] + Split(s[1..], cap).pieces, Split(s[1..], cap).rest)
  {
  }

  lemma GarbageStep(s: seq<byte>, n: nat, cap: nat)
    requires 0 < n && n + 8 <= |s|
    ensures Garbage(s, n, cap) <==> !Plausible(s, 0, cap) && Garbage(s[1..], n - 1, cap)
  {
    var t := s[1..];
    forall i | 0 <= i < n - 1 ensures Plausible(t, i, cap) == Plausible(s, i + 1, cap) {
      assert U32At(t, i + 4) == U32At(s, i + 5);
    }
    if !Plausible(s, 0, cap) && Garbage(t, n - 1, cap) {
      forall i | 0 <= i < n ensures !Plausible(s, i, cap) {
        assert i > 0 ==> !Plausible(t, i - 1, cap);
      }
    }
  }

  lemma PrefixStep(p: Piece, want: seq<Piece>, got: seq<Piece>)
    ensures [p] + want <= [p] + got <==> want <= got
  {
    if [p] + want <= [p] + got {
      assert want == ([p] + want)[1..] && ([p] + got)[1..|want| + 1] == got[..|want|];
    }
  }
}
