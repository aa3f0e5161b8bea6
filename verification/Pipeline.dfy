/** The whole receive path: segments encoded, concatenated, cut into arbitrary chunks,
    reassembled and parsed. */
module Pipeline {
  import opened Bytes
  import opened MuxCodec
  import opened Reassembler

  function Encoded(segments: seq<Segment>): (frames: seq<seq<byte>>)
    ensures |frames| == |segments|
    ensures forall i :: 0 <= i < |frames| ==> frames[i] == BuildTcpPacket(segments[i])
  {
    seq(|segments|, i requires 0 <= i < |segments| => BuildTcpPacket(segments[i]))
  }

  function Parsed(packets: seq<seq<byte>>): (r: seq<Result<MuxPacket, MuxError>>)
    ensures |r| == |packets|
    ensures forall i :: 0 <= i < |r| ==> r[i] == ParsePacket(packets[i])
  {
    seq(|packets|, i requires 0 <= i < |packets| => ParsePacket(packets[i]))
  }

  /** What a receiver should see: the segments' own headers and payloads. */
  function Expected(segments: seq<Segment>): (r: seq<Result<MuxPacket, MuxError>>)
    ensures |r| == |segments|
    ensures forall i :: 0 <= i < |r| ==> r[i] == Ok(Tcp(segments[i].Header(), segments[i].payload))
  {
    seq(|segments|, i requires 0 <= i < |segments| => Ok(Tcp(segments[i].Header(), segments[i].payload)))
  }

  ghost predicate AllFrames(frames: seq<seq<byte>>, cap: nat) {
    forall i :: 0 <= i < |frames| ==> IsFrame(frames[i], cap)
  }

  /** A run of whole frames is cut into exactly those frames. */
  lemma {:induction false} SplitFrames(frames: seq<seq<byte>>, cap: nat)
    requires AllFrames(frames, cap)
    ensures Packets(Split(Flatten(frames), cap).pieces) == frames && Split(Flatten(frames), cap).rest == []
  {
    if frames != [] {
      hide IsFrame, Split;
      var f, more := frames[0], Flatten(frames[1..]);
      SplitFrames(frames[1..], cap);
      FrameFirst(f, more, cap);
      assert ([Packet(f)] + Split(more, cap).pieces)[1..] == Split(more, cap).pieces;
    }
  }

  lemma BuiltIsFrame(g: Segment, cap: nat)
    requires g.Size() <= cap && g.Size() < 0x1_0000_0000
    ensures IsFrame(BuildTcpPacket(g), cap)
  {
    hide U32At, U16At, TcpHeaderBytes, FrameHeader;
    FrameHeaderFields(HEADER_TCP, g.counters, TcpHeaderBytes(g) + g.payload);
  }

  ghost predicate Fit(segments: seq<Segment>, cap: nat) {
    forall i :: 0 <= i < |segments| ==> segments[i].Size() <= cap && segments[i].Size() + 8 < 0x1_0000_0000
  }

  /** The frames come back whole and in order from any chunking, with nothing left over. */
  lemma ReassembledFrames(segments: seq<Segment>, chunks: seq<seq<byte>>, cap: nat)
    requires Fit(segments, cap) && Flatten(chunks) == Flatten(Encoded(segments))
    ensures FeedAll([], chunks, cap) == Fed(Encoded(segments), [])
  {
    forall i | 0 <= i < |segments| ensures IsFrame(Encoded(segments)[i], cap) {
      BuiltIsFrame(segments[i], cap);
    }
    SplitFrames(Encoded(segments), cap);
    if segments == [] {
      EmptyChunks(chunks, cap);
    } else {
      assert segments[0].Size() <= cap;
      FeedRetains([], [], cap);
      AnyChunking([], chunks, cap);
      assert [] + Flatten(chunks) == Flatten(chunks);
    }
  }

  lemma {:induction false} EmptyChunks(chunks: seq<seq<byte>>, cap: nat)
    requires Flatten(chunks) == []
    ensures FeedAll([], chunks, cap) == Fed([], [])
    decreases |chunks|
  {
    if chunks != [] {
      assert chunks[0] == [] && Flatten(chunks[1..]) == [];
      assert Feed([], [], cap) == Fed([], []);
      EmptyChunks(chunks[1..], cap);
    }
  }

  /** The full codec pipeline and its exact condition: whatever the chunking, parsing the
      reassembled packets gives back every segment's ports, numbers, flags, window and payload
      if and only if no short-header segment has ports that spell a magic number. */
  lemma FullPipeline(segments: seq<Segment>, chunks: seq<seq<byte>>, cap: nat)
    requires Fit(segments, cap) && Flatten(chunks) == Flatten(Encoded(segments))
    ensures Parsed(FeedAll([], chunks, cap).packets) == Expected(segments)
       <==> forall i :: 0 <= i < |segments| ==> segments[i].Unambiguous()
    ensures FeedAll([], chunks, cap).buffer == []
  {
    ReassembledFrames(segments, chunks, cap);
    var got, want := Parsed(Encoded(segments)), Expected(segments);
    forall i | 0 <= i < |segments| ensures got[i] == want[i] <==> segments[i].Unambiguous() {
      SegmentRoundTrip(segments[i]);
    }
    if got == want {
      forall i | 0 <= i < |segments| ensures segments[i].Unambiguous() {
        assert got[i] == want[i];
      }
    }
  }
}
