/** WebSocket framing (sections 5.2 and 5.3 of RFC 6455): the encoder both servers use, the device's
    budgeted reader and the host's streaming reader. */
module WebSocket {
  import opened Bytes

  const CLOSE: byte := 0x8
  const PING: byte := 0x9
  const BUDGET: nat := 16

  /** Sizes that fit the signed 64-bit counts of the platform. */
  const SIZE_LIMIT: nat := 0x8000_0000_0000_0000

  // ---- encoding -------------------------------------------------------------------

  type Key = k: seq<byte> | |k| == 4 witness [0, 0, 0, 0]

  function Mask(payload: seq<byte>, key: Key): (m: seq<byte>)
    ensures |m| == |payload|
    ensures forall i :: 0 <= i < |m| ==> m[i] == Xor(payload[i], key[i % 4])
  {
    seq(|payload|, i requires 0 <= i < |payload| => Xor(payload[i], key[i % 4]))
  }

  /** Masking with a key is undone by masking with it again. */
  lemma MaskTwice(payload: seq<byte>, key: Key)
    ensures Mask(Mask(payload, key), key) == payload
  {
    var twice := Mask(Mask(payload, key), key);
    forall i | 0 <= i < |payload| ensures twice[i] == payload[i] {
      XorTwice(payload[i], key[i % 4]);
    }
  }

  /** A zero key changes nothing. */
  lemma MaskZero(payload: seq<byte>)
    ensures Mask(payload, [0, 0, 0, 0]) == payload
  {
    forall i | 0 <= i < |payload| ensures Xor(payload[i], [0, 0, 0, 0][i % 4]) == payload[i] {
      XorZero(payload[i]);
    }
  }

  /** Masked bytes differ from the payload in exactly the bits set in the key byte of their position. */
  lemma MaskBits(payload: seq<byte>, key: Key, i: nat, j: nat)
    requires i < |payload| && j < 8
    ensures Bit(Mask(payload, key)[i], j) <==> Bit(payload[i], j) != Bit(key[i % 4], j)
  {
    XorAt(payload[i], key[i % 4], j);
  }

  /** Length byte and extended length; `bit` is the mask bit of the second byte. */
  function LengthBytes(n: nat, bit: byte): (s: seq<byte>)
    requires n < SIZE_LIMIT && (bit == 0 || bit == 0x80)
    ensures |s| >= 1
  {
    if n < 126 then [bit + n]
    else if n <= 0xFFFF then [bit + 126] + BeU16(n)
    else [bit + 127] + BeU64(n)
  }

  /** What a server sends: final, unmasked. */
  function EncodeFrame(opcode: byte, payload: seq<byte>): (f: seq<byte>)
    requires |payload| < SIZE_LIMIT
    ensures |f| >= 2
  {
    [0x80 + opcode % 0x80] + LengthBytes(|payload|, 0) + payload
  }

  /** What a client sends: final and masked. */
  function ClientFrame(opcode: byte, payload: seq<byte>, key: Key): seq<byte>
    requires |payload| < SIZE_LIMIT
  {
    [0x80 + opcode % 0x80] + LengthBytes(|payload|, 0x80) + key + Mask(payload, key)
  }

  /** The frames on the wire (section 5.2 of RFC 6455): final bit and opcode, then the length in one byte
      below 126, after 126 in two, after 127 in eight, then the payload; a client's frame has the mask bit
      and its key before the masked payload. */
  lemma FrameBytes(opcode: byte, payload: seq<byte>, key: Key)
    requires |payload| < SIZE_LIMIT
    ensures var n, f, c := |payload|, EncodeFrame(opcode, payload), ClientFrame(opcode, payload, key);
      var ext := if n < 126 then 0 else if n < 0x1_0000 then 2 else 8;
      && |f| == 2 + ext + n && |c| == 6 + ext + n && f[0] == c[0] == 0x80 + opcode % 0x80
      && f[1] == (if n < 126 then n else if n < 0x1_0000 then 126 else 127) && c[1] == 0x80 + f[1]
      && (ext == 2 ==> U16At(f, 2) == n && U16At(c, 2) == n) && (ext == 8 ==> U64At(f, 2) == n && U64At(c, 2) == n)
      && f[2 + ext..] == payload
      && c[2 + ext..6 + ext] == key && c[6 + ext..] == Mask(payload, key)
  {
    hide BeU16, BeU64, U16At, U64At, Mask;
    var n, first: byte := |payload|, 0x80 + opcode % 0x80;
    if 126 <= n <= 0xFFFF {
      ReadInside([first, 126], BeU16(n), payload, 0);
      assert EncodeFrame(opcode, payload) == [first, 126] + BeU16(n) + payload;
      ReadInside([first, 254], BeU16(n), key + Mask(payload, key), 0);
      assert ClientFrame(opcode, payload, key) == [first, 254] + BeU16(n) + (key + Mask(payload, key));
    } else if n > 0xFFFF {
      ReadInside([first, 127], BeU64(n), payload, 0);
      assert EncodeFrame(opcode, payload) == [first, 127] + BeU64(n) + payload;
      ReadInside([first, 255], BeU64(n), key + Mask(payload, key), 0);
      assert ClientFrame(opcode, payload, key) == [first, 255] + BeU64(n) + (key + Mask(payload, key));
    }
  }

  // ---- parsing one frame ---------------------------------------------------------------

  /** `off` is where the payload starts. */
  datatype Header = Short | Header(first: byte, masked: bool, size: nat, off: nat)

  function HeaderOf(b: seq<byte>): Header {
    if |b| < 2 then Short
    else
      var masked, code := b[1] >= 0x80, b[1] % 0x80;
      var ext := if code == 126 then 2 else if code == 127 then 8 else 0;
      if |b| < 2 + ext then Short
      else
        var size: nat := if code == 126 then U16At(b, 2) else if code == 127 then U64At(b, 2) else code;
        var off := 2 + ext + (if masked then 4 else 0);
        if |b| < off then Short else Header(b[0], masked, size, off)
  }

  datatype Frame = Frame(first: byte, payload: seq<byte>)

  function FrameSize(b: seq<byte>): (n: nat)
    requires HeaderOf(b).Header?
    ensures n >= 2
  {
    HeaderOf(b).off + HeaderOf(b).size
  }

  predicate Complete(b: seq<byte>) {
    HeaderOf(b).Header? && |b| >= FrameSize(b)
  }

  function Parse(b: seq<byte>): Option<Frame> {
    if !Complete(b) then None
    else
      var h := HeaderOf(b);
      var body := b[h.off..h.off + h.size];
      Some(Frame(h.first, if h.masked then Mask(body, b[h.off - 4..h.off]) else body))
  }

  lemma HeaderStable(a: seq<byte>, b: seq<byte>)
    requires HeaderOf(a).Header?
    ensures HeaderOf(a + b) == HeaderOf(a)
  {
    hide U16At, U64At;
    if a[1] % 0x80 == 126 {
      ReadInside([], a, b, 2);
      assert [] + a + b == a + b;
    } else if a[1] % 0x80 == 127 {
      ReadInside([], a, b, 2);
      assert [] + a + b == a + b;
    }
  }

  /** A complete frame is parsed the same whatever follows it. */
  lemma ParseStable(a: seq<byte>, b: seq<byte>)
    requires Complete(a)
    ensures Complete(a + b) && FrameSize(a + b) == FrameSize(a) && Parse(a + b) == Parse(a)
  {
    HeaderStable(a, b);
    hide HeaderOf;
    var h := HeaderOf(a);
    assert (a + b)[h.off..h.off + h.size] == a[h.off..h.off + h.size];
    if h.masked {
      assert (a + b)[h.off - 4..h.off] == a[h.off - 4..h.off];
    }
  }

  lemma LengthRead(first: byte, n: nat, bit: byte, rest: seq<byte>)
    requires n < SIZE_LIMIT && (bit == 0 || bit == 0x80)
    requires bit == 0x80 ==> |rest| >= 4
    ensures var b := [first] + LengthBytes(n, bit) + rest;
      HeaderOf(b) == Header(first, bit == 0x80, n, 1 + |LengthBytes(n, bit)| + if bit == 0x80 then 4 else 0)
  {
    hide BeU16, BeU64, U16At, U64At;
    var b := [first] + LengthBytes(n, bit) + rest;
    if 126 <= n <= 0xFFFF {
      ReadInside([first, bit + 126], BeU16(n), rest, 0);
      assert b == [first, bit + 126] + BeU16(n) + rest;
    } else if n > 0xFFFF {
      ReadInside([first, bit + 127], BeU64(n), rest, 0);
      assert b == [first, bit + 127] + BeU64(n) + rest;
    }
  }

  /** An encoded server frame followed by anything parses to its opcode and payload and ends where
      it should. */
  lemma ServerRoundTrip(opcode: byte, payload: seq<byte>, rest: seq<byte>)
    requires |payload| < SIZE_LIMIT
    ensures var b := EncodeFrame(opcode, payload) + rest;
      Complete(b) && Parse(b) == Some(Frame(0x80 + opcode % 0x80, payload)) && b[FrameSize(b)..] == rest
  {
    var first: byte, n := 0x80 + opcode % 0x80, LengthBytes(|payload|, 0);
    var b := EncodeFrame(opcode, payload) + rest;
    LengthRead(first, |payload|, 0, payload + rest);
    assert b == [first] + n + (payload + rest);
    hide HeaderOf, LengthBytes;
    assert b[1 + |n|..1 + |n| + |payload|] == payload;
  }

  /** A masked client frame is read back whatever its key. */
  lemma ClientRoundTrip(opcode: byte, payload: seq<byte>, key: Key, rest: seq<byte>)
    requires |payload| < SIZE_LIMIT
    ensures var b := ClientFrame(opcode, payload, key) + rest;
      Complete(b) && Parse(b) == Some(Frame(0x80 + opcode % 0x80, payload)) && b[FrameSize(b)..] == rest
  {
    var first: byte, n, body := 0x80 + opcode % 0x80, LengthBytes(|payload|, 0x80), Mask(payload, key);
    var b := ClientFrame(opcode, payload, key) + rest;
    LengthRead(first, |payload|, 0x80, key + body + rest);
    assert b == [first] + n + (key + body + rest);
    hide HeaderOf, LengthBytes;
    MaskTwice(payload, key);
    assert b[1 + |n|..5 + |n|] == key;
    assert b[5 + |n|..5 + |n| + |payload|] == body;
  }

  // ---- decoding a stream ------------------------------------------------------------------

  datatype Decoded = Decoded(frames: seq<Frame>, rest: seq<byte>)

  /** All complete frames at the front of a buffer. */
  function Decode(b: seq<byte>): Decoded
    decreases |b|
  {
    if !Complete(b) then Decoded([], b)
    else
      var d := Decode(b[FrameSize(b)..]);
      Decoded([Parse(b).value] + d.frames, d.rest)
  }

  lemma {:induction false} DecodeAppend(a: seq<byte>, b: seq<byte>)
    ensures var d, e := Decode(a), Decode(Decode(a).rest + b);
      Decode(a + b) == Decoded(d.frames + e.frames, e.rest)
    decreases |a|
  {
    if Complete(a) {
      ParseStable(a, b);
      hide HeaderOf, Parse;
      var n := FrameSize(a);
      assert (a + b)[n..] == a[n..] + b;
      DecodeAppend(a[n..], b);
      AppendAssoc([Parse(a).value], Decode(a[n..]).frames, Decode(Decode(a[n..]).rest + b).frames);
    } else {
      assert [] + Decode(a + b).frames == Decode(a + b).frames;
    }
  }

  lemma {:induction false} RestIncomplete(b: seq<byte>)
    ensures !Complete(Decode(b).rest) && Decode(Decode(b).rest) == Decoded([], Decode(b).rest)
    decreases |b|
  {
    if Complete(b) {
      RestIncomplete(b[FrameSize(b)..]);
    }
  }

  function Stream(frames: seq<(byte, seq<byte>)>): seq<byte>
    requires forall i :: 0 <= i < |frames| ==> |frames[i].1| < SIZE_LIMIT
  {
    if frames == [] then [] else EncodeFrame(frames[0].0, frames[0].1) + Stream(frames[1..])
  }

  function Sent(frames: seq<(byte, seq<byte>)>): (s: seq<Frame>)
    ensures |s| == |frames|
    ensures forall i :: 0 <= i < |s| ==> s[i] == Frame(0x80 + frames[i].0 % 0x80, frames[i].1)
  {
    seq(|frames|, i requires 0 <= i < |frames| => Frame(0x80 + frames[i].0 % 0x80, frames[i].1))
  }

  /** Encoded frames one after another decode to exactly those frames. */
  lemma {:induction false} DecodeEncoded(frames: seq<(byte, seq<byte>)>, rest: seq<byte>)
    requires forall i :: 0 <= i < |frames| ==> |frames[i].1| < SIZE_LIMIT
    ensures var d := Decode(Stream(frames) + rest);
      d.frames == Sent(frames) + Decode(rest).frames && d.rest == Decode(rest).rest
  {
    hide HeaderOf, Parse, Complete, EncodeFrame, FrameSize, Decode;
    if frames == [] {
      assert [] + rest == rest && [] + Decode(rest).frames == Decode(rest).frames;
    } else {
      var f, more := EncodeFrame(frames[0].0, frames[0].1), Stream(frames[1..]) + rest;
      var first := Frame(0x80 + frames[0].0 % 0x80, frames[0].1);
      DecodeEncoded(frames[1..], rest);
      ServerRoundTrip(frames[0].0, frames[0].1, more);
      DecodeFirst(f + more);
      assert Stream(frames) + rest == f + more;
      assert Sent(frames) == [first] + Sent(frames[1..]);
      AppendAssoc([first], Sent(frames[1..]), Decode(rest).frames);
    }
  }

  lemma DecodeFirst(b: seq<byte>)
    requires Complete(b)
    ensures var d := Decode(b[FrameSize(b)..]);
      Decode(b) == Decoded([Parse(b).value] + d.frames, d.rest)
  {
  }

  // ---- the device's reader: at most 16 frames a call ------------------------------------------

  datatype Reaction = CloseReply | Pong(payload: seq<byte>) | Message(isText: bool, payload: seq<byte>)

  function React(f: Frame): Reaction
  {
    var op := f.first % 0x10;
    if op == CLOSE then CloseReply else if op == PING then Pong(f.payload) else Message(op == 0x1, f.payload)
  }

  /** What a client's frame at the front of the buffer leads to: a close is answered with a close, a ping
      with a pong of the same payload, and anything else is delivered, as text for opcode one. */
  lemma FrontReaction(opcode: byte, payload: seq<byte>, key: Key, rest: seq<byte>)
    requires |payload| < SIZE_LIMIT && opcode < 0x10
    ensures var frames := Decode(ClientFrame(opcode, payload, key) + rest).frames;
      && |frames| > 0 && frames[1..] == Decode(rest).frames
      && React(frames[0]) == if opcode == 8 then CloseReply else if opcode == 9 then Pong(payload)
                             else Message(opcode == 1, payload)
  {
    ClientRoundTrip(opcode, payload, key, rest);
    hide ClientFrame, HeaderOf, Parse, Complete, FrameSize, Decode;
    DecodeFirst(ClientFrame(opcode, payload, key) + rest);
  }

  /** How many of these frames one call handles. */
  function Handled(frames: seq<Frame>, budget: nat): (n: nat)
    ensures n <= |frames| && n <= budget
  {
    if frames == [] || budget == 0 then 0
    else if frames[0].first % 0x10 == CLOSE then 1
    else 1 + Handled(frames[1..], budget - 1)
  }

  /** Frames are handled in order, up to the budget, and nothing is handled after a close. */
  lemma {:induction false} HandledMeans(frames: seq<Frame>, budget: nat)
    ensures var n := Handled(frames, budget);
      && (forall i :: 0 <= i < n - 1 ==> frames[i].first % 0x10 != CLOSE)
      && (n == budget || n == |frames| || (n > 0 && frames[n - 1].first % 0x10 == CLOSE))
  {
    if frames != [] && budget > 0 && frames[0].first % 0x10 != CLOSE {
      HandledMeans(frames[1..], budget - 1);
      assert forall i :: 0 < i < |frames| ==> frames[i] == frames[1..][i - 1];
    }
  }

  /** A declared length that does not fit the platform's counts stops the program. */
  predicate Traps(b: seq<byte>) {
    HeaderOf(b).Header? && FrameSize(b) >= SIZE_LIMIT
  }

  lemma HandledStep(frames: seq<Frame>, budget: nat)
    ensures Handled(frames, budget) ==
            if frames == [] || budget == 0 then 0
            else if frames[0].first % 0x10 == CLOSE then 1 else 1 + Handled(frames[1..], budget - 1)
  {
  }

  lemma NoFrame(b: seq<byte>)
    ensures Parse(b).None? ==> Decode(b) == Decoded([], b)
  {
  }

  lemma ParsedFront(b: seq<byte>)
    ensures Parse(b).Some? ==>
      HeaderOf(b).Header? && FrameSize(b) <= |b|
      && Decode(b) == Decoded([Parse(b).value] + Decode(b[FrameSize(b)..]).frames, Decode(b[FrameSize(b)..]).rest)
  {
  }

  /** The value a big-endian accumulation loop computes. */
  function BigEndian(s: seq<byte>): nat {
    if s == [] then 0 else BigEndian(s[..|s| - 1]) * 0x100 + s[|s| - 1]
  }

  lemma BigEndian16(s: seq<byte>, i: nat)
    requires i + 2 <= |s|
    ensures BigEndian(s[i..i + 2]) == U16At(s, i)
  {
    OneByte(s[i]);
    assert s[i..i + 2][..1] == [s[i]];
  }

  lemma {:induction false} BigEndianAppend(a: seq<byte>, b: seq<byte>)
    requires |b| == 2
    ensures BigEndian(a + b) == BigEndian(a) * 0x1_0000 + BigEndian(b)
  {
    OneByte(b[0]);
    assert b[..1] == [b[0]];
    assert (a + b)[..|a| + 1] == a + [b[0]] && (a + [b[0]])[..|a|] == a;
    assert BigEndian(a + [b[0]]) == BigEndian(a) * 0x100 + b[0];
  }

  lemma OneByte(x: byte)
    ensures BigEndian([x]) == x
  {
    assert [x][..0] == [];
  }

  lemma BigEndian64(s: seq<byte>, i: nat)
    requires i + 8 <= |s|
    ensures BigEndian(s[i..i + 8]) == U64At(s, i)
  {
    hide U16At, BigEndian;
    BigEndian16(s, i);
    BigEndian16(s, i + 2);
    BigEndian16(s, i + 4);
    BigEndian16(s, i + 6);
    assert s[i..i + 4] == s[i..i + 2] + s[i + 2..i + 4];
    assert s[i..i + 6] == s[i..i + 4] + s[i + 4..i + 6];
    assert s[i..i + 8] == s[i..i + 6] + s[i + 6..i + 8];
    BigEndianAppend(s[i..i + 2], s[i + 2..i + 4]);
    BigEndianAppend(s[i..i + 4], s[i + 4..i + 6]);
    BigEndianAppend(s[i..i + 6], s[i + 6..i + 8]);
  }

  /** The loop over the eight bytes of a long length. */
  method LongLength(b: seq<byte>) returns (size: nat)
    requires |b| >= 10
    ensures size == U64At(b, 2)
  {
    hide U64At;
    size := 0;
    for i := 2 to 10
      invariant size == BigEndian(b[2..i])
    {
      assert b[2..i + 1][..i - 2] == b[2..i];
      size := size * 0x100 + b[i];
    }
    BigEndian64(b, 2);
  }

  /** The unmasking loop. */
  method Unmask(masked: seq<byte>, key: Key) returns (payload: seq<byte>)
    ensures payload == Mask(masked, key)
  {
    payload := masked;
    for i := 0 to |masked|
      invariant |payload| == |masked|
      invariant forall j :: 0 <= j < |masked| ==> payload[j] == if j < i then Xor(masked[j], key[j % 4]) else masked[j]
    {
      payload := payload[i := Xor(payload[i], key[i % 4])];
    }
  }

  class Receiver {
    var buffer: seq<byte>

    constructor (initial: seq<byte>)
      ensures buffer == initial
    {
      buffer := initial;
    }

    /** Take one frame from the buffer, if it holds a whole one. */
    method ParseFrame() returns (f: Option<Frame>, trapped: bool)
      modifies this`buffer
      ensures trapped <==> Traps(old(buffer))
      ensures trapped ==> f == None
      ensures !trapped ==> f == Parse(old(buffer))
      ensures buffer == if f.Some? then old(buffer)[FrameSize(old(buffer))..] else old(buffer)
    {
      hide U16At, U32At, U64At;
      f, trapped := None, false;
      var b := buffer;
      if |b| < 2 {
        return;
      }
      var masked := b[1] >= 0x80;
      var size: nat, off := b[1] % 0x80, 2;
      if size == 126 {
        if |b| < 4 {
          return;
        }
        size, off := U16At(b, 2), 4;
      } else if size == 127 {
        if |b| < 10 {
          return;
        }
        size := LongLength(b);
        off := 10;
      }
      var key: Key := [0, 0, 0, 0];
      if masked {
        if |b| < off + 4 {
          return;
        }
        key, off := b[off..off + 4], off + 4;
      }
      assert HeaderOf(b) == Header(b[0], masked, size, off);
      if off + size >= SIZE_LIMIT {
        trapped := true;
        return;
      }
      if |b| < off + size {
        return;
      }
      hide HeaderOf;
      var payload := b[off..off + size];
      if masked {
        payload := Unmask(payload, key);
      }
      buffer := b[off + size..];
      f := Some(Frame(b[0], payload));
    }

    /** One `processFrames` call: the first frames are handled in order, up to sixteen or a close
        frame, and the buffer is left decoding to exactly the others. */
    method ProcessFrames() returns (reactions: seq<Reaction>, trapped: bool)
      modifies this`buffer
      ensures |reactions| <= |old(Decode(buffer)).frames|
      ensures forall i :: 0 <= i < |reactions| ==> reactions[i] == React(old(Decode(buffer)).frames[i])
      ensures Decode(buffer) == Decoded(old(Decode(buffer)).frames[|reactions|..], old(Decode(buffer)).rest)
      ensures !trapped ==> |reactions| == Handled(old(Decode(buffer)).frames, 16)
      ensures trapped ==> Traps(buffer) && |reactions| < BUDGET
    {
      hide Complete, Parse, FrameSize, Traps, HeaderOf, Decode, Handled, React;
      ghost var all := Decode(buffer);
      reactions, trapped := [], false;
      var budget := BUDGET;
      assert all.frames[0..] == all.frames;
      while budget > 0
        invariant !trapped && 0 <= budget <= BUDGET && |reactions| + budget == BUDGET && |reactions| <= |all.frames|
        invariant forall i :: 0 <= i < |reactions| ==> reactions[i] == React(all.frames[i])
        invariant Decode(buffer) == Decoded(all.frames[|reactions|..], all.rest)
        invariant Handled(all.frames, BUDGET) == |reactions| + Handled(all.frames[|reactions|..], budget)
      {
        ghost var ahead := all.frames[|reactions|..];
        HandledStep(ahead, budget);
        ghost var was := buffer;
        var f;
        f, trapped := ParseFrame();
        if f.None? {
          NoFrame(was);
          break;
        }
        ParsedFront(was);
        budget := budget - 1;
        assert f.value == ahead[0] == all.frames[|reactions|];
        assert ahead[1..] == all.frames[|reactions| + 1..];
        reactions := reactions + [React(f.value)];
        if f.value.first % 0x10 == CLOSE {
          return;
        }
      }
      HandledStep(all.frames[|reactions|..], budget);
    }
  }

  // ---- the host's reader -------------------------------------------------------------------------

  datatype Event = Closed | Answered(payload: seq<byte>) | Received(op: byte, payload: seq<byte>)

  function EventOf(f: Frame): Event
  {
    var op := f.first % 0x80;
    if op == CLOSE then Closed else if op == PING then Answered(f.payload) else Received(op, f.payload)
  }

  /** Events of a list of frames, ending with the first close. */
  function Events(frames: seq<Frame>): seq<Event>
  {
    if frames == [] then []
    else if frames[0].first % 0x80 == CLOSE then [Closed]
    else [EventOf(frames[0])] + Events(frames[1..])
  }

  /** What a client's frame means to the host: the same, with the opcode passed on. */
  lemma FrontEvent(opcode: byte, payload: seq<byte>, key: Key, rest: seq<byte>)
    requires |payload| < SIZE_LIMIT && opcode < 0x80
    ensures var frames := Decode(ClientFrame(opcode, payload, key) + rest).frames;
      && |frames| > 0 && frames[1..] == Decode(rest).frames
      && EventOf(frames[0]) == if opcode == 8 then Closed else if opcode == 9 then Answered(payload)
                               else Received(opcode, payload)
  {
    ClientRoundTrip(opcode, payload, key, rest);
    hide ClientFrame, HeaderOf, Parse, Complete, FrameSize, Decode;
    DecodeFirst(ClientFrame(opcode, payload, key) + rest);
  }

  /** Every frame up to the first close has its event, in order, and nothing comes after the close. */
  lemma {:induction false} EventsMean(frames: seq<Frame>)
    ensures var events := Events(frames);
      && |events| <= |frames|
      && (forall i :: 0 <= i < |events| ==> events[i] == EventOf(frames[i]))
      && (forall i :: 0 <= i < |events| - 1 ==> events[i] != Closed)
      && (|events| < |frames| ==> |events| > 0 && events[|events| - 1] == Closed)
  {
    if frames != [] && frames[0].first % 0x80 != CLOSE {
      EventsMean(frames[1..]);
      var later := Events(frames[1..]);
      assert Events(frames) == [EventOf(frames[0])] + later;
      assert forall i :: 0 < i < |frames| ==> frames[i] == frames[1..][i - 1];
    }
  }

  predicate Ended(frames: seq<Frame>)
  {
    frames != [] && (frames[0].first % 0x80 == CLOSE || Ended(frames[1..]))
  }

  lemma {:induction false} EventsAppend(a: seq<Frame>, b: seq<Frame>)
    ensures Events(a + b) == if Ended(a) then Events(a) else Events(a) + Events(b)
    ensures Ended(a + b) <==> Ended(a) || Ended(b)
  {
    if a == [] {
      assert a + b == b;
    } else {
      assert (a + b)[0] == a[0] && (a + b)[1..] == a[1..] + b;
      EventsAppend(a[1..], b);
    }
  }

  /** The bytes received before the end of the stream, which an empty read signals. */
  function UntilEmpty(chunks: seq<seq<byte>>): seq<byte> {
    if chunks == [] || chunks[0] == [] then [] else chunks[0] + UntilEmpty(chunks[1..])
  }

  /** Everything up to the first empty read, and nothing after it. */
  lemma {:induction false} UntilEmptyMeans(chunks: seq<seq<byte>>, later: seq<seq<byte>>)
    requires forall i :: 0 <= i < |chunks| ==> chunks[i] != []
    ensures UntilEmpty(chunks) == Flatten(chunks) && UntilEmpty(chunks + [[]] + later) == Flatten(chunks)
  {
    var all := chunks + [[]] + later;
    if chunks == [] {
      assert all[0] == [];
    } else {
      UntilEmptyMeans(chunks[1..], later);
      assert all[0] == chunks[0] && all[1..] == chunks[1..] + [[]] + later;
    }
  }

  lemma {:induction false} UntilEmptySnoc(chunks: seq<seq<byte>>, i: nat)
    requires i < |chunks| && forall j :: 0 <= j <= i ==> chunks[j] != []
    ensures UntilEmpty(chunks[..i + 1]) == UntilEmpty(chunks[..i]) + chunks[i]
  {
    if i > 0 {
      UntilEmptySnoc(chunks[1..], i - 1);
      assert chunks[1..][..i] == chunks[..i + 1][1..] && chunks[1..][..i - 1] == chunks[..i][1..];
      AppendAssoc(chunks[0], UntilEmpty(chunks[..i][1..]), chunks[i]);
    } else {
      assert chunks[..1] == [chunks[0]] && chunks[..1][1..] == [];
    }
  }

  lemma {:induction false} UntilEmptyWhole(chunks: seq<seq<byte>>, i: nat)
    requires i <= |chunks| && (forall j :: 0 <= j < i ==> chunks[j] != [])
    ensures i == |chunks| || chunks[i] == [] ==> UntilEmpty(chunks) == UntilEmpty(chunks[..i])
    ensures UntilEmpty(chunks[..i]) <= UntilEmpty(chunks)
  {
    if i > 0 {
      UntilEmptyWhole(chunks[1..], i - 1);
      assert chunks[1..][..i - 1] == chunks[..i][1..];
    }
  }

  lemma OneEvent(f: Frame)
    ensures Events([f]) == [EventOf(f)] && (Ended([f]) <==> f.first % 0x80 == CLOSE)
  {
    assert [f][1..] == [];
  }

  /** The inner loop: every complete frame in the buffer, until a close. */
  method DrainBuffer(buffer: seq<byte>) returns (rest: seq<byte>, events: seq<Event>, closed: bool)
    ensures events == Events(Decode(buffer).frames)
    ensures closed <==> Ended(Decode(buffer).frames)
    ensures !closed ==> rest == Decode(buffer).rest
  {
    hide Complete, Parse, FrameSize;
    rest, events, closed := buffer, [], false;
    ghost var all := Decode(buffer).frames;
    ghost var done: seq<Frame> := [];
    assert all == done + all;
    while true
      invariant all == done + Decode(rest).frames && Decode(rest).rest == Decode(buffer).rest
      invariant events == Events(done) && !Ended(done)
      decreases |rest|
    {
      NoFrame(rest);
      ParsedFront(rest);
      var f := Parse(rest);
      if f.None? {
        assert done + [] == done;
        return;
      }
      ghost var ahead := Decode(rest).frames;
      rest := rest[FrameSize(rest)..];
      AppendAssoc(done, [f.value], Decode(rest).frames);
      EventsAppend(done, [f.value]);
      EventsAppend(done + [f.value], Decode(rest).frames);
      OneEvent(f.value);
      done := done + [f.value];
      if f.value.first % 0x80 == CLOSE {
        events, closed := events + [Closed], true;
        return;
      }
      events := events + [EventOf(f.value)];
    }
  }

  lemma NothingReceived(chunks: seq<seq<byte>>)
    ensures UntilEmpty(chunks[..0]) == [] && Decode([]) == Decoded([], []) && Events([]) == []
  {
  }

  /** The host's nested read loop: its events are those of the concatenation of what was received,
      however the reads cut it; a close frame ends it. */
  method ReadFrames(chunks: seq<seq<byte>>) returns (events: seq<Event>)
    ensures events == Events(Decode(UntilEmpty(chunks)).frames)
  {
    hide Complete, Parse, FrameSize, Decode, Events, UntilEmpty;
    events := [];
    var buf: seq<byte> := [];
    var i := 0;
    NothingReceived(chunks);
    while i < |chunks| && chunks[i] != []
      invariant 0 <= i <= |chunks| && forall j :: 0 <= j < i ==> chunks[j] != []
      invariant Decode(UntilEmpty(chunks[..i])).rest == buf
      invariant events == Events(Decode(UntilEmpty(chunks[..i])).frames)
      invariant !Ended(Decode(UntilEmpty(chunks[..i])).frames)
    {
      ghost var sofar := UntilEmpty(chunks[..i]);
      UntilEmptySnoc(chunks, i);
      UntilEmptyWhole(chunks, i + 1);
      DecodeAppend(sofar, chunks[i]);
      buf := buf + chunks[i];
      EventsAppend(Decode(sofar).frames, Decode(buf).frames);
      var more, closed;
      buf, more, closed := DrainBuffer(buf);
      events := events + more;
      if closed {
        var whole := UntilEmpty(chunks);
        var part := UntilEmpty(chunks[..i + 1]);
        assert part + whole[|part|..] == whole;
        DecodeAppend(part, whole[|part|..]);
        EventsAppend(Decode(part).frames, Decode(Decode(part).rest + whole[|part|..]).frames);
        return;
      }
      i := i + 1;
    }
    UntilEmptyWhole(chunks, i);
  }
}
