/** The one-sample movie fragment: box layout and the patched data offset (sections 8.8.4 to 8.8.8
    and 8.8.12 of ISO/IEC 14496-12). */
module Fragment {
  import opened Bytes

  type Kind = k: seq<byte> | |k| == 4 witness [0, 0, 0, 0]

  const MOOF: Kind := [0x6D, 0x6F, 0x6F, 0x66]
  const MFHD: Kind := [0x6D, 0x66, 0x68, 0x64]
  const TRAF: Kind := [0x74, 0x72, 0x61, 0x66]
  const TFHD: Kind := [0x74, 0x66, 0x68, 0x64]
  const TFDT: Kind := [0x74, 0x66, 0x64, 0x74]
  const TRUN: Kind := [0x74, 0x72, 0x75, 0x6E]
  const MDAT: Kind := [0x6D, 0x64, 0x61, 0x74]

  const PLACEHOLDER: u32 := 0xDEAD_BEEF
  const MARK: seq<byte> := [0xDE, 0xAD, 0xBE, 0xEF]

  // ---- building ------------------------------------------------------------------------

  /** A size that does not fit 32 bits stops the original. */
  function MakeBox(kind: Kind, body: seq<byte>): (b: seq<byte>)
    requires |body| + 8 < 0x1_0000_0000
    ensures |b| == |body| + 8
  {
    BeU32(|body| + 8) + kind + body
  }

  function FullBox(kind: Kind, version: byte, flags: u32, body: seq<byte>): (b: seq<byte>)
    requires |body| + 12 < 0x1_0000_0000
    ensures |b| == |body| + 12
  {
    MakeBox(kind, [version, flags / 0x1_0000 % 0x100, flags / 0x100 % 0x100, flags % 0x100] + body)
  }

  /** The arguments that end up in the movie fragment header. */
  datatype Sample = Sample(number: u32, time: u64, duration: u32, size: u32, isSync: bool)

  function SampleFlags(isSync: bool): u32 { if isSync then 0x0200_0000 else 0x0101_0000 }

  function Mfhd(s: Sample): (b: seq<byte>) ensures |b| == 16 { FullBox(MFHD, 0, 0, BeU32(s.number)) }
  function Tfhd(): (b: seq<byte>) ensures |b| == 16 { FullBox(TFHD, 0, 0x02_0000, BeU32(1)) }
  function Tfdt(s: Sample): (b: seq<byte>) ensures |b| == 20 { FullBox(TFDT, 1, 0, BeU64(s.time)) }

  function TrunBody(s: Sample, offset: u32): (b: seq<byte>)
    ensures |b| == 20
  {
    BeU32(1) + BeU32(offset) + BeU32(s.duration) + BeU32(s.size) + BeU32(SampleFlags(s.isSync))
  }

  function Trun(s: Sample, offset: u32): (b: seq<byte>)
    ensures |b| == 32
  {
    FullBox(TRUN, 0, 0x00_0701, TrunBody(s, offset))
  }

  function Traf(s: Sample, offset: u32): (b: seq<byte>)
    ensures |b| == 76
  {
    MakeBox(TRAF, Tfhd() + Tfdt(s) + Trun(s, offset))
  }

  /** The whole moof box, with a given data offset. */
  function Moof(s: Sample, offset: u32): (b: seq<byte>) ensures |b| == 100 { MakeBox(MOOF, Mfhd(s) + Traf(s, offset)) }

  predicate MarkAt(b: seq<byte>, i: nat) {
    i + 4 <= |b| && b[i..i + 4] == MARK
  }

  /** Index of the first occurrence of the placeholder at or after `from`. */
  function FirstMark(b: seq<byte>, from: nat): (r: Option<nat>)
    ensures r.Some? ==> from <= r.value && MarkAt(b, r.value) && forall i :: from <= i < r.value ==> !MarkAt(b, i)
    ensures r.None? ==> forall i :: from <= i ==> !MarkAt(b, i)
    decreases |b| - from
  {
    if from + 4 > |b| then None
    else if MarkAt(b, from) then Some(from)
    else FirstMark(b, from + 1)
  }

  function Overwrite(b: seq<byte>, i: nat, four: seq<byte>): (r: seq<byte>)
    requires |four| == 4 && i + 4 <= |b|
    ensures |r| == |b|
  {
    b[..i] + four + b[i + 4..]
  }

  /** The patch writes the size of moof plus the mdat header over the first placeholder found. */
  function Patched(moof: seq<byte>): (r: seq<byte>)
    requires |moof| + 8 < 0x1_0000_0000
    ensures |r| == |moof|
  {
    var found := FirstMark(moof, 0);
    if found.None? then moof else Overwrite(moof, found.value, BeU32(|moof| + 8))
  }

  function BuildFragment(s: Sample, payload: seq<byte>): (f: seq<byte>)
    requires |payload| + 8 < 0x1_0000_0000
    ensures |f| == 108 + |payload|
  {
    Patched(Moof(s, PLACEHOLDER)) + MakeBox(MDAT, payload)
  }

  // ---- where a stray placeholder can be ---------------------------------------------------

  /** The sample's own numbers hold the placeholder bytes. */
  ghost predicate Collides(s: Sample) {
    s.number == PLACEHOLDER || exists k :: 0 <= k <= 4 && MarkAt(BeU64(s.time), k)
  }

  /** Layout of the first 88 bytes: fixed bytes below 0x80 around the number, the decode time and the
      data offset. */
  lemma Layout(s: Sample, offset: u32)
    ensures var m := Moof(s, offset);
      && m[20..24] == BeU32(s.number) && m[60..68] == BeU64(s.time) && m[84..88] == BeU32(offset)
      && (forall i :: 0 <= i < 84 && !(20 <= i < 24) && !(60 <= i < 68) ==> m[i] < 0x80)
  {
    var m := Moof(s, offset);
    FixedWords();
    MoofParts(s, offset);
    hide Moof, Traf, BeU32, BeU64, FullBox;
    var mfhd, tfhd, tfdt, trun := Mfhd(s), Tfhd(), Tfdt(s), Trun(s, offset);
    FullBoxParts(MFHD, 0, 0, BeU32(s.number));
    FullBoxParts(TFHD, 0, 0x02_0000, BeU32(1));
    FullBoxParts(TFDT, 1, 0, BeU64(s.time));
    FullBoxParts(TRUN, 0, 0x00_0701, TrunBody(s, offset));
    assert m[20..24] == mfhd[12..16];
    assert m[60..68] == tfdt[12..20];
    assert TrunBody(s, offset)[4..8] == BeU32(offset) && TrunBody(s, offset)[0..4] == BeU32(1);
    assert trun[16..20] == TrunBody(s, offset)[4..8] && trun[12..16] == TrunBody(s, offset)[0..4];
    assert m[84..88] == trun[16..20];
    forall i | 0 <= i < 84 && !(20 <= i < 24) && !(60 <= i < 68) ensures m[i] < 0x80 {
      if 8 <= i < 20 {
        assert m[i] == m[8..24][i - 8] == mfhd[..12][i - 8];
      } else if 32 <= i < 44 {
        assert m[i] == m[32..48][i - 32] == tfhd[..12][i - 32];
      } else if 44 <= i < 48 {
        assert m[i] == m[32..48][i - 32] == tfhd[12..][i - 44];
      } else if 48 <= i < 60 {
        assert m[i] == m[48..68][i - 48] == tfdt[..12][i - 48];
      } else if 68 <= i < 80 {
        assert m[i] == m[68..100][i - 68] == trun[..12][i - 68];
      } else if 80 <= i {
        assert m[i] == m[68..100][i - 68] == trun[12..16][i - 80];
      } else {
        assert m[i] == if i < 8 then m[..8][i] else m[24..32][i - 24];
      }
    }
  }

  lemma MoofParts(s: Sample, offset: u32)
    ensures var m := Moof(s, offset);
      && m[..8] == BeU32(100) + MOOF && m[8..24] == Mfhd(s) && m[24..32] == BeU32(76) + TRAF
      && m[32..48] == Tfhd() && m[48..68] == Tfdt(s) && m[68..100] == Trun(s, offset)
  {
    hide BeU32, Mfhd, Tfhd, Tfdt, Trun;
    var m, traf := Moof(s, offset), Traf(s, offset);
    assert m[24..100] == traf;
    assert traf[..8] == BeU32(76) + TRAF && traf[8..24] == Tfhd() && traf[24..44] == Tfdt(s)
        && traf[44..76] == Trun(s, offset);
    assert m[24..32] == traf[..8] && m[32..48] == traf[8..24] && m[48..68] == traf[24..44]
        && m[68..100] == traf[44..76];
  }

  lemma FullBoxParts(kind: Kind, version: byte, flags: u32, body: seq<byte>)
    requires |body| + 12 < 0x1_0000_0000
    ensures var b := FullBox(kind, version, flags, body);
      && b[..12] == BeU32(|body| + 12) + kind + [version, flags / 0x1_0000 % 0x100, flags / 0x100 % 0x100,
           flags % 0x100]
      && b[12..] == body
  {
    hide BeU32;
  }

  lemma FixedWords()
    ensures BeU32(1) == [0, 0, 0, 1] && BeU32(16) == [0, 0, 0, 16] && BeU32(20) == [0, 0, 0, 20]
    ensures BeU32(32) == [0, 0, 0, 32] && BeU32(76) == [0, 0, 0, 76] && BeU32(100) == [0, 0, 0, 100]
  {
  }

  lemma MarkBytes(b: seq<byte>, i: nat)
    requires MarkAt(b, i)
    ensures b[i] >= 0x80 && b[i + 1] >= 0x80 && b[i + 2] >= 0x80 && b[i + 3] >= 0x80
  {
    assert b[i..i + 4][0] == 0xDE && b[i..i + 4][1] == 0xAD && b[i..i + 4][2] == 0xBE && b[i..i + 4][3] == 0xEF;
  }

  lemma PlaceholderBytes(v: u32)
    ensures BeU32(v) == MARK <==> v == PLACEHOLDER
  {
    assert U32At(MARK, 0) == PLACEHOLDER;
    assert U32At(BeU32(v), 0) == v;
    if v == PLACEHOLDER {
      assert BeU16(0xDEAD) == [0xDE, 0xAD] && BeU16(0xBEEF) == [0xBE, 0xEF];
    }
  }

  /** A mark before the data offset lies in the number or in the decode time. */
  lemma EarlyMark(s: Sample, i: nat)
    requires i < 84 && MarkAt(Moof(s, PLACEHOLDER), i)
    ensures Collides(s) && (i == 20 || 60 <= i <= 64)
  {
    var m := Moof(s, PLACEHOLDER);
    Layout(s, PLACEHOLDER);
    PlaceholderBytes(s.number);
    hide Moof, BeU32, BeU64;
    OnlyInNumbers(m, i);
    if i != 20 {
      assert m[60..68][i - 60..i - 60 + 4] == m[i..i + 4];
      assert MarkAt(BeU64(s.time), i - 60);
    }
  }

  /** The mark has no byte below 0x80, so only the two free fields can hold it. */
  lemma OnlyInNumbers(m: seq<byte>, i: nat)
    requires |m| == 100 && i < 84 && MarkAt(m, i)
    requires forall j :: 0 <= j < 84 && !(20 <= j < 24) && !(60 <= j < 68) ==> m[j] < 0x80
    ensures i == 20 || 60 <= i <= 64
  {
    MarkBytes(m, i);
  }

  /** The patch finds the data offset if and only if the sample's numbers do not hold the mark. */
  lemma FirstMarkIsOffset(s: Sample)
    ensures FirstMark(Moof(s, PLACEHOLDER), 0).Some?
    ensures FirstMark(Moof(s, PLACEHOLDER), 0) == Some(84) <==> !Collides(s)
    ensures Collides(s) ==> FirstMark(Moof(s, PLACEHOLDER), 0).value <= 64
  {
    var m := Moof(s, PLACEHOLDER);
    Layout(s, PLACEHOLDER);
    PlaceholderBytes(PLACEHOLDER);
    PlaceholderBytes(s.number);
    hide Moof, BeU32, BeU64, FirstMark;
    assert MarkAt(m, 84);
    if s.number == PLACEHOLDER {
      assert MarkAt(m, 20);
    } else if Collides(s) {
      var k :| 0 <= k <= 4 && MarkAt(BeU64(s.time), k);
      assert m[60..68][k..k + 4] == m[60 + k..60 + k + 4];
      assert MarkAt(m, 60 + k);
    } else {
      var first := FirstMark(m, 0).value;
      if first < 84 {
        EarlyMark(s, first);
      }
    }
  }

  // ---- what a reader of the fragment finds ---------------------------------------------------

  datatype Box = Box(kind: seq<byte>, body: seq<byte>)

  /** A box reader that knows nothing of the builder: sizes must tile the data exactly. */
  function Boxes(data: seq<byte>): Option<seq<Box>>
    decreases |data|
  {
    if data == [] then Some([])
    else if |data| < 8 || U32At(data, 0) < 8 || U32At(data, 0) > |data| then None
    else
      var n := U32At(data, 0);
      var more := Boxes(data[n..]);
      if more.None? then None else Some([Box(data[4..8], data[8..n])] + more.value)
  }

  lemma OneBox(kind: Kind, body: seq<byte>, more: seq<byte>)
    requires |body| + 8 < 0x1_0000_0000
    ensures Boxes(MakeBox(kind, body) + more)
         == if Boxes(more).None? then None else Some([Box(kind, body)] + Boxes(more).value)
  {
    hide BeU32, U32At;
    var b := MakeBox(kind, body);
    var data := b + more;
    ReadInside([], BeU32(|body| + 8), kind + body + more, 0);
    assert data == [] + BeU32(|body| + 8) + (kind + body + more);
    assert data[4..8] == kind && data[8..|b|] == body && data[|b|..] == more;
  }

  lemma NoBoxes()
    ensures Boxes([]) == Some([])
  {
  }

  lemma CleanFragment(s: Sample, payload: seq<byte>)
    requires |payload| + 8 < 0x1_0000_0000 && !Collides(s)
    ensures BuildFragment(s, payload) == Moof(s, 108) + MakeBox(MDAT, payload)
  {
    FirstMarkIsOffset(s);
    Layout(s, PLACEHOLDER);
    Layout(s, 108);
    var m, want := Moof(s, PLACEHOLDER), Moof(s, 108);
    OffsetOnly(s, PLACEHOLDER, 108);
    assert Patched(m) == Overwrite(m, 84, BeU32(108));
  }

  /** Two moofs that differ in the data offset differ in those four bytes only. */
  lemma OffsetOnly(s: Sample, a: u32, b: u32)
    ensures Overwrite(Moof(s, a), 84, BeU32(b)) == Moof(s, b)
  {
    hide BeU32, BeU64;
    var before := BeU32(1);
    var after := BeU32(s.duration) + BeU32(s.size) + BeU32(SampleFlags(s.isSync));
    var head := Moof(s, a)[..84];
    assert TrunBody(s, a) == before + BeU32(a) + after;
    assert TrunBody(s, b) == before + BeU32(b) + after;
    assert Moof(s, a) == head + BeU32(a) + after;
    assert Moof(s, b)[..84] == head;
    assert Moof(s, b) == head + BeU32(b) + after;
  }

  /** Fragment layout: when the sample's numbers do not hold the mark, an independent box reader finds
      the nested boxes with exact sizes, and every field is the one given, with the data offset
      108, where the payload starts. */
  lemma FragmentLayout(s: Sample, payload: seq<byte>)
    requires |payload| + 8 < 0x1_0000_0000 && !Collides(s)
    ensures var moof, traf := Mfhd(s) + Traf(s, 108), Tfhd() + Tfdt(s) + Trun(s, 108);
      && Boxes(BuildFragment(s, payload)) == Some([Box(MOOF, moof), Box(MDAT, payload)])
      && Boxes(moof) == Some([Box(MFHD, [0, 0, 0, 0] + BeU32(s.number)), Box(TRAF, traf)])
      && Boxes(traf) == Some([Box(TFHD, [0, 2, 0, 0] + BeU32(1)), Box(TFDT, [1, 0, 0, 0] + BeU64(s.time)),
                              Box(TRUN, [0, 0, 7, 1] + TrunBody(s, 108))])
    ensures BuildFragment(s, payload)[108..] == payload
  {
    hide Boxes, MakeBox, Mfhd, Traf, Tfhd, Tfdt, Trun, TrunBody, BuildFragment, BeU32, BeU64, Collides;
    CleanFragment(s, payload);
    MoofBoxes(s);
    TrafBoxes(s);
    NoBoxes();
    var mdat := MakeBox(MDAT, payload);
    OneBox(MDAT, payload, []);
    assert mdat + [] == mdat;
    OneBox(MOOF, Mfhd(s) + Traf(s, 108), mdat);
    var x, y := Box(MOOF, Mfhd(s) + Traf(s, 108)), Box(MDAT, payload);
    assert [y] + [] == [y] && [x] + [y] == [x, y];
    MdatBody(payload);
    assert (Moof(s, 108) + mdat)[108..] == mdat[8..];
  }

  lemma MoofBoxes(s: Sample)
    ensures Boxes(Mfhd(s) + Traf(s, 108))
         == Some([Box(MFHD, [0, 0, 0, 0] + BeU32(s.number)), Box(TRAF, Tfhd() + Tfdt(s) + Trun(s, 108))])
  {
    NoBoxes();
    hide Boxes, BeU32, MakeBox, Tfhd, Tfdt, Trun;
    OneBox(TRAF, Tfhd() + Tfdt(s) + Trun(s, 108), []);
    assert Traf(s, 108) + [] == Traf(s, 108);
    OneBox(MFHD, [0, 0, 0, 0] + BeU32(s.number), Traf(s, 108));
    assert Mfhd(s) == MakeBox(MFHD, [0, 0, 0, 0] + BeU32(s.number));
    var x, y := Box(MFHD, [0, 0, 0, 0] + BeU32(s.number)), Box(TRAF, Tfhd() + Tfdt(s) + Trun(s, 108));
    assert [y] + [] == [y] && [x] + [y] == [x, y];
  }

  lemma TrafBoxes(s: Sample)
    ensures Boxes(Tfhd() + Tfdt(s) + Trun(s, 108))
         == Some([Box(TFHD, [0, 2, 0, 0] + BeU32(1)), Box(TFDT, [1, 0, 0, 0] + BeU64(s.time)),
                  Box(TRUN, [0, 0, 7, 1] + TrunBody(s, 108))])
  {
    NoBoxes();
    hide Boxes, BeU32, BeU64, MakeBox, TrunBody;
    var trun := Trun(s, 108);
    assert trun + [] == trun;
    OneBox(TRUN, [0, 0, 7, 1] + TrunBody(s, 108), []);
    OneBox(TFDT, [1, 0, 0, 0] + BeU64(s.time), trun);
    OneBox(TFHD, [0, 2, 0, 0] + BeU32(1), Tfdt(s) + trun);
    assert trun == MakeBox(TRUN, [0, 0, 7, 1] + TrunBody(s, 108));
    assert Tfdt(s) == MakeBox(TFDT, [1, 0, 0, 0] + BeU64(s.time));
    assert Tfhd() == MakeBox(TFHD, [0, 2, 0, 0] + BeU32(1));
    AppendAssoc(Tfhd(), Tfdt(s), trun);
    var x, y, z := Box(TFHD, [0, 2, 0, 0] + BeU32(1)), Box(TFDT, [1, 0, 0, 0] + BeU64(s.time)),
                   Box(TRUN, [0, 0, 7, 1] + TrunBody(s, 108));
    assert [z] + [] == [z] && [y] + [z] == [y, z] && [x] + [y, z] == [x, y, z];
  }

  // ---- every field, read from the bytes --------------------------------------------------------

  /** A name in ASCII. */
  function Ascii(name: string): (b: seq<byte>)
    requires forall i :: 0 <= i < |name| ==> name[i] < 128 as char
    ensures |b| == |name|
  {
    seq(|name|, i requires 0 <= i < |name| => name[i] as int)
  }

  /** A box with its version and flags starts at `at`. */
  ghost predicate BoxAt(f: seq<byte>, at: nat, size: nat, name: string, versionAndFlags: seq<byte>) {
    && |name| == 4 && (forall i :: 0 <= i < 4 ==> name[i] < 128 as char) && at + 8 + |versionAndFlags| <= |f|
    && U32At(f, at) == size && f[at + 4..at + 8] == Ascii(name)
    && f[at + 8..at + 8 + |versionAndFlags|] == versionAndFlags
  }

  lemma Names()
    ensures MOOF == Ascii("moof") && MFHD == Ascii("mfhd") && TRAF == Ascii("traf") && TFHD == Ascii("tfhd")
    ensures TFDT == Ascii("tfdt") && TRUN == Ascii("trun") && MDAT == Ascii("mdat")
  {
  }

  /** The five words of the trun body. */
  lemma TrunWords(s: Sample, offset: u32)
    ensures var t := TrunBody(s, offset);
      && U32At(t, 0) == 1 && U32At(t, 4) == offset && U32At(t, 8) == s.duration && U32At(t, 12) == s.size
      && U32At(t, 16) == if s.isSync then 0x0200_0000 else 0x0101_0000
  {
    hide BeU32;
    var t := TrunBody(s, offset);
    assert t[0..4] == BeU32(1) && t[4..8] == BeU32(offset) && t[8..12] == BeU32(s.duration);
    assert t[12..16] == BeU32(s.size) && t[16..20] == BeU32(SampleFlags(s.isSync));
  }

  /** A full box inside other bytes: where its head and its body are. */
  lemma FullBoxAt(pre: seq<byte>, kind: Kind, name: string, version: byte, flags: u32, body: seq<byte>, post: seq<byte>)
    requires |body| + 12 < 0x1_0000_0000
    requires |name| == 4 && (forall i :: 0 <= i < 4 ==> name[i] < 128 as char) && kind == Ascii(name)
    ensures var f := pre + FullBox(kind, version, flags, body) + post;
      var v := [version, flags / 0x1_0000 % 0x100, flags / 0x100 % 0x100, flags % 0x100];
      BoxAt(f, |pre|, |body| + 12, name, v) && f[|pre| + 12..|pre| + 12 + |body|] == body
  {
    FullBoxParts(kind, version, flags, body);
    hide BeU32, U32At, FullBox;
    var b := FullBox(kind, version, flags, body);
    var f := pre + b + post;
    ReadInside(pre, b, post, 0);
    ReadInside([], BeU32(|body| + 12), b[4..], 0);
    assert b == [] + BeU32(|body| + 12) + b[4..] by {
      assert b[..12][..4] == BeU32(|body| + 12);
    }
    assert f[|pre| + 4..|pre| + 8] == b[..12][4..8];
    assert f[|pre| + 8..|pre| + 12] == b[..12][8..12];
    assert f[|pre| + 12..|pre| + 12 + |body|] == b[12..];
  }

  /** The full boxes of a moof. */
  lemma MoofFields(s: Sample, offset: u32)
    ensures var m := Moof(s, offset);
      && BoxAt(m, 8, 16, "mfhd", [0, 0, 0, 0]) && m[20..24] == BeU32(s.number)
      && BoxAt(m, 32, 16, "tfhd", [0, 2, 0, 0]) && m[44..48] == BeU32(1)
      && BoxAt(m, 48, 20, "tfdt", [1, 0, 0, 0]) && m[60..68] == BeU64(s.time)
      && BoxAt(m, 68, 32, "trun", [0, 0, 7, 1]) && m[80..100] == TrunBody(s, offset)
  {
    MoofParts(s, offset);
    Names();
    hide Moof, FullBox, BeU32, BeU64, TrunBody, BoxAt, Ascii;
    var m := Moof(s, offset);
    FullBoxAt(m[..8], MFHD, "mfhd", 0, 0, BeU32(s.number), m[24..]);
    assert m == m[..8] + m[8..24] + m[24..];
    FullBoxAt(m[..32], TFHD, "tfhd", 0, 0x02_0000, BeU32(1), m[48..]);
    assert m == m[..32] + m[32..48] + m[48..];
    FullBoxAt(m[..48], TFDT, "tfdt", 1, 0, BeU64(s.time), m[68..]);
    assert m == m[..48] + m[48..68] + m[68..];
    FullBoxAt(m[..68], TRUN, "trun", 0, 0x00_0701, TrunBody(s, offset), []);
    assert m == m[..68] + m[68..100] + [];
  }

  /** The plain boxes: moof, traf and, behind the moof, mdat. */
  lemma PlainBoxes(s: Sample, offset: u32, payload: seq<byte>)
    requires |payload| + 8 < 0x1_0000_0000
    ensures var f := Moof(s, offset) + MakeBox(MDAT, payload);
      BoxAt(f, 0, 100, "moof", []) && BoxAt(f, 24, 76, "traf", []) && BoxAt(f, 100, |payload| + 8, "mdat", [])
  {
    MoofParts(s, offset);
    Names();
    hide Moof, BeU32, Ascii, U32At;
    var m, d := Moof(s, offset), MakeBox(MDAT, payload);
    var f := m + d;
    WordAt(f, 0, BeU32(100));
    WordAt(f, 24, BeU32(76));
    WordAt(f, 100, BeU32(|payload| + 8));
    assert f[0..4] == m[..8][..4] && f[4..8] == m[..8][4..];
    assert f[24..28] == m[24..32][..4] && f[28..32] == m[24..32][4..];
    assert f[100..104] == d[..4] && f[104..108] == d[4..8];
  }

  lemma WordAt(f: seq<byte>, i: nat, word: seq<byte>)
    requires i + 4 <= |f| && |word| == 4
    ensures f[i..i + 4] == word ==> U32At(f, i) == U32At(word, 0)
  {
    assert f[i..i + 4] == word ==>
        f[i] == word[0] && f[i + 1] == word[1] && f[i + 2] == word[2] && f[i + 3] == word[3];
  }

  /** A box that lies in a prefix. */
  lemma BoxStays(m: seq<byte>, more: seq<byte>, at: nat, size: nat, name: string, v: seq<byte>)
    requires BoxAt(m, at, size, name, v)
    ensures BoxAt(m + more, at, size, name, v)
  {
    hide Ascii;
    var f := m + more;
    assert f[at..at + 4] == m[at..at + 4] && f[at + 4..at + 8] == m[at + 4..at + 8];
    assert f[at + 8..at + 8 + |v|] == m[at + 8..at + 8 + |v|];
  }

  /** The boxes of a fragment with `n` payload bytes: places, sizes, names, versions and flags. */
  ghost predicate BoxesOf(f: seq<byte>, n: nat) {
    && BoxAt(f, 0, 100, "moof", []) && BoxAt(f, 24, 76, "traf", []) && BoxAt(f, 100, n + 8, "mdat", [])
    && BoxAt(f, 8, 16, "mfhd", [0, 0, 0, 0]) && BoxAt(f, 32, 16, "tfhd", [0, 2, 0, 0])
    && BoxAt(f, 48, 20, "tfdt", [1, 0, 0, 0]) && BoxAt(f, 68, 32, "trun", [0, 0, 7, 1])
  }

  /** The numbers of a fragment: sequence number, track one, decode time, one sample, the data offset, and
      the sample's duration, size and flags. */
  ghost predicate NumbersOf(f: seq<byte>, s: Sample) {
    && |f| >= 100
    && U32At(f, 20) == s.number && U32At(f, 44) == 1 && U64At(f, 60) == s.time
    && U32At(f, 80) == 1 && U32At(f, 84) == 108 && U32At(f, 88) == s.duration && U32At(f, 92) == s.size
    && U32At(f, 96) == if s.isSync then 0x0200_0000 else 0x0101_0000
  }

  lemma FragmentBoxes(s: Sample, payload: seq<byte>)
    requires |payload| + 8 < 0x1_0000_0000
    ensures BoxesOf(Moof(s, 108) + MakeBox(MDAT, payload), |payload|)
  {
    MoofFields(s, 108);
    PlainBoxes(s, 108, payload);
    hide Moof, MakeBox, BoxAt, BeU32, BeU64, TrunBody;
    var m, d := Moof(s, 108), MakeBox(MDAT, payload);
    BoxStays(m, d, 8, 16, "mfhd", [0, 0, 0, 0]);
    BoxStays(m, d, 32, 16, "tfhd", [0, 2, 0, 0]);
    BoxStays(m, d, 48, 20, "tfdt", [1, 0, 0, 0]);
    BoxStays(m, d, 68, 32, "trun", [0, 0, 7, 1]);
  }

  /** Every field of a fragment, read from its bytes at its place: names, sizes, versions and flags of all
      boxes, and number, decode time, count, data offset, duration, size and sample flags as given. With
      the size of the payload as sample size, the slice a reader takes is the payload. */
  lemma FragmentFields(s: Sample, payload: seq<byte>)
    requires |payload| + 8 < 0x1_0000_0000 && !Collides(s)
    ensures var f := BuildFragment(s, payload);
      && BoxesOf(f, |payload|) && NumbersOf(f, s)
      && (s.size == |payload| ==> f[U32At(f, 84)..U32At(f, 84) + U32At(f, 92)] == payload)
  {
    hide BuildFragment, Moof, MakeBox, Collides, BoxesOf, U32At, U64At;
    CleanFragment(s, payload);
    FragmentBoxes(s, payload);
    FragmentNumbers(s, payload);
    MdatBody(payload);
    var m, d := Moof(s, 108), MakeBox(MDAT, payload);
    assert (m + d)[108..] == d[8..];
  }

  lemma FragmentNumbers(s: Sample, payload: seq<byte>)
    requires |payload| + 8 < 0x1_0000_0000
    ensures NumbersOf(Moof(s, 108) + MakeBox(MDAT, payload), s)
  {
    MoofFields(s, 108);
    hide Moof, MakeBox, BoxAt, BeU32, BeU64, TrunBody, NumbersOf;
    MoofWords(Moof(s, 108), MakeBox(MDAT, payload), s);
  }

  /** The numbers of a moof, read from a fragment that starts with it. */
  lemma MoofWords(m: seq<byte>, d: seq<byte>, s: Sample)
    requires |m| == 100 && m[20..24] == BeU32(s.number) && m[44..48] == BeU32(1) && m[60..68] == BeU64(s.time)
    requires m[80..100] == TrunBody(s, 108)
    ensures NumbersOf(m + d, s)
  {
    TrunWords(s, 108);
    hide BeU32, BeU64, TrunBody, U32At, U64At;
    WordIn(m, d, 20, 24, 20);
    WordIn(m, d, 44, 48, 44);
    WordIn(m, d, 60, 68, 60);
    WordIn(m, d, 80, 100, 80);
    WordIn(m, d, 80, 100, 84);
    WordIn(m, d, 80, 100, 88);
    WordIn(m, d, 80, 100, 92);
    WordIn(m, d, 80, 100, 96);
  }

  /** A word of a slice is a word of the whole. */
  lemma WordIn(m: seq<byte>, d: seq<byte>, a: nat, b: nat, i: nat)
    requires a <= i < i + 4 <= b <= |m|
    ensures U32At(m + d, i) == U32At(m[a..b], i - a)
    ensures i + 8 <= b ==> U64At(m + d, i) == U64At(m[a..b], i - a)
  {
    ReadInside(m[..a], m[a..b], m[b..] + d, i - a);
    assert m + d == m[..a] + m[a..b] + (m[b..] + d);
  }

  /** The exact condition: the trun data offset is the position of the first payload byte if and
      only if the number is not the placeholder and no four bytes of the decode time equal it. The
      player's own slice, at the moof size plus eight, is the payload either way. */
  lemma DataOffsetExactly(s: Sample, payload: seq<byte>)
    requires |payload| + 8 < 0x1_0000_0000
    ensures var f := BuildFragment(s, payload);
      && (U32At(f, 84) == 108 <==> !Collides(s))
      && U32At(f, 0) == 100 && f[U32At(f, 0) + 8..] == payload
  {
    hide Patched, Moof, MakeBox, Collides, U32At;
    PatchedWords(s);
    MdatBody(payload);
    var p, mdat := Patched(Moof(s, PLACEHOLDER)), MakeBox(MDAT, payload);
    Words(p, mdat);
    assert (p + mdat)[108..] == mdat[8..];
  }

  /** The first word of the patched header and the word at the data offset. */
  lemma PatchedWords(s: Sample)
    ensures var p := Patched(Moof(s, PLACEHOLDER));
      U32At(p[..4], 0) == 100 && (U32At(p[84..88], 0) == 108 <==> !Collides(s))
  {
    FirstMarkIsOffset(s);
    Layout(s, PLACEHOLDER);
    MoofParts(s, PLACEHOLDER);
    hide Moof, FirstMark, MakeBox, BeU32, BeU64, Collides, Mfhd, Tfhd, Tfdt, Trun, U32At;
    var m := Moof(s, PLACEHOLDER);
    var at := FirstMark(m, 0).value;
    assert m[..8][..4] == m[..4] && (BeU32(100) + MOOF)[..4] == BeU32(100);
    if Collides(s) {
      EarlyMark(s, at);
    }
    OverwriteWords(m, at, BeU32(108));
  }

  lemma OverwriteWords(m: seq<byte>, at: nat, four: seq<byte>)
    requires |m| == 100 && |four| == 4 && 4 <= at <= 84 && !(80 < at < 84)
    ensures Overwrite(m, at, four)[..4] == m[..4]
    ensures Overwrite(m, at, four)[84..88] == if at == 84 then four else m[84..88]
  {
  }

  lemma MdatBody(payload: seq<byte>)
    requires |payload| + 8 < 0x1_0000_0000
    ensures MakeBox(MDAT, payload)[8..] == payload
  {
  }

  lemma Words(p: seq<byte>, more: seq<byte>)
    requires |p| == 100
    ensures U32At(p + more, 0) == U32At(p[..4], 0) && U32At(p + more, 84) == U32At(p[84..88], 0)
  {
  }

  /** A small decode time: four zero bytes, then the value. */
  lemma SmallTime(t: u64)
    requires t < 0x1_0000_0000
    ensures BeU64(t) == [0, 0, 0, 0] + BeU32(t)
  {
    hide BeU32, U32At;
    ZeroWord();
  }

  lemma ZeroWord()
    ensures BeU32(0) == [0, 0, 0, 0]
  {
  }

  /** With zeros before the mark in the decode time, the mark there is the first. */
  lemma OnlyAt64(m: seq<byte>, at: nat)
    requires |m| == 100 && m[60..68] == [0, 0, 0, 0] + MARK && MarkAt(m, at) && (at == 20 || 60 <= at <= 64)
    requires m[20..24] != MARK
    ensures at == 64
  {
    MarkBytes(m, at);
    assert m[60..68][0] == 0 && m[60..68][1] == 0 && m[60..68][2] == 0 && m[60..68][3] == 0;
  }

  lemma UnluckyMark(s: Sample)
    requires s.number != PLACEHOLDER && s.time == PLACEHOLDER
    ensures Collides(s) && FirstMark(Moof(s, PLACEHOLDER), 0) == Some(64)
  {
    var m := Moof(s, PLACEHOLDER);
    SmallTime(s.time);
    Layout(s, PLACEHOLDER);
    PlaceholderBytes(s.number);
    PlaceholderBytes(s.time);
    hide Moof, BeU32, BeU64, FirstMark;
    assert MarkAt(BeU64(s.time), 4);
    FirstMarkIsOffset(s);
    var at := FirstMark(m, 0).value;
    EarlyMark(s, at);
    OnlyAt64(m, at);
  }

  /** A fragment that goes wrong: at a decode time of 0xDEADBEEF ticks the patch overwrites half of the
      decode time with 108 and leaves the placeholder as data offset. */
  lemma DecodeTimeCollides(s: Sample, payload: seq<byte>)
    requires s.number != PLACEHOLDER && s.time == 0xDEAD_BEEF && |payload| + 8 < 0x1_0000_0000
    ensures var f := BuildFragment(s, payload);
      Collides(s) && f[64..68] == BeU32(108) && U32At(f, 84) == PLACEHOLDER
  {
    UnluckyMark(s);
    Layout(s, PLACEHOLDER);
    hide Moof, BeU32, FirstMark, MakeBox, U32At, Collides, Overwrite;
    PatchedAt64(Moof(s, PLACEHOLDER), BeU32(108), MakeBox(MDAT, payload));
  }

  lemma PatchedAt64(m: seq<byte>, four: seq<byte>, d: seq<byte>)
    requires |m| == 100 && |four| == 4
    ensures var f := Overwrite(m, 64, four) + d;
      f[64..68] == four && U32At(f, 84) == U32At(m[84..88], 0)
  {
    hide U32At;
    var p := Overwrite(m, 64, four);
    OverwriteWords(m, 64, four);
    Words(p, d);
    assert p[64..68] == four && (p + d)[64..68] == p[64..68];
  }
}
