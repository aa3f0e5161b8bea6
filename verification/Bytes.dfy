/** Bytes and the fixed-width big-endian integers every wire format here is built from. */
module Bytes {
  type byte = x: int | 0 <= x < 0x100
  type u16 = x: int | 0 <= x < 0x1_0000
  type u32 = x: int | 0 <= x < 0x1_0000_0000
  type u64 = x: int | 0 <= x < 0x1_0000_0000_0000_0000

  datatype Option<+T> = None | Some(value: T)
  datatype Result<+T, +E> = Ok(value: T) | Err(error: E)

  /** Counters wrap around at their width. */
  function Wrap16(n: nat): u16 { n % 0x1_0000 }
  function Wrap32(n: nat): u32 { n % 0x1_0000_0000 }

  lemma Wrap16Add(a: nat, n: nat)
    ensures Wrap16(Wrap16(a) + n) == Wrap16(a + n)
  {
    var x := a % 0x1_0000 + n;
    assert a + n == 0x1_0000 * (a / 0x1_0000 + x / 0x1_0000) + x % 0x1_0000;
  }

  lemma Wrap32Add(a: nat, n: nat)
    ensures Wrap32(Wrap32(a) + n) == Wrap32(a + n)
  {
    var x := a % 0x1_0000_0000 + n;
    assert a + n == 0x1_0000_0000 * (a / 0x1_0000_0000 + x / 0x1_0000_0000) + x % 0x1_0000_0000;
  }

  /** What wrapping is: the identity below the width, repeating with the width as period. */
  lemma WrapMeans(n: nat)
    ensures n < 0x1_0000 ==> Wrap16(n) == n
    ensures Wrap16(n + 0x1_0000) == Wrap16(n)
    ensures n < 0x1_0000_0000 ==> Wrap32(n) == n
    ensures Wrap32(n + 0x1_0000_0000) == Wrap32(n)
  {
  }

  function U16At(s: seq<byte>, i: nat): u16
    requires i + 2 <= |s|
  {
    s[i] as int * 0x100 + s[i + 1]
  }

  function U32At(s: seq<byte>, i: nat): u32
    requires i + 4 <= |s|
  {
    U16At(s, i) as int * 0x1_0000 + U16At(s, i + 2)
  }

  function U64At(s: seq<byte>, i: nat): u64
    requires i + 8 <= |s|
  {
    U32At(s, i) as int * 0x1_0000_0000 + U32At(s, i + 4)
  }

  /** `to_be_bytes` of a 16-bit value: reading the two bytes back gives the value. */
  function BeU16(v: u16): (s: seq<byte>)
    ensures |s| == 2 && U16At(s, 0) == v
  {
    [v / 0x100, v % 0x100]
  }

  function BeU32(v: u32): (s: seq<byte>)
    ensures |s| == 4 && U32At(s, 0) == v
  {
    var hi, lo := BeU16(v / 0x1_0000), BeU16(v % 0x1_0000);
    assert U16At(hi + lo, 0) == U16At(hi, 0);
    assert U16At(hi + lo, 2) == U16At(lo, 0);
    hi + lo
  }

  function BeU64(v: u64): (s: seq<byte>)
    ensures |s| == 8 && U64At(s, 0) == v
  {
    var hi, lo := BeU32(v / 0x1_0000_0000), BeU32(v % 0x1_0000_0000);
    assert U32At(hi + lo, 0) == U32At(hi, 0);
    assert U32At(hi + lo, 4) == U32At(lo, 0);
    hi + lo
  }

  /** Reading depends only on the bytes read. */
  lemma ReadInside(pre: seq<byte>, s: seq<byte>, post: seq<byte>, i: nat)
    ensures i + 2 <= |s| ==> U16At(pre + s + post, |pre| + i) == U16At(s, i)
    ensures i + 4 <= |s| ==> U32At(pre + s + post, |pre| + i) == U32At(s, i)
    ensures i + 8 <= |s| ==> U64At(pre + s + post, |pre| + i) == U64At(s, i)
  {
    var whole := pre + s + post;
    assert forall k :: 0 <= k < |s| ==> whole[|pre| + k] == s[k];
  }

  /** Bitwise exclusive or of the low `bits` bits. */
  function XorBits(a: nat, b: nat, bits: nat): (r: nat)
  {
    if bits == 0 then 0
    else (if a % 2 == b % 2 then 0 else 1) + 2 * XorBits(a / 2, b / 2, bits - 1)
  }

  function Xor(a: byte, b: byte): byte {
    XorBounded(a, b, 8);
    XorBits(a, b, 8)
  }

  function Pow2(n: nat): nat {
    if n == 0 then 1 else 2 * Pow2(n - 1)
  }

  lemma {:induction false} XorBounded(a: nat, b: nat, bits: nat)
    ensures XorBits(a, b, bits) < Pow2(bits)
    ensures Pow2(8) == 0x100
  {
    if bits > 0 {
      XorBounded(a / 2, b / 2, bits - 1);
    }
    assert Pow2(8) == 2 * (2 * (2 * (2 * Pow2(4))));
  }

  lemma {:induction false} XorBitsTwice(a: nat, k: nat, bits: nat)
    requires a < Pow2(bits)
    ensures XorBits(XorBits(a, k, bits), k, bits) == a
  {
    if bits > 0 {
      XorBitsTwice(a / 2, k / 2, bits - 1);
      var x := XorBits(a, k, bits);
      assert x / 2 == XorBits(a / 2, k / 2, bits - 1);
    }
  }

  /** Bit `j` of a number. */
  predicate Bit(a: nat, j: nat) {
    if j == 0 then a % 2 == 1 else Bit(a / 2, j - 1)
  }

  lemma {:induction false} XorBitsAt(a: nat, b: nat, bits: nat, j: nat)
    requires j < bits
    ensures Bit(XorBits(a, b, bits), j) <==> Bit(a, j) != Bit(b, j)
  {
    var x, rest := XorBits(a, b, bits), XorBits(a / 2, b / 2, bits - 1);
    assert x / 2 == rest && (x % 2 == 1 <==> a % 2 != b % 2);
    if j > 0 {
      XorBitsAt(a / 2, b / 2, bits - 1, j - 1);
    }
  }

  /** Exclusive or, bit by bit. */
  lemma XorAt(a: byte, b: byte, j: nat)
    requires j < 8
    ensures Bit(Xor(a, b), j) <==> Bit(a, j) != Bit(b, j)
  {
    XorBitsAt(a, b, 8, j);
  }

  lemma {:induction false} XorBitsZero(a: nat, bits: nat)
    requires a < Pow2(bits)
    ensures XorBits(a, 0, bits) == a
  {
    if bits > 0 {
      XorBitsZero(a / 2, bits - 1);
    }
  }

  /** A zero key byte leaves every byte as it is. */
  lemma XorZero(a: byte)
    ensures Xor(a, 0) == a
  {
    XorBounded(a, 0, 8);
    XorBitsZero(a, 8);
  }

  /** Masking a byte twice with the same key byte restores it (section 5.3 of RFC 6455). */
  lemma XorTwice(a: byte, k: byte)
    ensures Xor(Xor(a, k), k) == a
  {
    XorBounded(a, k, 8);
    XorBitsTwice(a, k, 8);
  }

  lemma AppendAssoc<T>(a: seq<T>, b: seq<T>, c: seq<T>)
    ensures (a + b) + c == a + (b + c)
  {
  }

  /** Concatenation of a list of byte strings. */
  function Flatten(parts: seq<seq<byte>>): seq<byte> {
    if parts == [] then [] else parts[0] + Flatten(parts[1..])
  }
}
