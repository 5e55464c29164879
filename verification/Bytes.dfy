/** Bytes, fixed-width little-endian integers, and the block copy the packet code uses. */
module Bytes {

  type Byte = x: int | 0 <= x < 256
  type U16 = x: int | 0 <= x < 0x1_0000
  type U64 = x: int | 0 <= x < 0x1_0000_0000_0000_0000
  type I32 = x: int | -0x8000_0000 <= x < 0x8000_0000

  const NUL: Byte := 0

  function Min(a: nat, b: nat): nat { if a <= b then a else b }

  function Zeros(n: nat): (z: seq<Byte>)
    ensures |z| == n && forall i | 0 <= i < n :: z[i] == NUL
  {
    seq(n, i => NUL)
  }

  function Pow256(w: nat): (p: nat)
    ensures p > 0
  {
    if w == 0 then 1 else 256 * Pow256(w - 1)
  }

  /** The w low-order bytes of v, least significant first. */
  function LeEncode(v: nat, w: nat): (s: seq<Byte>)
    ensures |s| == w
  {
    if w == 0 then [] else [v % 256] + LeEncode(v / 256, w - 1)
  }

  function LeDecode(s: seq<Byte>): nat {
    if s == [] then 0 else s[0] + 256 * LeDecode(s[1..])
  }

  lemma {:induction false} LeDecodeEncode(v: nat, w: nat)
    requires v < Pow256(w)
    ensures LeDecode(LeEncode(v, w)) == v
  {
    if w > 0 {
      LeDecodeEncode(v / 256, w - 1);
    }
  }

  lemma {:induction false} LeEncodeDecode(s: seq<Byte>)
    ensures LeDecode(s) < Pow256(|s|)
    ensures LeEncode(LeDecode(s), |s|) == s
  {
    if s != [] {
      var v := LeDecode(s[1..]);
      LeEncodeDecode(s[1..]);
      assert (s[0] + 256 * v) % 256 == s[0] && (s[0] + 256 * v) / 256 == v;
      assert s == [s[0]] + s[1..];
    }
  }

  lemma {:induction false} Widths()
    ensures Pow256(2) == 0x1_0000
    ensures Pow256(4) == 0x1_0000_0000
    ensures Pow256(8) == 0x1_0000_0000_0000_0000
  {
    assert Pow256(1) == 256;
    assert Pow256(3) == 256 * Pow256(2);
    assert Pow256(4) == 256 * Pow256(3);
    assert Pow256(5) == 256 * Pow256(4);
    assert Pow256(6) == 256 * Pow256(5);
    assert Pow256(7) == 256 * Pow256(6);
  }

  function EncodeU16(v: U16): (s: seq<Byte>) ensures |s| == 2 { LeEncode(v, 2) }
  function EncodeU64(v: U64): (s: seq<Byte>) ensures |s| == 8 { LeEncode(v, 8) }

  /** Two's complement: a negative value is stored as v + 2^32. */
  function EncodeI32(v: I32): (s: seq<Byte>)
    ensures |s| == 4
  {
    LeEncode(if v < 0 then v + 0x1_0000_0000 else v, 4)
  }

  function DecodeU16(s: seq<Byte>): U16
    requires |s| == 2
  {
    Widths();
    LeEncodeDecode(s);
    LeDecode(s)
  }

  function DecodeU64(s: seq<Byte>): U64
    requires |s| == 8
  {
    Widths();
    LeEncodeDecode(s);
    LeDecode(s)
  }

  function DecodeI32(s: seq<Byte>): I32
    requires |s| == 4
  {
    Widths();
    LeEncodeDecode(s);
    var u := LeDecode(s);
    if u >= 0x8000_0000 then u - 0x1_0000_0000 else u
  }

  /** Every fixed-width integer survives encode then decode, negative counts included. */
  lemma IntegersSurvive(a: U16, b: U64, c: I32)
    ensures DecodeU16(EncodeU16(a)) == a
    ensures DecodeU64(EncodeU64(b)) == b
    ensures DecodeI32(EncodeI32(c)) == c
  {
    Widths();
    LeDecodeEncode(a, 2);
    LeDecodeEncode(b, 8);
    LeDecodeEncode(if c < 0 then c + 0x1_0000_0000 else c, 4);
  }

  /** Byte k of an encoded integer is its k-th digit to base 256, the least significant first. */
  lemma {:induction false} LittleEndian(v: nat, w: nat, k: nat)
    requires k < w
    ensures LeEncode(v, w)[k] == v / Pow256(k) % 256
  {
    if k > 0 {
      LittleEndian(v / 256, w - 1, k - 1);
      DivideTwice(v, Pow256(k - 1));
    }
  }

  lemma DivideTwice(v: nat, p: nat)
    requires p > 0
    ensures v / 256 / p == v / (256 * p)
  {
    var q := v / 256;
    var a, b := q / p, q % p;
    assert v == 256 * q + v % 256 && q == a * p + b;
    assert v == a * (256 * p) + (256 * b + v % 256);
    Quotient(v, 256 * p, a, 256 * b + v % 256);
  }

  lemma Quotient(v: nat, d: nat, a: nat, r: nat)
    requires d > 0 && r < d && v == a * d + r
    ensures v / d == a
  {
    var q := v / d;
    assert v == q * d + v % d;
    assert (a - q) * d == v % d - r;
    AtLeastOnce(a - q, d);
  }

  lemma AtLeastOnce(k: int, d: nat)
    ensures k >= 1 ==> k * d >= d
    ensures k <= -1 ==> k * d + d <= 0
  {
    if k >= 1 {
      assert (k - 1) * d >= 0;
    } else if k <= -1 {
      assert (k + 1) * d <= 0;
    }
  }

  /** All integer fields are little-endian; a negative one is stored as its value modulo 2^32. */
  lemma FieldsAreLittleEndian(a: U16, b: U64, c: I32)
    ensures forall k | 0 <= k < 2 :: EncodeU16(a)[k] == a / Pow256(k) % 256
    ensures forall k | 0 <= k < 8 :: EncodeU64(b)[k] == b / Pow256(k) % 256
    ensures forall k | 0 <= k < 4 :: EncodeI32(c)[k] == (c % 0x1_0000_0000) / Pow256(k) % 256
  {
    forall k | 0 <= k < 2 ensures EncodeU16(a)[k] == a / Pow256(k) % 256 { LittleEndian(a, 2, k); }
    forall k | 0 <= k < 8 ensures EncodeU64(b)[k] == b / Pow256(k) % 256 { LittleEndian(b, 8, k); }
    var u := c % 0x1_0000_0000;
    assert EncodeI32(c) == LeEncode(u, 4);
    forall k | 0 <= k < 4 ensures EncodeI32(c)[k] == u / Pow256(k) % 256 { LittleEndian(u, 4, k); }
  }

  /** Every byte pattern is the encoding of the integer it decodes to. */
  lemma U16BytesSurvive(s: seq<Byte>)
    requires |s| == 2
    ensures EncodeU16(DecodeU16(s)) == s
  {
    LeEncodeDecode(s);
  }

  lemma U64BytesSurvive(s: seq<Byte>)
    requires |s| == 8
    ensures EncodeU64(DecodeU64(s)) == s
  {
    LeEncodeDecode(s);
  }

  lemma I32BytesSurvive(s: seq<Byte>)
    requires |s| == 4
    ensures EncodeI32(DecodeI32(s)) == s
  {
    Widths();
    LeEncodeDecode(s);
  }

  lemma ConcatAssoc<T>(a: seq<T>, b: seq<T>, c: seq<T>)
    ensures (a + b) + c == a + (b + c)
  {
  }

  lemma SplitPrefix<T>(s: seq<T>, i: nat, j: nat)
    requires i <= j <= |s|
    ensures s[..i] + s[i..j] == s[..j]
  {
  }

  lemma PrefixOfSlice<T>(s: seq<T>, i: nat, j: nat, k: nat)
    requires i <= j <= k <= |s|
    ensures s[i..k][..j - i] == s[i..j]
  {
  }

  /** memcpy between two distinct arrays. */
  method Memcpy(dst: array<Byte>, at: nat, src: array<Byte>, from: nat, n: nat)
    requires dst != src && at + n <= dst.Length && from + n <= src.Length
    modifies dst
    ensures dst[..] == old(dst[..at]) + src[from..from + n] + old(dst[at + n..])
  {
    var i := 0;
    while i < n
      invariant 0 <= i <= n
      invariant dst[..at] == old(dst[..at]) && dst[at + i..] == old(dst[at + i..])
      invariant dst[at..at + i] == src[from..from + i]
    {
      dst[at + i] := src[from + i];
      i := i + 1;
    }
  }

  /** memcpy whose source is the object representation of a packed struct. */
  method Store(dst: array<Byte>, at: nat, bytes: seq<Byte>)
    requires at + |bytes| <= dst.Length
    modifies dst
    ensures dst[..] == old(dst[..at]) + bytes + old(dst[at + |bytes|..])
  {
    var i := 0;
    while i < |bytes|
      invariant 0 <= i <= |bytes|
      invariant dst[..at] == old(dst[..at]) && dst[at + i..] == old(dst[at + i..])
      invariant dst[at..at + i] == bytes[..i]
    {
      dst[at + i] := bytes[i];
      i := i + 1;
    }
  }
}
