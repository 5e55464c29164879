/** C strings and the fixed-width text fields they are copied into.
    A string argument is the sequence of its characters; the terminator behind its last
    character is implicit, and a NUL inside the sequence ends the C string early. */
module CStrings {
  import opened Bytes

  datatype Option<+T> = None | Some(value: T)

  /** The part of s that the C library sees: everything before the first NUL. */
  function Cut(s: seq<Byte>): (c: seq<Byte>)
    ensures c <= s && NUL !in c
    ensures |c| < |s| ==> s[|c|] == NUL
  {
    if s == [] || s[0] == NUL then [] else [s[0]] + Cut(s[1..])
  }

  /** The text of s that a terminated field of width w can hold. */
  function Trunc(s: seq<Byte>, w: nat): (t: seq<Byte>)
    requires w > 0
    ensures t <= s && |t| < w && NUL !in t
  {
    var c := Cut(s);
    if |c| < w then c else c[..w - 1]
  }

  /** The bytes of a text field of width w after copying s: its text, then only NULs. */
  function Field(s: seq<Byte>, w: nat): (f: seq<Byte>)
    requires w > 0
    ensures |f| == w
  {
    Trunc(s, w) + Zeros(w - |Trunc(s, w)|)
  }

  /** What strncpy writes: at most n characters, padded with NULs, not always terminated
      (ISO/IEC 9899:2011, section 7.24.2.4). */
  function StrncpyBytes(s: seq<Byte>, n: nat): (b: seq<Byte>)
    ensures |b| == n
  {
    var c := Cut(s);
    if |c| >= n then c[..n] else c + Zeros(n - |c|)
  }

  /** A null pointer is copied as the empty string. */
  function OrEmpty(s: Option<seq<Byte>>): seq<Byte> {
    match s
    case None => []
    case Some(t) => t
  }

  // ---- facts about Cut and Trunc

  /** Cut is the only NUL-free prefix that is either everything or followed by a NUL. */
  lemma {:induction false} CutUnique(s: seq<Byte>, c: seq<Byte>)
    requires c <= s && NUL !in c
    requires |c| < |s| ==> s[|c|] == NUL
    ensures Cut(s) == c
  {
    if c != [] {
      assert s[0] == c[0] && c[0] in c;
      CutUnique(s[1..], c[1..]);
    }
  }

  lemma CutOfTerminated(t: seq<Byte>, tail: seq<Byte>)
    requires NUL !in t
    ensures Cut(t) == t
    ensures Cut(t + [NUL] + tail) == t
  {
    CutUnique(t, t);
    CutUnique(t + [NUL] + tail, t);
  }

  /** Reading a terminated field back gives exactly the text put into it. */
  lemma FieldRoundTrip(s: seq<Byte>, w: nat)
    requires w > 0
    ensures Cut(Field(s, w)) == Trunc(s, w)
    ensures NUL in Field(s, w) && Field(s, w)[w - 1] == NUL
  {
    var t := Trunc(s, w);
    assert Field(s, w) == t + [NUL] + Zeros(w - |t| - 1);
    CutOfTerminated(t, Zeros(w - |t| - 1));
  }

  lemma TruncOfField(s: seq<Byte>, w: nat)
    requires w > 0
    ensures Trunc(Field(s, w), w) == Trunc(s, w)
  {
    FieldRoundTrip(s, w);
  }

  /** A second truncation changes nothing, and the fitting strings are the fixed points. */
  lemma TruncFixedPoints(s: seq<Byte>, w: nat)
    requires w > 0
    ensures Trunc(Trunc(s, w), w) == Trunc(s, w)
    ensures Trunc(s, w) == s <==> NUL !in s && |s| < w
  {
    CutOfTerminated(Trunc(s, w), []);
    if NUL !in s {
      CutOfTerminated(s, []);
    }
  }

  /** Two fields hold the same bytes exactly when they hold the same text. */
  lemma FieldInjective(s: seq<Byte>, t: seq<Byte>, w: nat)
    requires w > 0
    ensures Field(s, w) == Field(t, w) <==> Trunc(s, w) == Trunc(t, w)
  {
    FieldRoundTrip(s, w);
    FieldRoundTrip(t, w);
  }

  /** A buffer with a NUL in it is its text, that NUL, and bytes nobody reads. */
  lemma TerminatedShape(f: seq<Byte>)
    requires NUL in f
    ensures |Cut(f)| < |f|
    ensures f == Cut(f) + [NUL] + f[|Cut(f)| + 1..]
  {
    var c := Cut(f);
    assert f[..|f|] == f;
    assert f == f[..|c|] + [f[|c|]] + f[|c| + 1..];
  }

  /** Reading a field whose last byte was overwritten with NUL gives the truncation of the raw
      bytes. */
  lemma CutAfterForcedNul(f: seq<Byte>)
    requires f != []
    ensures NUL in f[|f| - 1 := NUL]
    ensures Cut(f[|f| - 1 := NUL]) == Trunc(f, |f|)
    ensures NUL in f ==> Trunc(f, |f|) == Cut(f)
  {
    var g := f[|f| - 1 := NUL];
    assert g[|f| - 1] == NUL;
    assert Trunc(f, |f|) <= g;
    CutUnique(g, Trunc(f, |f|));
    if NUL in f {
      TerminatedShape(f);
    }
  }

  /** Copying width - 1 bytes and terminating agrees with copying the full width and
      terminating: both fill the field with the same bytes, for every source string. */
  lemma TruncationIdiomsAgree(s: seq<Byte>, w: nat)
    requires w > 0
    ensures StrncpyBytes(s, w - 1) + [NUL] == Field(s, w)
    ensures StrncpyBytes(s, w)[w - 1 := NUL] == Field(s, w)
  {
    var c := Cut(s);
    if |c| < w - 1 {
      assert Zeros(w - 1 - |c|) + [NUL] == Zeros(w - |c|);
      assert Zeros(w - |c|)[w - 1 - |c| := NUL] == Zeros(w - |c|);
    } else {
      assert Zeros(1) == [NUL];
      assert c[..w - 1] + [NUL] == Field(s, w);
      if |c| >= w {
        assert c[..w][w - 1 := NUL] == c[..w - 1] + [NUL];
      } else {
        assert c == c[..w - 1];
      }
    }
  }

  // ---- the C library routines, as loops over arrays

  /** Overwrites a range with NULs. */
  method PadNul(dst: array<Byte>, from: nat, to: nat)
    requires from <= to <= dst.Length
    modifies dst
    ensures dst[..] == old(dst[..from]) + Zeros(to - from) + old(dst[to..])
  {
    var i := from;
    while i < to
      invariant from <= i <= to
      invariant dst[..from] == old(dst[..from]) && dst[i..] == old(dst[i..])
      invariant forall k | from <= k < i :: dst[k] == NUL
    {
      dst[i] := NUL;
      i := i + 1;
    }
    assert dst[..] == dst[..from] + dst[from..to] + dst[to..];
    assert dst[from..to] == Zeros(to - from);
  }

  /** Where copying stopped, at the end of the text or after n characters, padding begins. */
  lemma StrncpyParts(s: seq<Byte>, n: nat, i: nat)
    requires i <= n && i <= |Cut(s)| && (i == n || i == |Cut(s)|)
    ensures Cut(s)[..i] + Zeros(n - i) == StrncpyBytes(s, n)
  {
    assert Cut(s)[..|Cut(s)|] == Cut(s);
  }

  /** strncpy(dst, src, n). */
  method Strncpy(dst: array<Byte>, src: seq<Byte>, n: nat)
    requires n <= dst.Length
    modifies dst
    ensures dst[..] == StrncpyBytes(src, n) + old(dst[n..])
  {
    ghost var c, was := Cut(src), dst[..];
    var i := 0;
    while i < n && i < |src| && src[i] != NUL
      invariant 0 <= i <= n && i <= |c|
      invariant dst[..i] == c[..i] && dst[i..] == was[i..]
    {
      assert i < |c|;
      dst[i] := src[i];
      i := i + 1;
    }
    StrncpyParts(src, n, i);
    assert dst[..i] == c[..i] && dst[n..] == was[n..];
    PadNul(dst, i, n);
  }

  /** The first idiom: strncpy of one byte less than the width, then the terminator. */
  method CopyShort(dst: array<Byte>, src: seq<Byte>)
    requires dst.Length > 0
    modifies dst
    ensures dst[..] == Field(src, dst.Length)
  {
    Strncpy(dst, src, dst.Length - 1);
    dst[dst.Length - 1] := NUL;
    assert dst[..] == StrncpyBytes(src, dst.Length - 1) + [NUL];
    TruncationIdiomsAgree(src, dst.Length);
  }

  /** The second idiom: full-width strncpy, then a forced terminator. */
  method CopyFull(dst: array<Byte>, src: seq<Byte>)
    requires dst.Length > 0
    modifies dst
    ensures dst[..] == Field(src, dst.Length)
  {
    Strncpy(dst, src, dst.Length);
    dst[dst.Length - 1] := NUL;
    assert dst[..] == StrncpyBytes(src, dst.Length)[dst.Length - 1 := NUL];
    TruncationIdiomsAgree(src, dst.Length);
  }

  /** n bytes the language leaves open; residue stands for whatever the platform has there. */
  function Unspecified(n: nat, residue: nat -> Byte): (t: seq<Byte>)
    ensures |t| == n && forall i | 0 <= i < n :: t[i] == residue(i)
  {
    seq(n, (i: nat) => residue(i))
  }

  /** What strncpy_s leaves in a field of width w when asked for at most w - 1 characters: the
      text, a terminator, and whatever the platform puts behind it
      (ISO/IEC 9899:2011, section K.3.7.1.4). */
  function StrncpySBytes(s: seq<Byte>, w: nat, residue: nat -> Byte): (f: seq<Byte>)
    requires w > 0
    ensures |f| == w && NUL in f && Cut(f) == Trunc(s, w)
  {
    var t := Trunc(s, w);
    var tail := Unspecified(w - |t| - 1, residue);
    CutOfTerminated(t, tail);
    assert (t + [NUL] + tail)[|t|] == NUL;
    t + [NUL] + tail
  }

  /** strncpy_s(dst, src, width - 1) on a whole array. */
  method StrncpyS(dst: array<Byte>, src: seq<Byte>, residue: nat -> Byte)
    requires dst.Length > 0
    modifies dst
    ensures dst[..] == StrncpySBytes(src, dst.Length, residue)
  {
    var w := dst.Length;
    var t := Trunc(src, w);
    var c := Cut(src);
    var i := 0;
    while i < w - 1 && i < |src| && src[i] != NUL
      invariant 0 <= i < w && i <= |t| && i <= |c|
      invariant dst[..i] == t[..i]
    {
      assert i < |c|;
      dst[i] := src[i];
      i := i + 1;
    }
    assert i == |t|;
    dst[i] := NUL;
    var k := 0;
    while i + 1 + k < w
      invariant 0 <= k <= w - i - 1
      invariant dst[..i + 1 + k] == t + [NUL] + Unspecified(k, residue)
    {
      dst[i + 1 + k] := residue(k);
      k := k + 1;
    }
    assert dst[..] == dst[..i + 1 + k];
  }

  /** Assigning a char array to a std::string: scan to the first NUL. The scan needs a NUL
      inside the array to stop in bounds. */
  method ScanCString(a: array<Byte>) returns (s: seq<Byte>)
    requires NUL in a[..]
    ensures s == Cut(a[..])
  {
    var n := 0;
    TerminatedShape(a[..]);
    while a[n] != NUL
      invariant 0 <= n <= |Cut(a[..])| < a.Length
      invariant n < |Cut(a[..])| ==> a[n] in Cut(a[..])
      invariant a[|Cut(a[..])|] == NUL
      decreases a.Length - n
    {
      n := n + 1;
    }
    s := a[..n];
  }

  /** The same scan over an array that need not hold a NUL. It stays inside exactly when there is
      one; otherwise it runs off the end, and None stands for whatever that gives. */
  method ScanUnchecked(a: array<Byte>) returns (s: Option<seq<Byte>>)
    ensures s.Some? <==> NUL in a[..]
    ensures s.Some? ==> s.value == Cut(a[..])
  {
    var n := 0;
    while n < a.Length && a[n] != NUL
      invariant 0 <= n <= a.Length && NUL !in a[..n]
    {
      n := n + 1;
    }
    if n == a.Length {
      assert a[..n] == a[..];
      return None;
    }
    CutUnique(a[..], a[..n]);
    return Some(a[..n]);
  }
}
