/** The per-session receive buffer: a circular byte queue over a fixed array. */
module RingBuffers {
  import opened Bytes

  /** Index x of the circle, for x at most one turn ahead. */
  function Wrap(x: nat, n: nat): (r: nat)
    requires x < 2 * n
    ensures r < n
  {
    if x < n then x else x - n
  }

  lemma ModIsWrap(x: nat, n: nat)
    requires 0 < n && x < 2 * n
    ensures x % n == Wrap(x, n)
  {
    if x >= n {
      assert x == n + (x - n);
    }
  }

  /** The size bytes of circle b that start at head, in queue order. */
  function View(b: seq<Byte>, head: nat, size: nat): (v: seq<Byte>)
    requires head < |b| && size <= |b|
    ensures |v| == size
  {
    seq(size, (i: nat) requires i < size => b[Wrap(head + i, |b|)])
  }

  /** Writing a run into free space at the tail appends it to the view. */
  lemma ViewAppend(b: seq<Byte>, head: nat, size: nat, run: seq<Byte>)
    requires head < |b| && size + |run| <= |b|
    requires run != [] && Wrap(head + size, |b|) + |run| <= |b|
    ensures var tail := Wrap(head + size, |b|);
            var c := b[..tail] + run + b[tail + |run|..];
            |c| == |b| && View(c, head, size + |run|) == View(b, head, size) + run
  {
    var tail := Wrap(head + size, |b|);
    var c := b[..tail] + run + b[tail + |run|..];
    var v, w := View(c, head, size + |run|), View(b, head, size);
    forall i | 0 <= i < size + |run| ensures v[i] == (w + run)[i] {
      var at := Wrap(head + i, |b|);
      if i < size {
        assert at < tail || at >= tail + |run|;
      } else {
        assert at == tail + (i - size);
      }
    }
    assert v == w + run;
  }

  lemma ViewDrop(b: seq<Byte>, head: nat, size: nat, n: nat)
    requires head < |b| && n <= size <= |b|
    ensures View(b, Wrap(head + n, |b|), size - n) == View(b, head, size)[n..]
  {
    var v, w := View(b, head, size), View(b, Wrap(head + n, |b|), size - n);
    forall i | 0 <= i < size - n ensures w[i] == v[n..][i] {
      assert Wrap(Wrap(head + n, |b|) + i, |b|) == Wrap(head + (n + i), |b|);
      assert v[n + i] == b[Wrap(head + (n + i), |b|)];
    }
    assert w == v[n..];
  }

  /** A run at the head that does not cross the end of the array is a slice of it. */
  lemma ViewSplit(b: seq<Byte>, head: nat, size: nat, n: nat)
    requires head < |b| && size <= |b| && n <= size
    requires head + n <= |b|
    ensures View(b, head, size)[..n] == b[head..head + n]
    ensures View(b, head, size) == b[head..head + n] + View(b, Wrap(head + n, |b|), size - n)
  {
    var v := View(b, head, size);
    forall i | 0 <= i < n ensures v[i] == b[head..head + n][i] {
      assert v[i] == b[Wrap(head + i, |b|)];
    }
    assert v[..n] == b[head..head + n];
    ViewDrop(b, head, size, n);
    assert v == v[..n] + v[n..];
  }

  /** The front of the queue is one run of the array, or two with the wrap between them. */
  lemma ViewTwoSpans(b: seq<Byte>, head: nat, size: nat, first: nat, n: nat)
    requires head < |b| && size <= |b| && first <= n <= size && head + first <= |b|
    requires Wrap(head + first, |b|) + (n - first) <= |b|
    ensures var next := Wrap(head + first, |b|);
            View(b, head, size)[..n] == b[head..head + first] + b[next..next + (n - first)]
  {
    var next := Wrap(head + first, |b|);
    ViewSplit(b, head, size, first);
    ViewSplit(b, next, size - first, n - first);
    var front, back := b[head..head + first], View(b, next, size - first);
    assert (front + back)[..n] == front + back[..n - first];
  }

  /** The second copy of a peek does not cross the end of the array. */
  lemma SecondSpan(head: nat, size: nat, n: nat, first: nat, len: nat)
    requires head < n && len <= size <= n && first == Min(Min(n - head, size), len)
    ensures Wrap(head + first, n) + (len - first) <= n
  {
  }

  /** A target overwritten with a run, giving mid, and then with another one behind it. */
  lemma TwoOverlays(was: seq<Byte>, x: seq<Byte>, y: seq<Byte>, mid: seq<Byte>, end: seq<Byte>)
    requires |x| + |y| <= |was|
    requires mid == was[..0] + x + was[|x|..]
    requires end == mid[..|x|] + y + mid[|x| + |y|..]
    ensures end == x + y + was[|x| + |y|..]
  {
    assert mid[..|x|] == x && mid[|x| + |y|..] == was[|x| + |y|..];
  }

  /** The first k bytes of the target, which was, are those of all. */
  predicate HasRead(now: seq<Byte>, all: seq<Byte>, was: seq<Byte>, k: nat) {
    k <= |all| && k <= |was| && now == all[..k] + was[k..]
  }

  /** A target that holds the first k bytes of all, and gets the next n of them. */
  lemma ReadOn(all: seq<Byte>, was: seq<Byte>, k: nat, n: nat, mid: seq<Byte>, end: seq<Byte>)
    requires k + n <= |all| && k + n <= |was| && HasRead(mid, all, was, k)
    requires end == mid[..k] + all[k..][..n] + mid[k + n..]
    ensures HasRead(end, all, was, k + n)
    ensures all[k..][n..] == all[k + n..]
  {
    assert mid[..k] == all[..k] && mid[k + n..] == was[k + n..];
    assert all[..k] + all[k..][..n] == all[..k + n];
  }

  class RingBuffer {
    const buf: array<Byte>
    var head: nat
    var tail: nat
    var size: nat

    ghost predicate Valid()
      reads this
    {
      && head < buf.Length && tail < buf.Length && size <= buf.Length
      && tail == Wrap(head + size, buf.Length)
    }

    ghost function Contents(): seq<Byte>
      requires Valid()
      reads this, buf
    {
      View(buf[..], head, size)
    }

    constructor (capacity: nat)
      ensures Valid() && fresh(buf) && Contents() == []
      ensures buf.Length == if capacity >= 1024 then capacity else 1024
    {
      buf := new Byte[if capacity >= 1024 then capacity else 1024](_ => NUL);
      head, tail, size := 0, 0, 0;
    }

    function Readable(): (n: nat)
      requires Valid()
      reads this, buf
      ensures n == |Contents()|
    {
      size
    }

    function Writable(): (n: nat)
      requires Valid()
      reads this, buf
      ensures n + |Contents()| == buf.Length
    {
      buf.Length - size
    }

    method Clear()
      requires Valid()
      modifies this
      ensures Valid() && Contents() == []
    {
      head, tail, size := 0, 0, 0;
    }

    /** One memcpy of Append: a run that fits before the end of the array. */
    method Put(src: array<Byte>, from: nat, n: nat)
      requires Valid() && src != buf && from + n <= src.Length
      requires 0 < n && tail + n <= buf.Length && size + n <= buf.Length
      modifies this, buf
      ensures Valid() && size == old(size) + n
      ensures Contents() == old(Contents()) + src[from..from + n]
    {
      ghost var before := buf[..];
      ViewAppend(before, head, size, src[from..from + n]);
      Memcpy(buf, tail, src, from, n);
      assert buf[..] == before[..tail] + src[from..from + n] + before[tail + n..];
      ModIsWrap(tail + n, buf.Length);
      tail := (tail + n) % buf.Length;
      size := size + n;
    }

    /** Appends as much of src[..n] as there is room for. */
    method Append(src: array<Byte>, n: nat) returns (written: nat)
      requires Valid() && n <= src.Length && src != buf
      modifies this, buf
      ensures Valid()
      ensures written == Min(n, buf.Length - old(|Contents()|))
      ensures Contents() == old(Contents()) + src[..written]
    {
      if n == 0 || Writable() == 0 { return 0; }
      written := 0;
      while written < n && size < buf.Length
        invariant Valid() && written <= n
        invariant size == old(size) + written
        invariant Contents() == old(Contents()) + src[..written]
      {
        var tillEnd := buf.Length - tail;
        var free := buf.Length - size;
        var span := Min(tillEnd, free);
        var chunk := Min(span, n - written);
        Put(src, written, chunk);
        assert src[..written + chunk] == src[..written] + src[written..written + chunk];
        written := written + chunk;
      }
    }

    /** One memcpy of Read: a run that does not cross the end of the array. */
    method Take(dst: array<Byte>, at: nat, n: nat)
      requires Valid() && dst != buf && at + n <= dst.Length
      requires n <= size && head + n <= buf.Length
      modifies this, dst
      ensures Valid() && size == old(size) - n
      ensures dst[..] == old(dst[..])[..at] + old(Contents())[..n] + old(dst[..])[at + n..]
      ensures Contents() == old(Contents())[n..]
    {
      ViewSplit(buf[..], head, size, n);
      ViewDrop(buf[..], head, size, n);
      CopyOut(dst, at, head, n);
      ModIsWrap(head + n, buf.Length);
      head := (head + n) % buf.Length;
      size := size - n;
    }

    /** Moves up to len bytes from the front of the queue to the start of dst. */
    method Read(dst: array<Byte>, len: nat) returns (got: nat)
      requires Valid() && len <= dst.Length && dst != buf
      modifies this, dst
      ensures Valid()
      ensures got == Min(len, old(|Contents()|))
      ensures dst[..] == old(Contents())[..got] + old(dst[got..])
      ensures Contents() == old(Contents())[got..]
    {
      if len == 0 || size == 0 { return 0; }
      got := 0;
      ghost var all, was := Contents(), dst[..];
      while got < len && size > 0
        invariant Valid() && got <= len && got + size == |all|
        invariant Contents() == all[got..]
        invariant HasRead(dst[..], all, was, got)
      {
        var tillEnd := buf.Length - head;
        var span := Min(tillEnd, size);
        var chunk := Min(span, len - got);
        TakeOn(dst, got, chunk, all, was);
        got := got + chunk;
      }
    }

    /** A chunk more of all, of which the first at bytes are read already. */
    method TakeOn(dst: array<Byte>, at: nat, n: nat, ghost all: seq<Byte>, ghost was: seq<Byte>)
      requires Valid() && dst != buf && n <= size && head + n <= buf.Length
      requires at + n <= dst.Length && |was| == dst.Length && at + size == |all|
      requires Contents() == all[at..] && HasRead(dst[..], all, was, at)
      modifies this, dst
      ensures Valid() && size == old(size) - n
      ensures Contents() == all[at + n..] && HasRead(dst[..], all, was, at + n)
    {
      ghost var mid := dst[..];
      Take(dst, at, n);
      ReadOn(all, was, at, n, mid, dst[..]);
    }

    /** One memcpy out of the circle. */
    method CopyOut(dst: array<Byte>, at: nat, from: nat, n: nat)
      requires dst != buf && at + n <= dst.Length && from + n <= buf.Length
      modifies dst
      ensures dst[..] == old(dst[..])[..at] + buf[..][from..from + n] + old(dst[..])[at + n..]
    {
      ghost var was := dst[..];
      Memcpy(dst, at, buf, from, n);
      assert dst[..] == was[..at] + buf[..][from..from + n] + was[at + n..];
    }

    /** The position k behind i on the circle. */
    method Advance(i: nat, k: nat) returns (r: nat)
      requires i < buf.Length && k <= buf.Length
      ensures r == Wrap(i + k, buf.Length)
    {
      ModIsWrap(i + k, buf.Length);
      r := (i + k) % buf.Length;
    }

    /** Two runs of the array, one behind the other. */
    method CopyTwo(dst: array<Byte>, h: nat, first: nat, next: nat, remain: nat)
      requires dst != buf && first + remain <= dst.Length
      requires h + first <= buf.Length && next + remain <= buf.Length
      modifies dst
      ensures dst[..] == buf[..][h..h + first] + buf[..][next..next + remain] + old(dst[..])[first + remain..]
    {
      ghost var b, was := buf[..], dst[..];
      CopyOut(dst, 0, h, first);
      ghost var mid := dst[..];
      if remain > 0 {
        CopyOut(dst, first, next, remain);
      }
      TwoOverlays(was, b[h..h + first], b[next..next + remain], mid, dst[..]);
    }

    /** Copies the first len bytes without consuming them, if there are that many. */
    method Peek(dst: array<Byte>, len: nat) returns (ok: bool)
      requires Valid() && len <= dst.Length && dst != buf
      modifies dst
      ensures ok <==> len <= |Contents()|
      ensures dst[..] == if ok then Contents()[..len] + old(dst[len..]) else old(dst[..])
    {
      if len > size { return false; }
      if len == 0 { return true; }
      var firstSpan := Min(buf.Length - head, size);
      var first := Min(firstSpan, len);
      SecondSpan(head, size, buf.Length, first, len);
      ViewTwoSpans(buf[..], head, size, first, len);
      var next := Advance(head, first);
      CopyTwo(dst, head, first, next, len - first);
      return true;
    }

    /** Consumes len bytes without copying them, if there are that many. */
    method Discard(len: nat) returns (ok: bool)
      requires Valid()
      modifies this
      ensures Valid()
      ensures ok <==> len <= old(|Contents()|)
      ensures Contents() == if ok then old(Contents())[len..] else old(Contents())
    {
      if len > size { return false; }
      ViewDrop(buf[..], head, size, len);
      ModIsWrap(head + len, buf.Length);
      head := (head + len) % buf.Length;
      size := size - len;
      return true;
    }
  }
}
