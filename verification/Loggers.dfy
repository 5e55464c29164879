/** The logger's lines and streams, and its methods as a single thread executes them. */
module Loggers {
  import opened Bytes
  import opened CStrings
  import opened ChatPackets

  /** One stream insertion. */
  datatype Fragment = Text(text: string) | Time(time: int) | Message(bytes: seq<Byte>)

  /** One log line as a value; time is the clock reading behind the printed date. */
  datatype Record = Record(tag: string, time: int, msg: seq<Byte>)

  const FRAGMENTS: nat := 8

  /** The insertions one line consists of, in order. */
  function Line(r: Record): (f: seq<Fragment>)
    ensures |f| == FRAGMENTS
  {
    [Text("["), Time(r.time), Text("] "), Text("["), Text(r.tag), Text("] "), Message(r.msg), Text("\n")]
  }

  function Lines(rs: seq<Record>): seq<Fragment> {
    if rs == [] then [] else Lines(rs[..|rs| - 1]) + Line(rs[|rs| - 1])
  }

  lemma LinesAppend(rs: seq<Record>, r: Record)
    ensures Lines(rs + [r]) == Lines(rs) + Line(r)
  {
    assert (rs + [r])[..|rs|] == rs;
  }

  /** A file that is a sequence of whole lines is so in one way only. */
  lemma {:induction false} LinesInjective(rs: seq<Record>, qs: seq<Record>)
    requires Lines(rs) == Lines(qs)
    ensures rs == qs
    decreases |rs| + |qs|
  {
    LinesLength(rs);
    LinesLength(qs);
    if rs != [] && qs != [] {
      var n, m := |rs| - 1, |qs| - 1;
      var f := Lines(rs);
      assert Line(rs[n]) == f[|f| - FRAGMENTS..];
      assert Line(qs[m]) == f[|f| - FRAGMENTS..];
      assert rs[n].tag == Line(rs[n])[4].text && qs[m].tag == Line(qs[m])[4].text;
      assert rs[n].time == Line(rs[n])[1].time && qs[m].time == Line(qs[m])[1].time;
      assert rs[n].msg == Line(rs[n])[6].bytes && qs[m].msg == Line(qs[m])[6].bytes;
      assert Lines(rs[..n]) == f[..|f| - FRAGMENTS] == Lines(qs[..m]);
      LinesInjective(rs[..n], qs[..m]);
      assert rs == rs[..n] + [rs[n]] && qs == qs[..m] + [qs[m]];
    }
  }

  lemma {:induction false} LinesLength(rs: seq<Record>)
    ensures |Lines(rs)| == FRAGMENTS * |rs|
  {
    if rs != [] {
      LinesLength(rs[..|rs| - 1]);
    }
  }

  function Ascii(s: string): seq<Byte> {
    seq(|s|, i requires 0 <= i < |s| => s[i] as int % 256)
  }

  /** Decimal digits, most significant first. */
  function Decimal(n: nat): seq<Byte> {
    (if n < 10 then [] else Decimal(n / 10)) + [48 + n % 10]
  }

  /** The number a row of decimal digits stands for. */
  function Numeral(ds: seq<Byte>): nat {
    if ds == [] then 0
    else 10 * Numeral(ds[..|ds| - 1]) + if ds[|ds| - 1] >= 48 then ds[|ds| - 1] - 48 else 0
  }

  /** Decimal writes digits only, without leading zeros, and they stand for the number. */
  lemma {:induction false} DecimalStandsFor(n: nat)
    ensures var ds := Decimal(n);
            && ds != [] && (forall d | d in ds :: 48 <= d <= 57)
            && (n > 0 ==> ds[0] != 48) && (n == 0 ==> ds == [48])
            && Numeral(ds) == n
  {
    var ds := Decimal(n);
    if n >= 10 {
      DecimalStandsFor(n / 10);
      assert ds[..|ds| - 1] == Decimal(n / 10);
    } else {
      assert ds == [48 + n];
    }
  }

  /** A chat line names the session by its decimal id, then holds the sender's text and the message,
      whole; for one session and sender length it determines both. */
  lemma ChatTextHolds(d: ChatMessageData, sid: U64)
    ensures var t, k := ChatText(d, sid), |Decimal(sid)|;
            && t[..14] == Ascii("Chat [session ") && t[14..14 + k] == Decimal(sid)
            && t[14 + k..17 + k] == Ascii("] [") && t[17 + k..17 + k + |d.sender|] == d.sender
            && t[17 + k + |d.sender|..19 + k + |d.sender|] == Ascii("] ")
            && t[19 + k + |d.sender|..] == d.message
  {
    var head, mid, end := Ascii("Chat [session "), Ascii("] ["), Ascii("] ");
    assert |head| == 14 && |mid| == 3 && |end| == 2;
    SixParts(head, Decimal(sid), mid, d.sender, end, d.message);
  }

  lemma SixParts<T>(a: seq<T>, b: seq<T>, c: seq<T>, d: seq<T>, e: seq<T>, f: seq<T>)
    ensures var t := a + b + c + d + e + f;
            var i, j, k, l := |a|, |a| + |b|, |a| + |b| + |c|, |a| + |b| + |c| + |d|;
            && |t| == l + |e| + |f|
            && t[..i] == a && t[i..j] == b && t[j..k] == c && t[k..l] == d && t[l..l + |e|] == e && t[l + |e|..] == f
  {
  }


  predicate IsDigit(d: Byte) { 48 <= d <= 57 }

  function LeadingDigits(t: seq<Byte>): seq<Byte> {
    if t == [] || !IsDigit(t[0]) then [] else [t[0]] + LeadingDigits(t[1..])
  }

  lemma {:induction false} DigitsThen(a: seq<Byte>, r: seq<Byte>)
    requires (forall d | d in a :: IsDigit(d)) && r != [] && !IsDigit(r[0])
    ensures LeadingDigits(a + r) == a
  {
    if a == [] {
      assert a + r == r;
    } else {
      DigitsThen(a[1..], r);
      assert (a + r)[1..] == a[1..] + r;
    }
  }

  lemma Regroup<T>(a: seq<T>, b: seq<T>, c: seq<T>, d: seq<T>, e: seq<T>, f: seq<T>)
    ensures (a + b + c + d + e + f)[|a|..] == b + (c + d + e + f)
  {
  }

  lemma SessionInText(d: ChatMessageData, sid: U64)
    ensures |ChatText(d, sid)| >= 14 && LeadingDigits(ChatText(d, sid)[14..]) == Decimal(sid)
  {
    var head, r := Ascii("Chat [session "), Ascii("] [") + d.sender + Ascii("] ") + d.message;
    DecimalStandsFor(sid);
    Regroup(head, Decimal(sid), Ascii("] ["), d.sender, Ascii("] "), d.message);
    assert |head| == 14 && ChatText(d, sid)[14..] == Decimal(sid) + r;
    assert r[0] == Ascii("] [")[0] == 93;
    DigitsThen(Decimal(sid), r);
  }

  /** Lines of different sessions differ. */
  lemma ChatTextNamesSession(d: ChatMessageData, sid: U64, e: ChatMessageData, other: U64)
    requires ChatText(d, sid) == ChatText(e, other)
    ensures sid == other
  {
    SessionInText(d, sid);
    SessionInText(e, other);
    DecimalStandsFor(sid);
    DecimalStandsFor(other);
  }

  /** The message Chat hands to Info. */
  function ChatText(d: ChatMessageData, sid: U64): seq<Byte> {
    Ascii("Chat [session ") + Decimal(sid) + Ascii("] [") + d.sender + Ascii("] ") + d.message
  }

  /** An output file stream: what was inserted, and how much of it has been flushed. */
  class OutStream {
    var isOpen: bool
    var written: seq<Fragment>
    var flushed: nat

    constructor (opens: bool)
      ensures isOpen == opens && written == [] && flushed == 0
    {
      isOpen, written, flushed := opens, [], 0;
    }

    method Insert(f: Fragment)
      requires isOpen
      modifies `written
      ensures written == old(written) + [f]
    {
      written := written + [f];
    }

    method Flush()
      modifies `flushed
      ensures flushed == |written|
    {
      flushed := |written|;
    }

    method Close()
      modifies `isOpen, `flushed
      ensures !isOpen && flushed == |written|
    {
      isOpen, flushed := false, |written|;
    }
  }

  /** A mutex that is not recursive: a thread that holds it must not lock it again. sections counts
      the critical sections entered. */
  class Mutex {
    var holder: Option<nat>
    ghost var sections: nat

    constructor ()
      ensures holder == None && sections == 0
    {
      holder, sections := None, 0;
    }

    /** Thread me takes the mutex, or waits, changing nothing, while another thread holds it. */
    method Lock(me: nat) returns (got: bool)
      requires holder != Some(me)
      modifies this
      ensures got <==> old(holder) == None
      ensures holder == if got then Some(me) else old(holder)
      ensures sections == old(sections) + if got then 1 else 0
    {
      got := holder == None;
      if got {
        holder, sections := Some(me), sections + 1;
      }
    }

    method Unlock(me: nat)
      requires holder == Some(me)
      modifies `holder
      ensures holder == None
    {
      holder := None;
    }
  }

  /** Every public method is called by a thread, me, that does not hold the mutex. It returns true
      when the call is done, and false, with nothing changed, as long as it has to wait at its
      lock_guard for another thread. */
  class Logger {
    const info: OutStream
    const error: OutStream
    const mtx: Mutex

    /** Init: either file may fail to open. */
    constructor (infoOpens: bool, errorOpens: bool)
      ensures fresh(info) && fresh(error) && fresh(mtx) && Valid() && mtx.holder == None
      ensures info.isOpen == infoOpens && info.written == []
      ensures error.isOpen == errorOpens && error.written == []
    {
      info := new OutStream(infoOpens);
      error := new OutStream(errorOpens);
      mtx := new Mutex();
    }

    ghost predicate Valid() { info != error }

    /** Under the lock, both streams are closed with everything written to them flushed. */
    method Shutdown(me: nat) returns (done: bool)
      requires Valid() && mtx.holder != Some(me)
      modifies info, error, mtx
      ensures done <==> old(mtx.holder) == None
      ensures mtx.holder == old(mtx.holder) && mtx.sections == old(mtx.sections) + if done then 1 else 0
      ensures info.written == old(info.written) && error.written == old(error.written)
      ensures info.isOpen == (!done && old(info.isOpen)) && error.isOpen == (!done && old(error.isOpen))
      ensures info.flushed == if done && old(info.isOpen) then |info.written| else old(info.flushed)
      ensures error.flushed == if done && old(error.isOpen) then |error.written| else old(error.flushed)
    {
      done := mtx.Lock(me);
      if !done { return; }
      if info.isOpen { info.Close(); }
      if error.isOpen { error.Close(); }
      mtx.Unlock(me);
    }

    /** One whole line, flushed, if the stream is open; now is the clock reading. The caller holds
        the lock, and this method cannot give it up. */
    method WriteLineTo(out: OutStream, tag: string, msg: seq<Byte>, now: int)
      requires mtx.holder.Some?
      modifies out
      ensures mtx.holder == old(mtx.holder) && mtx.sections == old(mtx.sections)
      ensures out.isOpen == old(out.isOpen)
      ensures out.written == old(out.written) + if out.isOpen then Line(Record(tag, now, msg)) else []
      ensures out.flushed == if out.isOpen then |out.written| else old(out.flushed)
    {
      if !out.isOpen { return; }
      out.Insert(Text("["));
      out.Insert(Time(now));
      out.Insert(Text("] "));
      out.Insert(Text("["));
      out.Insert(Text(tag));
      out.Insert(Text("] "));
      out.Insert(Message(msg));
      out.Insert(Text("\n"));
      out.Flush();
    }

    /** A flushed line in the info file, written in one critical section. */
    method Info(me: nat, msg: seq<Byte>, now: int) returns (done: bool)
      requires mtx.holder != Some(me)
      modifies info, mtx
      ensures done <==> old(mtx.holder) == None
      ensures mtx.holder == old(mtx.holder) && mtx.sections == old(mtx.sections) + if done then 1 else 0
      ensures info.isOpen == old(info.isOpen)
      ensures info.written == old(info.written) +
                if done && info.isOpen then Line(Record("Info", now, msg)) else []
      ensures info.flushed == if done && info.isOpen then |info.written| else old(info.flushed)
    {
      done := mtx.Lock(me);
      if !done { return; }
      WriteLineTo(info, "Info", msg, now);
      mtx.Unlock(me);
    }

    /** A flushed line in the info file, written in one critical section. */
    method Warn(me: nat, msg: seq<Byte>, now: int) returns (done: bool)
      requires mtx.holder != Some(me)
      modifies info, mtx
      ensures done <==> old(mtx.holder) == None
      ensures mtx.holder == old(mtx.holder) && mtx.sections == old(mtx.sections) + if done then 1 else 0
      ensures info.isOpen == old(info.isOpen)
      ensures info.written == old(info.written) +
                if done && info.isOpen then Line(Record("Warn", now, msg)) else []
      ensures info.flushed == if done && info.isOpen then |info.written| else old(info.flushed)
    {
      done := mtx.Lock(me);
      if !done { return; }
      WriteLineTo(info, "Warn", msg, now);
      mtx.Unlock(me);
    }

    /** A flushed line in the error file, written in one critical section. */
    method Error(me: nat, msg: seq<Byte>, now: int) returns (done: bool)
      requires mtx.holder != Some(me)
      modifies error, mtx
      ensures done <==> old(mtx.holder) == None
      ensures mtx.holder == old(mtx.holder) && mtx.sections == old(mtx.sections) + if done then 1 else 0
      ensures error.isOpen == old(error.isOpen)
      ensures error.written == old(error.written) +
                if done && error.isOpen then Line(Record("Error", now, msg)) else []
      ensures error.flushed == if done && error.isOpen then |error.written| else old(error.flushed)
    {
      done := mtx.Lock(me);
      if !done { return; }
      WriteLineTo(error, "Error", msg, now);
      mtx.Unlock(me);
    }

    /** The text is put together before the lock is taken; the only critical section is Info's own. */
    method Chat(me: nat, d: ChatMessageData, sid: U64, now: int) returns (done: bool)
      requires mtx.holder != Some(me)
      modifies info, mtx
      ensures done <==> old(mtx.holder) == None
      ensures mtx.holder == old(mtx.holder) && mtx.sections == old(mtx.sections) + if done then 1 else 0
      ensures info.isOpen == old(info.isOpen)
      ensures info.written == old(info.written) +
                if done && info.isOpen then Line(Record("Info", now, ChatText(d, sid))) else []
      ensures info.flushed == if done && info.isOpen then |info.written| else old(info.flushed)
    {
      var oss := Ascii("Chat [session ") + Decimal(sid) + Ascii("] [") + d.sender + Ascii("] ") + d.message;
      done := Info(me, oss, now);
    }
  }
}
