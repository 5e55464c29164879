/** One session's outgoing queue under concurrency: EnqueueSend, PostSend and SendCompletion run by
    any number of worker threads against the atomic flag `sending`. Every flag access, every queue
    access under the session mutex, every WSASend, every return from PostSend and every portion of
    bytes the kernel transmits is a step of its own; a schedule is a sequence of choices, so "for
    every schedule" is "for every interleaving". */
module SendQueue {
  import opened Bytes
  import opened CStrings

  type Packet = seq<Byte>

  /** At most this many packets are merged into one WSASend. */
  const MERGE: nat := 16

  /** Who queued a packet: a thread, for this session; or the previous user of the session object. */
  datatype Source = LeftOver | QueuedBy(thread: nat)

  datatype Entry = Entry(source: Source, packet: Packet)

  datatype Pc =
    | Idle
    | Entering(p: Packet)           // about to call EnqueueSend for the previous client
    | Pushing(p: Packet, stale: bool)  // EnqueueSend, past the closing test; for the previous client?
    | Exchanging                    // packet queued; sending.exchange(true) is next
    | Posting                       // PostSend, before its closing test
    | Taking                        // PostSend, about to empty the queue under the mutex
    | Clearing                      // PostSend found nothing; sending = false is next
    | Sending(batch: seq<Entry>)    // PostSend, about to call WSASend
    | Returning                     // WSASend accepted the batch; toSend is destroyed next

  datatype Thread = Thread(pc: Pc, program: seq<Packet>)

  /** An outstanding WSASend: the thread whose PostSend made it, the bytes not transmitted yet, and
      whether that PostSend has returned and so destroyed the buffers they are read from. */
  datatype Flight = Flight(thread: nat, rest: seq<Byte>, freed: bool)

  datatype Owner = Nobody | Worker(thread: nat) | Kernel

  /** The connection below: whether it is gone, the outstanding WSASends, and what went out, with
      None for a byte read from a destroyed buffer. */
  datatype Net = Net(broken: bool, flights: seq<Flight>, wire: seq<Option<Byte>>)

  /** What happened so far: the packets in the queue at the start, those queued since, those handed
      to WSASend, those it refused, and whether a packet is stranded. */
  datatype Past = Past(
    leftover: seq<Entry>, pushed: seq<Entry>, handed: seq<Entry>, lost: seq<Entry>, overtaken: bool)

  /** owner and past record history; no step tests them. */
  datatype State = State(
    queue: seq<Entry>, sending: bool, closing: bool, net: Net, threads: seq<Thread>,
    owner: Owner, past: Past)

  datatype Choice =
    | Run(thread: nat)                    // the thread takes its next step
    | Fail(thread: nat)                   // the thread's WSASend fails at once
    | Transmit(flight: nat, count: nat)   // the kernel sends up to count more bytes of a WSASend
    | Complete(thread: nat, flight: nat)  // an idle thread picks up a finished WSASend
    | Break                               // the connection is lost; nothing more is transmitted
    | CloseIt                             // the session is closed for another reason

  function Goto(s: State, i: nat, pc: Pc): State
    requires i < |s.threads|
  {
    s.(threads := s.threads[i := s.threads[i].(pc := pc)])
  }

  function EntryOf(i: nat, p: Packet, stale: bool): Entry {
    Entry(if stale then LeftOver else QueuedBy(i), p)
  }

  function Merged(q: seq<Entry>): (batch: seq<Entry>)
    ensures batch <= q
  {
    if |q| <= MERGE then q else q[..MERGE]
  }

  /** The bytes of some packets, one after another. */
  function Payload(es: seq<Entry>): seq<Byte> {
    if es == [] then [] else es[0].packet + Payload(es[1..])
  }

  /** Thread i's PostSend returns: what it has outstanding now reads from destroyed buffers. */
  function Freed(fs: seq<Flight>, i: nat): (r: seq<Flight>)
    ensures |r| == |fs|
  {
    seq(|fs|, k requires 0 <= k < |fs| => if fs[k].thread == i then fs[k].(freed := true) else fs[k])
  }

  function Aborted(fs: seq<Flight>): (r: seq<Flight>)
    ensures |r| == |fs|
  {
    seq(|fs|, k requires 0 <= k < |fs| => fs[k].(rest := []))
  }

  /** What the wire gets from the next m bytes of a WSASend. */
  function Out(f: Flight, m: nat): (w: seq<Option<Byte>>)
    requires m <= |f.rest|
    ensures |w| == m
  {
    seq(m, k requires 0 <= k < m => if f.freed then None else Some(f.rest[k]))
  }

  predicate OwnerAtClear(s: State) {
    s.owner.Worker? && s.owner.thread < |s.threads| && s.threads[s.owner.thread].pc.Clearing?
  }

  /** WSASend reports an error: the session is closed and the batch is gone. */
  function SendFails(s: State, i: nat): State
    requires i < |s.threads| && s.threads[i].pc.Sending?
  {
    Goto(s, i, Idle).(closing := true, owner := Nobody,
                      past := s.past.(lost := s.past.lost + s.threads[i].pc.batch))
  }

  function StepThread(s: State, i: nat): (t: State)
    requires i < |s.threads|
    ensures |t.threads| == |s.threads|
    ensures forall j | 0 <= j < |s.threads| && j != i :: t.threads[j] == s.threads[j]
    ensures !s.threads[i].pc.Pushing? ==> t.past.pushed == s.past.pushed
    ensures !s.threads[i].pc.Idle? ==>
              && t.threads[i].program == s.threads[i].program
              && (t.threads[i].pc.Pushing? ==> s.threads[i].pc.Entering? && t.threads[i].pc.stale)
  {
    var th := s.threads[i];
    match th.pc
    case Idle =>
      if th.program == [] then s
      else
        var pc := if s.closing then Idle else Pushing(th.program[0], false);
        s.(threads := s.threads[i := Thread(pc, th.program[1..])])
    case Entering(p) =>
      Goto(s, i, if s.closing then Idle else Pushing(p, true))
    case Pushing(p, stale) =>
      var e := EntryOf(i, p, stale);
      Goto(s, i, Exchanging).(
        queue := s.queue + [e],
        past := s.past.(pushed := s.past.pushed + [e], overtaken := s.past.overtaken || OwnerAtClear(s)))
    case Exchanging =>
      if s.sending then Goto(s, i, Idle)
      else Goto(s, i, Posting).(sending := true, owner := Worker(i))
    case Posting =>
      if s.closing then Goto(s, i, Idle).(owner := Nobody) else Goto(s, i, Taking)
    case Taking =>
      var batch := Merged(s.queue);
      Goto(s, i, if batch == [] then Clearing else Sending(batch)).(
        queue := s.queue[|batch|..], past := s.past.(overtaken := false))
    case Clearing =>
      Goto(s, i, Idle).(sending := false, owner := Nobody)
    case Sending(batch) =>
      if s.net.broken then SendFails(s, i)
      else
        Goto(s, i, Returning).(
          past := s.past.(handed := s.past.handed + batch), owner := Kernel,
          net := s.net.(flights := s.net.flights + [Flight(i, Payload(batch), false)]))
    case Returning =>
      Goto(s, i, Idle).(net := s.net.(flights := Freed(s.net.flights, i)))
  }

  function Step(s: State, c: Choice): State {
    match c
    case Run(i) => if i < |s.threads| then StepThread(s, i) else s
    case Fail(i) => if i < |s.threads| && s.threads[i].pc.Sending? then SendFails(s, i) else s
    case Transmit(k, n) =>
      if k < |s.net.flights| then
        var f := s.net.flights[k];
        var m := Min(n, |f.rest|);
        s.(net := s.net.(wire := s.net.wire + Out(f, m), flights := s.net.flights[k := f.(rest := f.rest[m..])]))
      else s
    case Complete(i, k) =>
      if i < |s.threads| && s.threads[i].pc.Idle? && k < |s.net.flights| && s.net.flights[k].rest == [] then
        Goto(s, i, Posting).(owner := Worker(i),
                             net := s.net.(flights := s.net.flights[..k] + s.net.flights[k + 1..]))
      else s
    case Break => s.(net := s.net.(broken := true, flights := Aborted(s.net.flights)))
    case CloseIt => s.(closing := true)
  }

  function RunAll(s: State, sched: seq<Choice>): State
    decreases |sched|
  {
    if sched == [] then s else RunAll(Step(s, sched[0]), sched[1..])
  }

  /** Whatever a thread is still doing for the previous client: its packets are left over. */
  predicate Stale(pc: Pc) {
    match pc
    case Pushing(_, stale) => stale
    case Sending(batch) => forall e | e in batch :: e.source.LeftOver?
    case _ => true
  }

  /** A session object as AcceptCompletion hands it to a new client: the flags are reset, the queue
      is not, threads may be anywhere in EnqueueSend and PostSend for the previous client, and its
      WSASends may still have to be picked up. */
  predicate Reused(s: State) {
    && !s.sending && !s.closing && !s.net.broken && s.owner == Nobody
    && s.queue == s.past.leftover && (forall e | e in s.past.leftover :: e.source.LeftOver?)
    && s.past.pushed == [] && s.past.handed == [] && s.past.lost == [] && s.net.wire == []
    && (s.past.overtaken <==> s.queue != [])
    && (forall k | 0 <= k < |s.net.flights| :: s.net.flights[k].rest == [])
    && forall i | 0 <= i < |s.threads| :: Stale(s.threads[i].pc)
  }

  /** The same with no WSASend outstanding and nobody on the way to one. */
  predicate Initial(s: State) {
    && Reused(s) && s.net.flights == []
    && forall i | 0 <= i < |s.threads| :: !InPostSend(s.threads[i].pc)
  }

  // ---- the inductive invariant

  /** Inside PostSend, up to and including its call of WSASend. */
  predicate InPostSend(pc: Pc) {
    pc.Posting? || pc.Taking? || pc.Clearing? || pc.Sending?
  }

  /** Only one worker at a time is on its way to WSASend, and never beside an outstanding one. */
  predicate OneSender(s: State) {
    && (s.owner.Worker? ==> s.owner.thread < |s.threads|)
    && (forall i | 0 <= i < |s.threads| :: InPostSend(s.threads[i].pc) <==> s.owner == Worker(i))
    && |s.net.flights| == (if s.owner.Kernel? then 1 else 0)
    && (s.owner != Nobody ==> s.sending)
    && (s.sending && !s.closing ==> s.owner != Nobody)
  }

  function InHand(s: State): seq<Entry> {
    if s.owner.Worker? && s.owner.thread < |s.threads| && s.threads[s.owner.thread].pc.Sending?
    then s.threads[s.owner.thread].pc.batch else []
  }

  /** Every packet queued was handed to WSASend, is in a sender's hand, still queued, or was in the
      one batch WSASend refused -- in the order of queueing. */
  predicate InOrder(s: State) {
    && s.past.handed + s.past.lost + InHand(s) + s.queue == s.past.leftover + s.past.pushed
    && (s.past.lost != [] ==> s.closing && s.sending && s.owner == Nobody)
  }

  predicate NoneExchanging(s: State) {
    forall i | 0 <= i < |s.threads| :: !s.threads[i].pc.Exchanging?
  }

  /** The flag is only trusted while it is false and nobody is about to test it: then a packet is
      left in the queue exactly when a push overtook the clearing of the flag. */
  predicate OvertakenOk(s: State) {
    && (OwnerAtClear(s) ==> (s.queue != [] <==> s.past.overtaken))
    && (!s.sending && NoneExchanging(s) ==> (s.queue != [] <==> s.past.overtaken))
  }

  predicate Invariant(s: State) {
    OneSender(s) && InOrder(s) && OvertakenOk(s)
  }

  lemma OnlyOneMoves(s: State, i: nat)
    requires i < |s.threads|
    ensures |StepThread(s, i).threads| == |s.threads|
    ensures forall j | 0 <= j < |s.threads| && j != i :: StepThread(s, i).threads[j] == s.threads[j]
  {
  }

  lemma OneSenderRun(s: State, i: nat)
    requires OneSender(s) && i < |s.threads|
    ensures OneSender(StepThread(s, i))
  {
    var t := StepThread(s, i);
    OnlyOneMoves(s, i);
    if InPostSend(s.threads[i].pc) {
      assert s.owner == Worker(i);
      assert t.owner == Worker(i) <==> InPostSend(t.threads[i].pc);
    } else {
      assert s.owner != Worker(i);
      assert t.owner == s.owner || (t.owner == Worker(i) && s.owner == Nobody);
      assert t.owner == Worker(i) <==> InPostSend(t.threads[i].pc);
    }
  }

  lemma OneSenderStep(s: State, c: Choice)
    requires OneSender(s)
    ensures OneSender(Step(s, c))
  {
    if c.Run? && c.thread < |s.threads| {
      OneSenderRun(s, c.thread);
    }
  }

  lemma BatchSplits(s: State, i: nat)
    requires OneSender(s) && InOrder(s) && i < |s.threads| && s.threads[i].pc.Taking?
    ensures InOrder(StepThread(s, i))
  {
    var batch := Merged(s.queue);
    assert s.owner == Worker(i);
    assert s.queue == batch + s.queue[|batch|..];
    assert InHand(StepThread(s, i)) == batch;
    assert s.past.handed + s.past.lost + [] + s.queue == s.past.handed + s.past.lost + batch + s.queue[|batch|..];
  }

  lemma BatchLeaves(s: State, i: nat)
    requires OneSender(s) && InOrder(s) && i < |s.threads| && s.threads[i].pc.Sending?
    ensures InOrder(StepThread(s, i)) && InOrder(SendFails(s, i))
  {
    var batch := s.threads[i].pc.batch;
    assert s.owner == Worker(i) && s.past.lost == [];
    assert s.past.handed + s.past.lost + batch + s.queue == (s.past.handed + batch) + s.past.lost + [] + s.queue;
    assert s.past.handed + s.past.lost + batch + s.queue == s.past.handed + (s.past.lost + batch) + [] + s.queue;
  }

  lemma PacketQueued(s: State, i: nat)
    requires OneSender(s) && InOrder(s) && i < |s.threads| && s.threads[i].pc.Pushing?
    ensures InOrder(StepThread(s, i))
  {
    var e := EntryOf(i, s.threads[i].pc.p, s.threads[i].pc.stale);
    assert InHand(StepThread(s, i)) == InHand(s);
    assert s.past.handed + s.past.lost + InHand(s) + (s.queue + [e]) == s.past.handed + s.past.lost + InHand(s) + s.queue + [e];
    assert s.past.leftover + (s.past.pushed + [e]) == s.past.leftover + s.past.pushed + [e];
  }

  /** The steps that move no packet. */
  lemma NothingMoves(s: State, c: Choice)
    requires OneSender(s) && InOrder(s)
    requires c.Run? && c.thread < |s.threads| ==>
               var pc := s.threads[c.thread].pc; !pc.Taking? && !pc.Sending? && !pc.Pushing?
    requires c.Fail? && c.thread < |s.threads| ==> !s.threads[c.thread].pc.Sending?
    ensures InOrder(Step(s, c))
  {
    assert InHand(Step(s, c)) == InHand(s);
  }

  lemma InOrderStep(s: State, c: Choice)
    requires OneSender(s) && InOrder(s)
    ensures InOrder(Step(s, c))
  {
    if (c.Run? || c.Fail?) && c.thread < |s.threads| && s.threads[c.thread].pc.Sending? {
      BatchLeaves(s, c.thread);
    } else if c.Run? && c.thread < |s.threads| && s.threads[c.thread].pc.Taking? {
      BatchSplits(s, c.thread);
    } else if c.Run? && c.thread < |s.threads| && s.threads[c.thread].pc.Pushing? {
      PacketQueued(s, c.thread);
    } else {
      NothingMoves(s, c);
    }
  }

  /** A thread about to test the flag stays there until it runs, and then finds or leaves the flag
      set. */
  lemma ExchangeSets(s: State, c: Choice, j: nat)
    requires j < |s.threads| && s.threads[j].pc.Exchanging?
    ensures Step(s, c).sending || !NoneExchanging(Step(s, c))
  {
    if c == Run(j) {
      assert StepThread(s, j).sending;
    } else {
      assert Step(s, c).threads[j].pc.Exchanging?;
    }
  }

  lemma OvertakenRun(s: State, i: nat)
    requires Invariant(s) && i < |s.threads|
    ensures OvertakenOk(StepThread(s, i))
  {
    var t := StepThread(s, i);
    OnlyOneMoves(s, i);
    assert InPostSend(s.threads[i].pc) <==> s.owner == Worker(i);
    if !t.sending && NoneExchanging(t) {
      assert !t.threads[i].pc.Exchanging?;
      if !s.sending {
        NobodyWasExchanging(s, Run(i));
        assert s.threads[i].pc.Idle? || s.threads[i].pc.Entering? || s.threads[i].pc.Returning?;
      } else {
        assert s.threads[i].pc.Clearing?;
      }
    }
  }

  lemma NobodyWasExchanging(s: State, c: Choice)
    requires !Step(s, c).sending && NoneExchanging(Step(s, c))
    ensures NoneExchanging(s)
  {
    forall j | 0 <= j < |s.threads| ensures !s.threads[j].pc.Exchanging? {
      if s.threads[j].pc.Exchanging? {
        ExchangeSets(s, c, j);
      }
    }
  }

  lemma OvertakenStep(s: State, c: Choice)
    requires Invariant(s)
    ensures OvertakenOk(Step(s, c))
  {
    var t := Step(s, c);
    if c.Run? {
      if c.thread < |s.threads| {
        OvertakenRun(s, c.thread);
      }
    } else if !t.sending && NoneExchanging(t) {
      NobodyWasExchanging(s, c);
    }
  }

  lemma InvariantStep(s: State, c: Choice)
    requires Invariant(s)
    ensures Invariant(Step(s, c))
  {
    OneSenderStep(s, c);
    InOrderStep(s, c);
    OvertakenStep(s, c);
  }

  /** The invariant holds after every schedule. */
  lemma {:induction false} InvariantAlways(s: State, sched: seq<Choice>)
    requires Invariant(s)
    ensures Invariant(RunAll(s, sched))
    decreases |sched|
  {
    if sched != [] {
      InvariantStep(s, sched[0]);
      InvariantAlways(Step(s, sched[0]), sched[1..]);
    }
  }

  lemma InitialInvariant(s: State)
    requires Initial(s)
    ensures Invariant(s)
  {
    assert [] + s.queue == s.past.leftover + [];
  }

  // ---- order of handing over

  lemma LeftoverStays(s: State, c: Choice)
    ensures Step(s, c).past.leftover == s.past.leftover
    ensures s.past.pushed <= Step(s, c).past.pushed
    ensures s.past.handed <= Step(s, c).past.handed
  {
    if c.Run? && c.thread < |s.threads| {
      PastGrows(s, c.thread);
    }
  }

  lemma PastGrows(s: State, i: nat)
    requires i < |s.threads|
    ensures StepThread(s, i).past.leftover == s.past.leftover
    ensures s.past.pushed <= StepThread(s, i).past.pushed
    ensures s.past.handed <= StepThread(s, i).past.handed
  {
  }

  lemma {:induction false} LeftoverAlways(s: State, sched: seq<Choice>)
    ensures RunAll(s, sched).past.leftover == s.past.leftover
    ensures s.past.pushed <= RunAll(s, sched).past.pushed
    ensures s.past.handed <= RunAll(s, sched).past.handed
    decreases |sched|
  {
    if sched != [] {
      LeftoverStays(s, sched[0]);
      LeftoverAlways(Step(s, sched[0]), sched[1..]);
    }
  }

  /** In every interleaving at most one WSASend is outstanding, nobody is on the way to another one
      beside it, and what was handed to WSASend is, in order, a prefix of what was in the queue at
      the start followed by what was queued since. */
  lemma HandOverIsQueueOrder(s: State, sched: seq<Choice>)
    requires Initial(s)
    ensures var t := RunAll(s, sched);
            && t.past.handed <= s.queue + t.past.pushed
            && |t.net.flights| <= 1
            && (|t.net.flights| == 1 ==> forall i | 0 <= i < |t.threads| :: !InPostSend(t.threads[i].pc))
            && forall i, j | 0 <= i < |t.threads| && 0 <= j < |t.threads|
                             && InPostSend(t.threads[i].pc) && InPostSend(t.threads[j].pc) :: i == j
  {
    InitialInvariant(s);
    InvariantAlways(s, sched);
    LeftoverAlways(s, sched);
    var t := RunAll(s, sched);
    assert s.queue + t.past.pushed == t.past.handed + (t.past.lost + InHand(t) + t.queue);
  }

  /** No thread is inside a call and no WSASend is outstanding. */
  predicate Quiet(s: State) {
    s.net.flights == [] && forall i | 0 <= i < |s.threads| :: s.threads[i].pc.Idle?
  }

  /** When an open session comes to rest, everything queued has been handed over if and only if no
      packet is stranded: none was left from before, and no push overtook the last clearing of the
      flag, coming between PostSend's finding the queue empty and its storing sending = false. */
  lemma AllSentUnlessOvertaken(s: State, sched: seq<Choice>)
    requires Initial(s)
    requires !RunAll(s, sched).closing && Quiet(RunAll(s, sched))
    ensures var t := RunAll(s, sched);
            && t.past.handed + t.queue == s.queue + t.past.pushed
            && (t.past.handed == s.queue + t.past.pushed <==> !t.past.overtaken)
            && (t.queue == [] <==> !t.past.overtaken)
  {
    InitialInvariant(s);
    InvariantAlways(s, sched);
    LeftoverAlways(s, sched);
    var t := RunAll(s, sched);
    AtRest(t);
    assert t.past.handed + [] + [] + t.queue == t.past.handed + t.queue;
  }

  /** At rest the flag is down and nobody owns the send. */
  lemma AtRest(t: State)
    requires Invariant(t) && !t.closing && Quiet(t)
    ensures t.owner == Nobody && !t.sending && NoneExchanging(t) && t.past.lost == [] && InHand(t) == []
    ensures t.queue != [] <==> t.past.overtaken
  {
    assert forall i | 0 <= i < |t.threads| :: !InPostSend(t.threads[i].pc);
  }

  // ---- each thread's own order

  function By(es: seq<Entry>, i: nat): seq<Packet> {
    if es == [] then []
    else (if es[0].source == QueuedBy(i) then [es[0].packet] else []) + By(es[1..], i)
  }

  /** What a thread still has to queue for this client. */
  function Unqueued(th: Thread): seq<Packet> {
    (if th.pc.Pushing? && !th.pc.stale then [th.pc.p] else []) + th.program
  }

  lemma {:induction false} BySnoc(es: seq<Entry>, e: Entry, i: nat)
    ensures By(es + [e], i) == By(es, i) + if e.source == QueuedBy(i) then [e.packet] else []
  {
    if es == [] {
      assert es + [e] == [e] && By([], i) == [];
    } else {
      var head := if es[0].source == QueuedBy(i) then [es[0].packet] else [];
      BySnoc(es[1..], e, i);
      assert (es + [e])[0] == es[0] && (es + [e])[1..] == es[1..] + [e];
      assert By(es + [e], i) == head + By(es[1..] + [e], i) && By(es, i) == head + By(es[1..], i);
    }
  }

  lemma RunKeepsProgram(s: State, i: nat)
    requires i < |s.threads| && !s.closing
    ensures By(StepThread(s, i).past.pushed, i) + Unqueued(StepThread(s, i).threads[i]) ==
              By(s.past.pushed, i) + Unqueued(s.threads[i])
  {
    var th, uh := s.threads[i], StepThread(s, i).threads[i];
    if th.pc.Pushing? {
      var before := By(s.past.pushed, i);
      BySnoc(s.past.pushed, EntryOf(i, th.pc.p, th.pc.stale), i);
      assert uh == Thread(Exchanging, th.program);
      assert (before + [th.pc.p]) + ([] + th.program) == before + ([th.pc.p] + th.program);
    } else if th.pc.Idle? && th.program != [] {
      assert uh == Thread(Pushing(th.program[0], false), th.program[1..]);
      assert [th.program[0]] + th.program[1..] == [] + th.program;
    } else {
      QueuesNothing(s, i);
    }
  }

  lemma QueuesNothing(s: State, i: nat)
    requires i < |s.threads| && !s.threads[i].pc.Pushing?
    requires s.threads[i].pc.Idle? ==> s.threads[i].program == []
    ensures StepThread(s, i).past.pushed == s.past.pushed
    ensures Unqueued(StepThread(s, i).threads[i]) == Unqueued(s.threads[i])
  {
  }

  lemma OthersKeepProgram(s: State, i: nat, j: nat)
    requires i < |s.threads| && j < |s.threads| && i != j
    ensures StepThread(s, i).threads[j] == s.threads[j]
    ensures By(StepThread(s, i).past.pushed, j) == By(s.past.pushed, j)
  {
    if s.threads[i].pc.Pushing? {
      BySnoc(s.past.pushed, EntryOf(i, s.threads[i].pc.p, s.threads[i].pc.stale), j);
    } else {
      assert StepThread(s, i).past.pushed == s.past.pushed;
    }
  }

  lemma ThreadsStay(s: State, c: Choice)
    ensures |Step(s, c).threads| == |s.threads|
    ensures s.closing ==> Step(s, c).closing
  {
    if c.Run? && c.thread < |s.threads| {
      OnlyOneMoves(s, c.thread);
    }
  }

  lemma StepKeepsProgram(s: State, c: Choice, i: nat)
    requires i < |s.threads| && !s.closing && |Step(s, c).threads| == |s.threads|
    ensures By(Step(s, c).past.pushed, i) + Unqueued(Step(s, c).threads[i]) == By(s.past.pushed, i) + Unqueued(s.threads[i])
  {
    if c.Run? && c.thread < |s.threads| {
      if c.thread == i {
        RunKeepsProgram(s, i);
      } else {
        OthersKeepProgram(s, c.thread, i);
      }
    }
  }

  /** As long as the session is open, what each thread has queued, followed by what it has not
      queued yet, is its program: nothing is lost, repeated or reordered before the queue either. */
  lemma {:induction false} ProgramsQueuedInOrder(s: State, sched: seq<Choice>, i: nat)
    requires i < |s.threads| && !RunAll(s, sched).closing
    ensures i < |RunAll(s, sched).threads| && !s.closing
    ensures By(RunAll(s, sched).past.pushed, i) + Unqueued(RunAll(s, sched).threads[i]) ==
              By(s.past.pushed, i) + Unqueued(s.threads[i])
    decreases |sched|
  {
    if sched != [] {
      ThreadsStay(s, sched[0]);
      ProgramsQueuedInOrder(Step(s, sched[0]), sched[1..], i);
      StepKeepsProgram(s, sched[0], i);
    }
  }

  predicate ProgramsDone(s: State) {
    forall i | 0 <= i < |s.threads| :: s.threads[i].program == []
  }

  /** When an open session is at rest, every program is done and no packet is stranded, every packet
      of every thread has been handed over, each thread's in its own order, behind what was left
      in the queue. */
  lemma EverythingHandedOver(s: State, sched: seq<Choice>, i: nat)
    requires Initial(s) && i < |s.threads|
    requires var t := RunAll(s, sched); !t.closing && Quiet(t) && !t.past.overtaken && ProgramsDone(t)
    ensures RunAll(s, sched).past.handed == s.queue + RunAll(s, sched).past.pushed
    ensures By(RunAll(s, sched).past.pushed, i) == s.threads[i].program
  {
    AllSentUnlessOvertaken(s, sched);
    ProgramsQueuedInOrder(s, sched, i);
    var t := RunAll(s, sched);
    assert t.threads[i].pc.Idle? && t.threads[i].program == [];
    assert Stale(s.threads[i].pc);
    assert Unqueued(t.threads[i]) == [] && Unqueued(s.threads[i]) == s.threads[i].program;
    assert By(s.past.pushed, i) == [];
    assert By(t.past.pushed, i) + [] == By(t.past.pushed, i);
  }
}
