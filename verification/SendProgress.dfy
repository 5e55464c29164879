/** The send queue comes to rest: moves are bounded, and a state where nothing can move is at rest
    with every program done; and what the next EnqueueSend does for packets stranded there. */
module SendProgress {
  import opened Bytes
  import opened CStrings
  import opened SendQueue
  import opened SendWire

  // ---- the work left

  function PacketWork(p: Packet): nat { 5 + |p| }

  function QueueWork(q: seq<Entry>): nat {
    if q == [] then 0 else PacketWork(q[0].packet) + QueueWork(q[1..])
  }

  function ProgramWork(ps: seq<Packet>): nat {
    if ps == [] then 0 else PacketWork(ps[0]) + 6 + ProgramWork(ps[1..])
  }

  function PcWork(pc: Pc): nat {
    match pc
    case Idle => 0
    case Clearing => 1
    case Returning => 1
    case Taking => 2
    case Posting => 3
    case Exchanging => 4
    case Sending(batch) => 6 + |Payload(batch)|
    case Pushing(p, _) => PacketWork(p) + 5
    case Entering(p) => PacketWork(p) + 6
  }

  function ThreadWork(th: Thread): nat { PcWork(th.pc) + ProgramWork(th.program) }

  function ThreadsWork(ths: seq<Thread>): nat {
    if ths == [] then 0 else ThreadWork(ths[0]) + ThreadsWork(ths[1..])
  }

  function FlightsWork(fs: seq<Flight>): nat {
    if fs == [] then 0 else 4 + |fs[0].rest| + FlightsWork(fs[1..])
  }

  function Work(s: State): nat {
    ThreadsWork(s.threads) + QueueWork(s.queue) + FlightsWork(s.net.flights)
  }

  lemma {:induction false} ThreadsWorkUpdate(ths: seq<Thread>, i: nat, th: Thread)
    requires i < |ths|
    ensures ThreadsWork(ths[i := th]) + ThreadWork(ths[i]) == ThreadsWork(ths) + ThreadWork(th)
  {
    if i > 0 {
      ThreadsWorkUpdate(ths[1..], i - 1, th);
      assert ths[i := th][1..] == ths[1..][i - 1 := th];
    } else {
      assert ths[0 := th][1..] == ths[1..];
    }
  }

  lemma {:induction false} QueueWorkConcat(p: seq<Entry>, q: seq<Entry>)
    ensures QueueWork(p + q) == QueueWork(p) + QueueWork(q)
  {
    if p == [] {
      assert p + q == q;
    } else {
      assert (p + q)[0] == p[0] && (p + q)[1..] == p[1..] + q;
      QueueWorkConcat(p[1..], q);
    }
  }

  lemma {:induction false} BatchWork(b: seq<Entry>)
    ensures QueueWork(b) == 5 * |b| + |Payload(b)|
  {
    if b != [] {
      BatchWork(b[1..]);
    }
  }

  lemma {:induction false} FlightsWorkConcat(p: seq<Flight>, q: seq<Flight>)
    ensures FlightsWork(p + q) == FlightsWork(p) + FlightsWork(q)
  {
    if p == [] {
      assert p + q == q;
    } else {
      assert (p + q)[0] == p[0] && (p + q)[1..] == p[1..] + q;
      FlightsWorkConcat(p[1..], q);
    }
  }

  lemma {:induction false} FreedWork(fs: seq<Flight>, i: nat)
    ensures FlightsWork(Freed(fs, i)) == FlightsWork(fs)
  {
    if fs != [] {
      assert Freed(fs, i)[1..] == Freed(fs[1..], i);
      FreedWork(fs[1..], i);
    }
  }

  lemma {:induction false} AbortedWork(fs: seq<Flight>)
    ensures FlightsWork(Aborted(fs)) <= FlightsWork(fs)
  {
    if fs != [] {
      assert Aborted(fs)[1..] == Aborted(fs[1..]);
      AbortedWork(fs[1..]);
    }
  }

  lemma FlightWorkAt(fs: seq<Flight>, k: nat)
    requires k < |fs|
    ensures FlightsWork(fs) == FlightsWork(fs[..k]) + (4 + |fs[k].rest|) + FlightsWork(fs[k + 1..])
  {
    assert fs == fs[..k] + ([fs[k]] + fs[k + 1..]);
    FlightsWorkConcat(fs[..k], [fs[k]] + fs[k + 1..]);
    assert ([fs[k]] + fs[k + 1..])[1..] == fs[k + 1..];
  }

  // ---- moves

  predicate Finished(th: Thread) { th.pc == Idle && th.program == [] }

  /** The choice does something; losing the connection and closing the session from outside do not
      count as moves. */
  predicate Moves(s: State, c: Choice) {
    match c
    case Run(i) => i < |s.threads| && !Finished(s.threads[i])
    case Fail(i) => i < |s.threads| && s.threads[i].pc.Sending?
    case Transmit(k, n) => k < |s.net.flights| && s.net.flights[k].rest != [] && n > 0
    case Complete(i, k) =>
      i < |s.threads| && s.threads[i].pc.Idle? && k < |s.net.flights| && s.net.flights[k].rest == []
    case Break => false
    case CloseIt => false
  }

  lemma TakeUsesWork(s: State, i: nat)
    requires i < |s.threads| && s.threads[i].pc.Taking?
    ensures var t := StepThread(s, i);
            ThreadWork(t.threads[i]) + QueueWork(t.queue) < ThreadWork(s.threads[i]) + QueueWork(s.queue)
    ensures StepThread(s, i).net == s.net
  {
    var batch := Merged(s.queue);
    assert s.queue == batch + s.queue[|batch|..];
    QueueWorkConcat(batch, s.queue[|batch|..]);
    BatchWork(batch);
    var th := StepThread(s, i).threads[i];
    assert th == Thread(if batch == [] then Clearing else Sending(batch), s.threads[i].program);
  }

  lemma PushUsesWork(s: State, i: nat)
    requires i < |s.threads| && s.threads[i].pc.Pushing?
    ensures var t := StepThread(s, i);
            ThreadWork(t.threads[i]) + QueueWork(t.queue) < ThreadWork(s.threads[i]) + QueueWork(s.queue)
    ensures StepThread(s, i).net == s.net
  {
    var e := EntryOf(i, s.threads[i].pc.p, s.threads[i].pc.stale);
    QueueWorkConcat(s.queue, [e]);
    assert QueueWork([e]) == PacketWork(e.packet);
  }

  lemma SendUsesWork(s: State, i: nat)
    requires i < |s.threads| && (s.threads[i].pc.Sending? || s.threads[i].pc.Returning?)
    ensures var t := StepThread(s, i);
            && t.queue == s.queue
            && ThreadWork(t.threads[i]) + FlightsWork(t.net.flights) <
                 ThreadWork(s.threads[i]) + FlightsWork(s.net.flights)
  {
    if s.threads[i].pc.Returning? {
      FreedWork(s.net.flights, i);
    } else if !s.net.broken {
      var f := Flight(i, Payload(s.threads[i].pc.batch), false);
      FlightsWorkConcat(s.net.flights, [f]);
      assert FlightsWork([f]) == 4 + |f.rest|;
    }
  }

  lemma OtherStepUsesWork(s: State, i: nat)
    requires i < |s.threads|
    requires var pc := s.threads[i].pc; !pc.Taking? && !pc.Pushing? && !pc.Sending? && !pc.Returning?
    ensures var t := StepThread(s, i);
            && t.queue == s.queue && t.net == s.net
            && if Finished(s.threads[i]) then t == s else ThreadWork(t.threads[i]) < ThreadWork(s.threads[i])
  {
  }

  lemma RunUsesWork(s: State, i: nat)
    requires i < |s.threads|
    ensures if Finished(s.threads[i]) then StepThread(s, i) == s else Work(StepThread(s, i)) < Work(s)
  {
    var t := StepThread(s, i);
    assert t.threads == s.threads[i := t.threads[i]];
    ThreadsWorkUpdate(s.threads, i, t.threads[i]);
    var pc := s.threads[i].pc;
    if pc.Taking? {
      TakeUsesWork(s, i);
    } else if pc.Pushing? {
      PushUsesWork(s, i);
    } else if pc.Sending? || pc.Returning? {
      SendUsesWork(s, i);
    } else {
      OtherStepUsesWork(s, i);
    }
  }

  lemma TransmitUsesWork(s: State, k: nat, n: nat)
    requires k < |s.net.flights|
    ensures Work(Step(s, Transmit(k, n))) <= Work(s)
    ensures Moves(s, Transmit(k, n)) ==> Work(Step(s, Transmit(k, n))) < Work(s)
  {
    var fs, gs := s.net.flights, Step(s, Transmit(k, n)).net.flights;
    FlightWorkAt(fs, k);
    FlightWorkAt(gs, k);
    assert gs[..k] == fs[..k] && gs[k + 1..] == fs[k + 1..];
  }

  lemma CompleteUsesWork(s: State, i: nat, k: nat)
    requires Moves(s, Complete(i, k))
    ensures Work(Step(s, Complete(i, k))) < Work(s)
  {
    var fs, t := s.net.flights, Step(s, Complete(i, k));
    FlightWorkAt(fs, k);
    FlightsWorkConcat(fs[..k], fs[k + 1..]);
    ThreadsWorkUpdate(s.threads, i, t.threads[i]);
  }

  lemma FailUsesWork(s: State, i: nat)
    requires Moves(s, Fail(i))
    ensures Work(Step(s, Fail(i))) < Work(s)
  {
    ThreadsWorkUpdate(s.threads, i, Step(s, Fail(i)).threads[i]);
  }

  /** Every move uses up work, and nothing adds any. */
  lemma StepUsesWork(s: State, c: Choice)
    ensures Work(Step(s, c)) + (if Moves(s, c) then 1 else 0) <= Work(s)
  {
    match c
    case Run(i) => if i < |s.threads| { RunUsesWork(s, i); }
    case Fail(i) => if Moves(s, c) { FailUsesWork(s, i); }
    case Transmit(k, n) => if k < |s.net.flights| { TransmitUsesWork(s, k, n); }
    case Complete(i, k) => if Moves(s, c) { CompleteUsesWork(s, i, k); }
    case Break => AbortedWork(s.net.flights);
    case CloseIt =>
  }

  function MovesIn(s: State, sched: seq<Choice>): nat
    decreases |sched|
  {
    if sched == [] then 0
    else (if Moves(s, sched[0]) then 1 else 0) + MovesIn(Step(s, sched[0]), sched[1..])
  }

  /** No schedule makes more moves than the initial work allows. */
  lemma {:induction false} MovesBounded(s: State, sched: seq<Choice>)
    ensures MovesIn(s, sched) + Work(RunAll(s, sched)) <= Work(s)
    decreases |sched|
  {
    if sched != [] {
      StepUsesWork(s, sched[0]);
      MovesBounded(Step(s, sched[0]), sched[1..]);
    }
  }

  lemma SomethingMoves(s: State) returns (c: Choice)
    requires s.threads != [] && !(Quiet(s) && ProgramsDone(s))
    ensures Moves(s, c)
  {
    if i :| 0 <= i < |s.threads| && !Finished(s.threads[i]) {
      c := Run(i);
    } else {
      assert forall i | 0 <= i < |s.threads| :: Finished(s.threads[i]);
      assert s.threads[0].pc == Idle && s.net.flights != [];
      c := if s.net.flights[0].rest != [] then Transmit(0, 1) else Complete(0, 0);
    }
  }

  /** Nothing can move exactly when the session is at rest and every program is done. */
  lemma StuckIsAtRest(s: State)
    requires s.threads != []
    ensures (forall c :: !Moves(s, c)) <==> Quiet(s) && ProgramsDone(s)
  {
    if !(Quiet(s) && ProgramsDone(s)) {
      var c := SomethingMoves(s);
    }
  }

  /** Progress: every schedule makes boundedly many moves, and one that can go no further has left
      the session at rest with every program done. With no thread there is nothing to pick up the
      completion of a WSASend, but then there is none. */
  lemma SendProgress(s: State, sched: seq<Choice>)
    requires Initial(s)
    ensures MovesIn(s, sched) <= Work(s)
    ensures var t := RunAll(s, sched);
            (forall c :: !Moves(t, c)) <==> Quiet(t) && ProgramsDone(t)
  {
    MovesBounded(s, sched);
    ThreadsAlways(s, sched);
    if s.threads == [] {
      NoThreadNoFlight(s, sched);
      forall c ensures !Moves(RunAll(s, sched), c) {}
    } else {
      StuckIsAtRest(RunAll(s, sched));
    }
  }

  lemma {:induction false} ThreadsAlways(s: State, sched: seq<Choice>)
    ensures |RunAll(s, sched).threads| == |s.threads|
    decreases |sched|
  {
    if sched != [] {
      ThreadsStay(s, sched[0]);
      ThreadsAlways(Step(s, sched[0]), sched[1..]);
    }
  }

  lemma {:induction false} NoThreadNoFlight(s: State, sched: seq<Choice>)
    requires s.threads == [] && s.net.flights == []
    ensures RunAll(s, sched).net.flights == []
    decreases |sched|
  {
    if sched != [] {
      assert Step(s, sched[0]).threads == [] && Step(s, sched[0]).net.flights == [];
      NoThreadNoFlight(Step(s, sched[0]), sched[1..]);
    }
  }

  // ---- one call of EnqueueSend on a session at rest

  lemma RunCons(s: State, c: Choice, rest: seq<Choice>)
    ensures RunAll(s, [c] + rest) == RunAll(Step(s, c), rest)
  {
    assert ([c] + rest)[1..] == rest;
  }

  lemma RunTwo(s: State, a: Choice, b: Choice)
    ensures RunAll(s, [a, b]) == Step(Step(s, a), b)
  {
    RunCons(s, a, [b]);
    RunCons(Step(s, a), b, []);
    assert [a] + [b] == [a, b] && [b] + [] == [b];
  }

  lemma RunThree(s: State, a: Choice, b: Choice, c: Choice)
    ensures RunAll(s, [a, b, c]) == Step(Step(Step(s, a), b), c)
  {
    RunCons(s, a, [b, c]);
    RunTwo(Step(s, a), b, c);
    assert [a] + [b, c] == [a, b, c];
  }

  /** The state after thread i has queued its next packet, claimed the flag, and had WSASend accept
      the merged batch. */
  function Posted(s: State, i: nat): State
    requires i < |s.threads| && s.threads[i].program != []
  {
    var e := Entry(QueuedBy(i), s.threads[i].program[0]);
    var q := s.queue + [e];
    var batch := Merged(q);
    State(q[|batch|..], true, false,
          s.net.(flights := s.net.flights + [Flight(i, Payload(batch), false)]),
          s.threads[i := Thread(Returning, s.threads[i].program[1..])], Kernel,
          s.past.(pushed := s.past.pushed + [e], handed := s.past.handed + batch, overtaken := false))
  }

  predicate ReadyToSend(s: State, i: nat) {
    && i < |s.threads| && s.threads[i].pc == Idle && s.threads[i].program != []
    && !s.closing && !s.sending && !s.net.broken && s.owner == Nobody
  }

  lemma Claims(s: State, i: nat)
    requires ReadyToSend(s, i)
    ensures var p, rest := s.threads[i].program[0], s.threads[i].program[1..];
            var e := Entry(QueuedBy(i), p);
            RunAll(s, [Run(i), Run(i), Run(i)]) ==
              s.(queue := s.queue + [e], sending := true, owner := Worker(i),
                 threads := s.threads[i := Thread(Posting, rest)],
                 past := s.past.(pushed := s.past.pushed + [e]))
  {
    var p, rest := s.threads[i].program[0], s.threads[i].program[1..];
    var s1 := Step(s, Run(i));
    assert s1 == s.(threads := s.threads[i := Thread(Pushing(p, false), rest)]);
    var s2 := Step(s1, Run(i));
    assert s2.threads == s.threads[i := Thread(Exchanging, rest)];
    var s3 := Step(s2, Run(i));
    assert s3.threads == s.threads[i := Thread(Posting, rest)];
    RunThree(s, Run(i), Run(i), Run(i));
  }

  lemma Takes(s: State, i: nat)
    requires i < |s.threads| && s.threads[i].pc == Posting && !s.closing && s.queue != []
    ensures var batch := Merged(s.queue);
            Step(Step(s, Run(i)), Run(i)) ==
              s.(queue := s.queue[|batch|..], past := s.past.(overtaken := false),
                 threads := s.threads[i := Thread(Sending(batch), s.threads[i].program)])
  {
    var rest, batch := s.threads[i].program, Merged(s.queue);
    var s1 := Step(s, Run(i));
    assert s1.threads == s.threads[i := Thread(Taking, rest)];
    assert batch != [];
    assert Step(s1, Run(i)).threads == s.threads[i := Thread(Sending(batch), rest)];
  }

  lemma HandsOver(s: State, i: nat)
    requires i < |s.threads| && s.threads[i].pc.Sending? && !s.net.broken
    ensures var batch := s.threads[i].pc.batch;
            Step(s, Run(i)) ==
              s.(threads := s.threads[i := Thread(Returning, s.threads[i].program)], owner := Kernel,
                 net := s.net.(flights := s.net.flights + [Flight(i, Payload(batch), false)]),
                 past := s.past.(handed := s.past.handed + batch))
  {
  }

  lemma Posts(s: State, i: nat)
    requires i < |s.threads| && s.threads[i].pc == Posting && !s.closing && !s.net.broken && s.queue != []
    ensures var batch := Merged(s.queue);
            RunAll(s, [Run(i), Run(i), Run(i)]) ==
              s.(queue := s.queue[|batch|..], owner := Kernel,
                 threads := s.threads[i := Thread(Returning, s.threads[i].program)],
                 net := s.net.(flights := s.net.flights + [Flight(i, Payload(batch), false)]),
                 past := s.past.(handed := s.past.handed + batch, overtaken := false))
  {
    Takes(s, i);
    HandsOver(Step(Step(s, Run(i)), Run(i)), i);
    var rest := s.threads[i].program;
    assert s.threads[i := Thread(Sending(Merged(s.queue)), rest)][i := Thread(Returning, rest)] ==
           s.threads[i := Thread(Returning, rest)];
    RunThree(s, Run(i), Run(i), Run(i));
  }

  lemma {:induction false} RunAllConcat(s: State, p: seq<Choice>, q: seq<Choice>)
    ensures RunAll(s, p + q) == RunAll(RunAll(s, p), q)
    decreases |p|
  {
    if p == [] {
      assert p + q == q;
    } else {
      var t := Step(s, p[0]);
      RunAllConcat(t, p[1..], q);
      assert (p + q)[0] == p[0] && (p + q)[1..] == p[1..] + q;
      assert RunAll(s, p + q) == RunAll(t, p[1..] + q) && RunAll(s, p) == RunAll(t, p[1..]);
    }
  }

  function SendSteps(i: nat): seq<Choice> { [Run(i), Run(i), Run(i)] + [Run(i), Run(i), Run(i)] }

  lemma SendsItsPacket(s: State, i: nat)
    requires ReadyToSend(s, i)
    ensures RunAll(s, SendSteps(i)) == Posted(s, i)
  {
    var m := RunAll(s, [Run(i), Run(i), Run(i)]);
    RunAllConcat(s, [Run(i), Run(i), Run(i)], [Run(i), Run(i), Run(i)]);
    Claims(s, i);
    Posts(m, i);
    var rest := s.threads[i].program[1..];
    assert m.threads[i := Thread(Returning, rest)] == s.threads[i := Thread(Returning, rest)];
  }

  /** Recovery: on any reachable open session at rest, one more complete EnqueueSend puts the packets
      stranded there on the wire, up to 16 in all, ahead of its own. */
  lemma NextSendRecovers(s: State, sched: seq<Choice>, i: nat)
    requires Initial(s)
    requires var t := RunAll(s, sched);
             && !t.closing && !t.net.broken && Quiet(t)
             && i < |t.threads| && t.threads[i].program != []
    ensures var t := RunAll(s, sched);
            var batch := Merged(t.queue + [Entry(QueuedBy(i), t.threads[i].program[0])]);
            var n := |Payload(batch)|;
            var u := RunAll(s, sched + (SendSteps(i) + [Transmit(0, n), Run(i)]));
            && u.past.handed == t.past.handed + batch
            && u.net.wire == t.net.wire + Certain(Payload(batch))
            && u.net.flights == [Flight(i, [], true)]
            && u.threads == t.threads[i := Thread(Idle, t.threads[i].program[1..])]
  {
    InitialInvariant(s);
    InvariantAlways(s, sched);
    var t := RunAll(s, sched);
    AtRest(t);
    var batch := Merged(t.queue + [Entry(QueuedBy(i), t.threads[i].program[0])]);
    var n := |Payload(batch)|;
    var last := [Transmit(0, n), Run(i)];
    RunAllConcat(s, sched, SendSteps(i) + last);
    RunAllConcat(t, SendSteps(i), last);
    SendsItsPacket(t, i);
    TransmitsAndReturns(Posted(t, i), i);
  }

  /** Since t, no packet was queued; or n packets have been handed over; or one is on its way to
      being so: the flag is up or about to be, and its owner will look at the queue again. */
  predicate Owed(t: State, s: State, n: nat) {
    || s.past.pushed == t.past.pushed
    || |s.past.handed| >= n
    || ((s.sending || !NoneExchanging(s)) && !OwnerAtClear(s))
  }

  /** An empty look at the queue of an open session means that everything was handed over. */
  lemma EmptyLook(s: State, i: nat)
    requires Invariant(s) && i < |s.threads| && s.threads[i].pc.Taking? && !s.closing && s.queue == []
    ensures |s.past.handed| == |s.past.leftover| + |s.past.pushed|
  {
    assert s.owner == Worker(i) && s.past.lost == [] && InHand(s) == [];
    assert |s.past.handed + s.past.lost + InHand(s) + s.queue| == |s.past.leftover + s.past.pushed|;
  }

  lemma OwedRun(t: State, s: State, i: nat, n: nat)
    requires Invariant(s) && !s.closing && i < |s.threads| && Owed(t, s, n)
    requires t.past.pushed <= s.past.pushed && |s.past.leftover| + |t.past.pushed| == n
    requires OwnerAtClear(s) ==> |s.past.handed| >= n
    ensures Owed(t, StepThread(s, i), n)
    ensures OwnerAtClear(StepThread(s, i)) ==> |StepThread(s, i).past.handed| >= n
  {
    var u := StepThread(s, i);
    OnlyOneMoves(s, i);
    LeftoverStays(s, Run(i));
    assert InPostSend(s.threads[i].pc) <==> s.owner == Worker(i);
    if s.threads[i].pc.Taking? && s.queue == [] {
      EmptyLook(s, i);
    } else if s.threads[i].pc.Pushing? {
      assert u.threads[i].pc.Exchanging?;
    } else if !NoneExchanging(s) {
      var j :| 0 <= j < |s.threads| && s.threads[j].pc.Exchanging?;
      ExchangeSets(s, Run(i), j);
    }
  }

  lemma OwedStep(t: State, s: State, c: Choice, n: nat)
    requires Invariant(s) && !Step(s, c).closing && Owed(t, s, n)
    requires t.past.pushed <= s.past.pushed && |s.past.leftover| + |t.past.pushed| == n
    requires OwnerAtClear(s) ==> |s.past.handed| >= n
    ensures Owed(t, Step(s, c), n)
    ensures OwnerAtClear(Step(s, c)) ==> |Step(s, c).past.handed| >= n
  {
    ThreadsStay(s, c);
    if c.Run? && c.thread < |s.threads| {
      OwedRun(t, s, c.thread, n);
    } else if !NoneExchanging(s) {
      var j :| 0 <= j < |s.threads| && s.threads[j].pc.Exchanging?;
      ExchangeSets(s, c, j);
    }
  }

  lemma {:induction false} OwedAlways(t: State, s: State, sched: seq<Choice>, n: nat)
    requires Invariant(s) && !RunAll(s, sched).closing && Owed(t, s, n)
    requires t.past.pushed <= s.past.pushed && |s.past.leftover| + |t.past.pushed| == n
    requires OwnerAtClear(s) ==> |s.past.handed| >= n
    ensures Owed(t, RunAll(s, sched), n)
    decreases |sched|
  {
    if sched != [] {
      var u := Step(s, sched[0]);
      StaysClosing(u, sched[1..]);
      InvariantStep(s, sched[0]);
      LeftoverStays(s, sched[0]);
      OwedStep(t, s, sched[0], n);
      OwedAlways(t, u, sched[1..], n);
    }
  }

  lemma {:induction false} StaysClosing(s: State, sched: seq<Choice>)
    ensures s.closing ==> RunAll(s, sched).closing
    decreases |sched|
  {
    if sched != [] {
      ThreadsStay(s, sched[0]);
      StaysClosing(Step(s, sched[0]), sched[1..]);
    }
  }

  /** Recovery, for every interleaving: when a session that stays open comes to rest again with at
      least one packet queued in between, everything stranded at the first rest has been handed
      over, in order and before anything queued since. */
  lemma StrandedGoesFirst(s: State, sched: seq<Choice>, more: seq<Choice>)
    requires Initial(s)
    requires var t := RunAll(s, sched);
             var u := RunAll(t, more);
             !u.closing && Quiet(t) && Quiet(u) && t.past.pushed != u.past.pushed
    ensures var t := RunAll(s, sched);
            t.past.handed + t.queue <= RunAll(t, more).past.handed
  {
    var t := RunAll(s, sched);
    var u := RunAll(t, more);
    StaysClosing(t, more);
    InitialInvariant(s);
    InvariantAlways(s, sched);
    InvariantAlways(t, more);
    LeftoverAlways(t, more);
    AtRest(t);
    AtRest(u);
    var n := |t.past.leftover| + |t.past.pushed|;
    OwedAlways(t, t, more, n);
    assert t.past.handed + t.queue == t.past.leftover + t.past.pushed by { HandedAtRest(t); }
    assert u.past.handed + u.queue == u.past.leftover + u.past.pushed by { HandedAtRest(u); }
    assert t.past.leftover + t.past.pushed <= u.past.leftover + u.past.pushed;
    PrefixByLength(t.past.leftover + t.past.pushed, u.past.handed, u.past.leftover + u.past.pushed);
  }

  lemma HandedAtRest(t: State)
    requires Invariant(t) && t.past.lost == [] && InHand(t) == []
    ensures t.past.handed + t.queue == t.past.leftover + t.past.pushed
  {
    assert t.past.handed + [] + [] + t.queue == t.past.handed + t.queue;
  }

  lemma PrefixByLength<T>(a: seq<T>, b: seq<T>, whole: seq<T>)
    requires a <= whole && b <= whole && |a| <= |b|
    ensures a <= b
  {
  }

  /** Bytes read while their buffer is alive. */
  function Certain(b: seq<Byte>): seq<Option<Byte>> {
    seq(|b|, k requires 0 <= k < |b| => Some(b[k]))
  }

  lemma TransmitsAndReturns(s: State, i: nat)
    requires i < |s.threads| && s.threads[i].pc == Returning
    requires |s.net.flights| == 1 && s.net.flights[0].thread == i && !s.net.flights[0].freed
    ensures var rest := s.net.flights[0].rest;
            RunAll(s, [Transmit(0, |rest|), Run(i)]) ==
              s.(threads := s.threads[i := Thread(Idle, s.threads[i].program)],
                 net := s.net.(wire := s.net.wire + Certain(rest), flights := [Flight(i, [], true)]))
  {
    var f := s.net.flights[0];
    var c := Transmit(0, |f.rest|);
    var s1 := Step(s, c);
    TransmitNet(s, 0, |f.rest|);
    assert Out(f, |f.rest|) == Certain(f.rest) && f.rest[|f.rest|..] == [];
    assert s1.net.flights == [Flight(i, [], false)];
    var s2 := Step(s1, Run(i));
    assert s2.net.flights == [Flight(i, [], true)];
    assert s2.threads == s.threads[i := Thread(Idle, s.threads[i].program)];
    RunTwo(s, c, Run(i));
  }
}
