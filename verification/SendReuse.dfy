/** Session objects that pass from one client to the next while work for the previous one is still
    under way: exactly which of it can reach the next client's stream or disturb its sends. */
module SendReuse {
  import opened Bytes
  import opened CStrings
  import opened SendQueue
  import opened SendWire
  import opened SendProgress
  import opened SendScenarios

  /** The same object, with the threads' future packets given. */
  function WithPrograms(s: State, programs: seq<seq<Packet>>): (t: State)
    requires |programs| == |s.threads|
    ensures Reused(s) ==> Reused(t)
    ensures Initial(s) ==> Initial(t)
    ensures |t.threads| == |s.threads|
    ensures forall i | 0 <= i < |s.threads| :: t.threads[i] == Thread(s.threads[i].pc, programs[i])
  {
    s.(threads := seq(|s.threads|, i requires 0 <= i < |s.threads| => Thread(s.threads[i].pc, programs[i])))
  }

  /** A packet of nothing for every thread. */
  function SomePrograms(n: nat): (ps: seq<seq<Packet>>)
    ensures |ps| == n && forall i | 0 <= i < n :: ps[i] != []
  {
    seq(n, i => [[]])
  }

  // ---- whose packets

  predicate OwnPackets(es: seq<Entry>) {
    forall e | e in es :: e.source.QueuedBy?
  }

  /** A packet of the previous client in a thread's hands. */
  predicate Carries(pc: Pc) {
    pc.Entering? || (pc.Pushing? && pc.stale) || (pc.Sending? && !OwnPackets(pc.batch))
  }

  predicate NothingLeftOver(s: State) {
    && OwnPackets(s.queue) && OwnPackets(s.past.handed)
    && forall i | 0 <= i < |s.threads| :: !Carries(s.threads[i].pc)
  }

  lemma OwnRun(s: State, i: nat)
    requires NothingLeftOver(s) && i < |s.threads|
    ensures NothingLeftOver(StepThread(s, i))
  {
    var pc := s.threads[i].pc;
    assert !Carries(pc);
    if pc.Taking? {
      OwnTake(s, i);
    } else if pc.Pushing? || pc.Sending? {
      OwnMove(s, i);
    } else {
      OwnStay(s, i);
    }
  }

  lemma OwnTake(s: State, i: nat)
    requires NothingLeftOver(s) && i < |s.threads| && s.threads[i].pc.Taking?
    ensures NothingLeftOver(StepThread(s, i))
  {
    var t := StepThread(s, i);
    assert OwnPackets(Merged(s.queue)) && OwnPackets(t.queue);
    assert !Carries(t.threads[i].pc);
  }

  lemma OwnMove(s: State, i: nat)
    requires NothingLeftOver(s) && i < |s.threads|
    requires s.threads[i].pc.Pushing? || s.threads[i].pc.Sending?
    ensures NothingLeftOver(StepThread(s, i))
  {
    assert !Carries(s.threads[i].pc);
    assert !Carries(StepThread(s, i).threads[i].pc);
  }

  lemma OwnStay(s: State, i: nat)
    requires NothingLeftOver(s) && i < |s.threads|
    requires var pc := s.threads[i].pc; !pc.Taking? && !pc.Pushing? && !pc.Sending?
    ensures NothingLeftOver(StepThread(s, i))
  {
    var t := StepThread(s, i);
    assert t.queue == s.queue && t.past.handed == s.past.handed && !Carries(t.threads[i].pc);
  }

  lemma {:induction false} OwnAlways(s: State, sched: seq<Choice>)
    requires NothingLeftOver(s)
    ensures NothingLeftOver(RunAll(s, sched))
    decreases |sched|
  {
    if sched != [] {
      var c := sched[0];
      if c.Run? && c.thread < |s.threads| {
        OwnRun(s, c.thread);
      }
      assert NothingLeftOver(Step(s, c));
      OwnAlways(Step(s, c), sched[1..]);
    }
  }

  /** How many steps thread i needs, running alone, to hand over what it has or takes. */
  function Distance(pc: Pc): nat {
    match pc
    case Sending(batch) => if batch == [] then 9 else 0
    case Taking => 1
    case Posting => 2
    case Exchanging => 3
    case Pushing(_, _) => 4
    case Entering(_) => 5
    case Idle => 6
    case Returning => 7
    case Clearing => 8
  }

  /** The next batch thread i hands over starts with a packet of the previous client. */
  predicate LeftoverNext(s: State, i: nat)
    requires i < |s.threads|
  {
    var pc := s.threads[i].pc;
    if pc.Sending? && pc.batch != [] then pc.batch[0].source.LeftOver?
    else if pc.Pushing? && s.queue == [] then pc.stale
    else if pc.Entering? && s.queue == [] then true
    else s.queue != [] && s.queue[0].source.LeftOver?
  }

  lemma CloserToHandOver(s: State, i: nat)
    requires i < |s.threads| && !s.closing && !s.net.broken
    requires Distance(s.threads[i].pc) >= 6 ==> s.threads[i].program != []
    requires Distance(s.threads[i].pc) >= 3 ==> !s.sending
    requires LeftoverNext(s, i) && Distance(s.threads[i].pc) > 0
    ensures var t := StepThread(s, i);
            && !t.closing && !t.net.broken && LeftoverNext(t, i)
            && Distance(t.threads[i].pc) < Distance(s.threads[i].pc)
            && (Distance(t.threads[i].pc) >= 3 ==> !t.sending)
            && (Distance(t.threads[i].pc) >= 6 ==> t.threads[i].program != [])
  {
    assert s.threads[i].pc.Taking? ==> Merged(s.queue) != [];
  }

  lemma {:induction false} HandsOverLeftover(s: State, i: nat) returns (sched: seq<Choice>)
    requires i < |s.threads| && !s.closing && !s.net.broken
    requires Distance(s.threads[i].pc) >= 6 ==> s.threads[i].program != []
    requires Distance(s.threads[i].pc) >= 3 ==> !s.sending
    requires LeftoverNext(s, i)
    ensures !OwnPackets(RunAll(s, sched).past.handed)
    decreases Distance(s.threads[i].pc)
  {
    var pc := s.threads[i].pc;
    if Distance(pc) == 0 {
      sched := [Run(i)];
      RunCons(s, Run(i), []);
      assert [Run(i)] + [] == sched;
      assert pc.batch[0] in StepThread(s, i).past.handed;
    } else {
      var t := StepThread(s, i);
      CloserToHandOver(s, i);
      var rest := HandsOverLeftover(t, i);
      sched := [Run(i)] + rest;
      RunCons(s, Run(i), rest);
    }
  }

  /** Whatever the threads are going to send and however they interleave, the client is handed only
      packets queued for it. */
  ghost predicate AlwaysOwn(s: State) {
    forall ps, sched | |ps| == |s.threads| :: OwnPackets(RunAll(WithPrograms(s, ps), sched).past.handed)
  }

  /** The client of a session object can only be handed its own packets if and only if the previous
      client left none in the queue and none in the hands of a thread. */
  lemma OnlyOwnPackets(s: State)
    requires Reused(s) && s.threads != []
    ensures AlwaysOwn(s) <==> s.queue == [] && forall i | 0 <= i < |s.threads| :: !Carries(s.threads[i].pc)
  {
    if s.queue == [] && forall i | 0 <= i < |s.threads| :: !Carries(s.threads[i].pc) {
      forall ps, sched | |ps| == |s.threads| ensures OwnPackets(RunAll(WithPrograms(s, ps), sched).past.handed) {
        OwnAlways(WithPrograms(s, ps), sched);
      }
    } else {
      var ps := SomePrograms(|s.threads|);
      var t := WithPrograms(s, ps);
      var i := LeftoverThread(s);
      var sched := HandsOverLeftover(t, i);
      assert !OwnPackets(RunAll(WithPrograms(s, ps), sched).past.handed);
    }
  }

  /** If anything is left over, some thread hands it over next. */
  lemma LeftoverThread(s: State) returns (i: nat)
    requires Reused(s) && s.threads != []
    requires s.queue != [] || exists k | 0 <= k < |s.threads| :: Carries(s.threads[k].pc)
    ensures i < |s.threads| && LeftoverNext(s, i)
  {
    if s.queue != [] {
      i := 0;
      assert s.queue[0] in s.past.leftover && Stale(s.threads[0].pc);
    } else {
      i :| 0 <= i < |s.threads| && Carries(s.threads[i].pc);
      assert Stale(s.threads[i].pc);
    }
  }

  // ---- one sender at a time

  predicate OneOnTheWay(t: State) {
    forall i, j | 0 <= i < |t.threads| && 0 <= j < |t.threads|
                  && InPostSend(t.threads[i].pc) && InPostSend(t.threads[j].pc) :: i == j
  }

  /** Whatever the threads are going to send and however they interleave, at most one is on its way
      to WSASend. */
  ghost predicate AlwaysExclusive(s: State) {
    forall ps, sched | |ps| == |s.threads| :: OneOnTheWay(RunAll(WithPrograms(s, ps), sched))
  }

  /** Thread i got from s to t alone, leaving the other threads and the number of sends as they
      were. */
  predicate OnlyRan(s: State, t: State, i: nat) {
    && |t.threads| == |s.threads| && i < |s.threads|
    && (forall j | 0 <= j < |s.threads| && j != i :: t.threads[j] == s.threads[j])
    && |t.net.flights| == |s.net.flights|
    && (forall k | 0 <= k < |s.net.flights| :: t.net.flights[k].rest == s.net.flights[k].rest)
    && t.closing == s.closing
  }

  lemma RunsAlone(s: State, i: nat)
    requires i < |s.threads| && !s.threads[i].pc.Sending?
    ensures OnlyRan(s, StepThread(s, i), i)
  {
  }

  /** A thread outside PostSend that has a packet to send claims the flag while it is down. */
  lemma {:induction false} ClaimsFlag(s: State, i: nat) returns (sched: seq<Choice>)
    requires i < |s.threads| && !s.closing && !s.sending && !InPostSend(s.threads[i].pc)
    requires Distance(s.threads[i].pc) >= 6 ==> s.threads[i].program != []
    ensures var t := RunAll(s, sched);
            OnlyRan(s, t, i) && t.threads[i].pc == Posting && t.sending
    decreases Distance(s.threads[i].pc)
  {
    var t := StepThread(s, i);
    RunsAlone(s, i);
    if s.threads[i].pc.Exchanging? {
      sched := [Run(i)];
      RunCons(s, Run(i), []);
      assert [Run(i)] + [] == sched;
    } else {
      var rest := ClaimsFlag(t, i);
      sched := [Run(i)] + rest;
      RunCons(s, Run(i), rest);
    }
  }

  /** A thread outside PostSend finishes its call while the flag is up. */
  lemma {:induction false} FinishesCall(s: State, i: nat) returns (sched: seq<Choice>)
    requires i < |s.threads| && s.sending && !InPostSend(s.threads[i].pc)
    ensures var t := RunAll(s, sched);
            OnlyRan(s, t, i) && t.threads[i].pc == Idle
    decreases if s.threads[i].pc.Idle? then 0 else Distance(s.threads[i].pc)
  {
    if s.threads[i].pc.Idle? {
      sched := [];
    } else if s.threads[i].pc.Pushing? || (s.threads[i].pc.Entering? && !s.closing) {
      RunsAlone(s, i);
      var rest := FinishesCall(StepThread(s, i), i);
      sched := [Run(i)] + rest;
      RunCons(s, Run(i), rest);
    } else {
      RunsAlone(s, i);
      sched := [Run(i)];
      RunCons(s, Run(i), []);
      assert [Run(i)] + [] == sched;
    }
  }

  lemma ClaimBesideSender(s: State, k: nat, j: nat) returns (sched: seq<Choice>)
    requires Reused(s) && k < |s.threads| && j < |s.threads| && j != k
    requires InPostSend(s.threads[k].pc) && s.threads[j].program != []
    ensures !OneOnTheWay(RunAll(s, sched))
  {
    if InPostSend(s.threads[j].pc) {
      sched := [];
    } else {
      sched := ClaimsFlag(s, j);
      assert RunAll(s, sched).threads[k] == s.threads[k];
    }
  }

  lemma PickUpBesideSender(s: State) returns (sched: seq<Choice>)
    requires Reused(s) && s.net.flights != [] && |s.threads| >= 2 && s.threads[0].program != []
    requires !InPostSend(s.threads[0].pc) && !InPostSend(s.threads[1].pc)
    ensures !OneOnTheWay(RunAll(s, sched))
  {
    var p := ClaimsFlag(s, 0);
    var t := RunAll(s, p);
    var q := FinishesCall(t, 1);
    var u := RunAll(t, q);
    var c := Complete(1, 0);
    sched := p + (q + [c]);
    RunAllConcat(s, p, q + [c]);
    RunAllConcat(t, q, [c]);
    RunCons(u, c, []);
    assert [c] + [] == [c];
    assert InPostSend(Step(u, c).threads[0].pc) && InPostSend(Step(u, c).threads[1].pc);
  }

  /** Sends for the next client exclude one another, for every schedule and whatever the threads are
      going to send, if and only if there is at most one worker, or no send of the previous client
      is outstanding and no thread is inside PostSend for it. */
  lemma ExclusiveExactly(s: State)
    requires Reused(s)
    ensures AlwaysExclusive(s) <==> |s.threads| <= 1 || Initial(s)
  {
    if |s.threads| <= 1 || Initial(s) {
      forall ps, sched | |ps| == |s.threads| ensures OneOnTheWay(RunAll(WithPrograms(s, ps), sched)) {
        var t := WithPrograms(s, ps);
        ThreadsAlways(t, sched);
        if Initial(s) {
          HandOverIsQueueOrder(t, sched);
        }
      }
    } else {
      var ps := SomePrograms(|s.threads|);
      var sched := BreaksExclusion(WithPrograms(s, ps));
      assert !OneOnTheWay(RunAll(WithPrograms(s, ps), sched));
    }
  }

  lemma BreaksExclusion(s: State) returns (sched: seq<Choice>)
    requires Reused(s) && !Initial(s) && |s.threads| >= 2
    requires forall i | 0 <= i < |s.threads| :: s.threads[i].program != []
    ensures !OneOnTheWay(RunAll(s, sched))
  {
    if k :| 0 <= k < |s.threads| && InPostSend(s.threads[k].pc) {
      sched := ClaimBesideSender(s, k, if k == 0 then 1 else 0);
    } else {
      sched := PickUpBesideSender(s);
    }
  }

  // ---- the same, as it happens

  function Relabelled(q: seq<Entry>): (r: seq<Entry>)
    ensures |r| == |q| && forall k | 0 <= k < |r| :: r[k] == Entry(LeftOver, q[k].packet)
  {
    seq(|q|, k requires 0 <= k < |q| => Entry(LeftOver, q[k].packet))
  }

  function MadeStale(pc: Pc): (r: Pc)
    ensures Stale(r)
  {
    match pc
    case Pushing(p, _) => Pushing(p, true)
    case Sending(batch) => Sending(Relabelled(batch))
    case _ => pc
  }

  /** The pool hands the object to the next client: the flags are reset, the old socket is gone, the
      queue and the threads inside a call are as they were. */
  function HandedOn(t: State, programs: seq<seq<Packet>>): (s: State)
    requires |programs| == |t.threads|
    ensures Reused(s)
  {
    var q := Relabelled(t.queue);
    State(q, false, false, Net(false, Aborted(t.net.flights), []),
          seq(|t.threads|, i requires 0 <= i < |t.threads| => Thread(MadeStale(t.threads[i].pc), programs[i])),
          Nobody, Past(q, [], [], [], q != []))
  }

  /** A thread queues its packet after the session was closed. */
  function ClosingSchedule(): seq<Choice> {
    [Run(0), CloseIt, Run(0)] + [Run(0), Run(0)]
  }

  lemma ClosesWithPacketQueued(p: Packet)
    ensures var t := RunAll(Alone(p), ClosingSchedule());
            t.closing && Quiet(t) && |t.threads| == 1 && t.queue == [Entry(QueuedBy(0), p)]
  {
    var s, e := Alone(p), Entry(QueuedBy(0), p);
    RunAllConcat(s, [Run(0), CloseIt, Run(0)], [Run(0), Run(0)]);
    RunThree(s, Run(0), CloseIt, Run(0));
    var u := Step(Step(Step(s, Run(0)), CloseIt), Run(0));
    assert u.threads == [Thread(Exchanging, [])] && u.queue == [] + [e] == [e];
    RunTwo(u, Run(0), Run(0));
  }

  /** A packet left in the queue: the next client is sent the previous client's packet, ahead of its
      own first one. */
  lemma PreviousClientsPacket(p: Packet, q: Packet)
    ensures var t := RunAll(Alone(p), ClosingSchedule());
            && t.closing && Quiet(t) && |t.threads| == 1
            && RunAll(HandedOn(t, [[q]]), SendSteps(0)).past.handed ==
                 [Entry(LeftOver, p), Entry(QueuedBy(0), q)]
  {
    ClosesWithPacketQueued(p);
    var t := RunAll(Alone(p), ClosingSchedule());
    var s := HandedOn(t, [[q]]);
    assert s.queue == [Entry(LeftOver, p)];
    SendsItsPacket(s, 0);
  }

  /** A packet in a thread's hands: the session closes behind the closing test of EnqueueSend. The
      queue is empty and no send outstanding, and still the next client gets the packet. */
  lemma PacketInHand(p: Packet, q: Packet)
    ensures var t := RunAll(Alone(p), [Run(0), CloseIt]);
            && t.closing && t.queue == [] && t.net.flights == [] && |t.threads| == 1
            && exists sched :: Entry(LeftOver, p) in RunAll(HandedOn(t, [[q]]), sched).past.handed
  {
    var t := RunAll(Alone(p), [Run(0), CloseIt]);
    RunTwo(Alone(p), Run(0), CloseIt);
    assert [p][1..] == [];
    assert t.threads == [Thread(Pushing(p, false), [])];
    var s, e := HandedOn(t, [[q]]), Entry(LeftOver, p);
    var s1 := Step(s, Run(0));
    assert s.queue == [] && s1.queue == [] + [e] == [e];
    var s2 := Step(s1, Run(0));
    assert s2.threads[0].pc == Posting;
    Posts(s2, 0);
    var three := [Run(0), Run(0), Run(0)];
    RunCons(s1, Run(0), three);
    RunCons(s, Run(0), [Run(0)] + three);
    assert e in RunAll(s, [Run(0)] + ([Run(0)] + three)).past.handed;
  }

  /** Thread 0 sends p, picks up its finished send, and the session closes. */
  function LastPickUp(p: Packet): seq<Choice> {
    SendSteps(0) + [Transmit(0, |p|), Run(0)] + [Complete(0, 0), CloseIt]
  }

  lemma PicksUpAndCloses(p: Packet, q: Packet)
    ensures var t := RunAll(Workers(2, p, q), LastPickUp(p));
            && t.closing && t.queue == [] && t.net.flights == []
            && t.threads == [Thread(Posting, []), Thread(Idle, [q])]
  {
    var s := Workers(2, p, q);
    var first := SendSteps(0) + [Transmit(0, |p|), Run(0)];
    RunAllConcat(s, first, [Complete(0, 0), CloseIt]);
    SentByThread0(s, p, q);
    var u := RunAll(s, first);
    assert u.threads == [Thread(Idle, []), Thread(Idle, [q])];
    RunTwo(u, Complete(0, 0), CloseIt);
  }

  /** A thread inside PostSend: it picked up the last send of the previous client, the queue is empty
      and nothing outstanding, and still two threads end up inside PostSend. */
  lemma SenderInside(p: Packet, q: Packet)
    ensures var t := RunAll(Workers(2, p, q), LastPickUp(p));
            && t.closing && t.queue == [] && t.net.flights == [] && |t.threads| == 2
            && !OneOnTheWay(RunAll(HandedOn(t, [[], [q]]), [Run(1), Run(1), Run(1)]))
  {
    PicksUpAndCloses(p, q);
    var r := HandedOn(RunAll(Workers(2, p, q), LastPickUp(p)), [[], [q]]);
    Claims(r, 1);
    var v := RunAll(r, [Run(1), Run(1), Run(1)]);
    assert InPostSend(v.threads[0].pc) && InPostSend(v.threads[1].pc);
  }
}
