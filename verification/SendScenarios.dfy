/** Schedules that show what the send queue does not guarantee, and exactly when it does. */
module SendScenarios {
  import opened Bytes
  import opened CStrings
  import opened SendQueue
  import opened SendWire
  import opened SendProgress

  // ---- a send still pending when its PostSend returns

  /** A fresh session with one thread that has one packet to send. */
  function Alone(p: Packet): State {
    State([], false, false, Net(false, [], []), [Thread(Idle, [p])], Nobody, Past([], [], [], [], false))
  }

  /** Queue, claim, WSASend, return; only then does the kernel read the buffers. */
  function PendingSchedule(p: Packet): seq<Choice> {
    SendSteps(0) + [Run(0), Transmit(0, |p|)]
  }

  /** For any packet: a schedule of one thread in which every byte the client receives is read from
      destroyed memory, so that what it receives need not be what was queued. */
  lemma PendingSendReadsFreed(p: Packet)
    requires p != []
    ensures Initial(Alone(p))
    ensures var t := RunAll(Alone(p), PendingSchedule(p));
            && !t.closing && t.past.handed == t.past.pushed == [Entry(QueuedBy(0), p)]
            && |t.net.wire| == |p| && (forall k | 0 <= k < |p| :: t.net.wire[k] == None)
            && exists mem: nat -> Byte :: !(Shown(t.net.wire, mem) <= p)
  {
    var s, t := Alone(p), RunAll(Alone(p), PendingSchedule(p));
    RunAllConcat(s, SendSteps(0), [Run(0), Transmit(0, |p|)]);
    SentAlone(p);
    ReturnsThenTransmits(RunAll(s, SendSteps(0)), p);
    assert t.net.wire[0] == None;
    NoneNeverFits(t.net.wire, p);
  }

  lemma OnePacket(p: Packet)
    ensures Payload([Entry(QueuedBy(0), p)]) == p
  {
    var es := [Entry(QueuedBy(0), p)];
    assert es[1..] == [] && Payload(es) == p + Payload(es[1..]);
  }

  lemma SentAlone(p: Packet)
    ensures var e := Entry(QueuedBy(0), p);
            RunAll(Alone(p), SendSteps(0)) ==
              State([], true, false, Net(false, [Flight(0, p, false)], []), [Thread(Returning, [])],
                    Kernel, Past([], [e], [e], [], false))
  {
    var e := Entry(QueuedBy(0), p);
    SendsItsPacket(Alone(p), 0);
    OnePacket(p);
    assert [] + [e] == [e];
  }

  lemma ReturnsThenTransmits(u: State, p: Packet)
    requires u.threads == [Thread(Returning, [])] && u.net == Net(false, [Flight(0, p, false)], [])
    ensures var t := RunAll(u, [Run(0), Transmit(0, |p|)]);
            && t.past == u.past && t.closing == u.closing
            && |t.net.wire| == |p| && forall k | 0 <= k < |p| :: t.net.wire[k] == None
  {
    var c := Transmit(0, |p|);
    var v := Step(u, Run(0));
    assert v.net.flights == [Flight(0, p, true)];
    RunTwo(u, Run(0), c);
  }

  // ---- the lost wakeup, and the number of workers

  /** The one open rest state to avoid: a packet is queued and nobody is going to send it. */
  predicate Stranded(t: State) {
    !t.closing && Quiet(t) && t.queue != []
  }

  /** Two threads have one packet each; any others have nothing to do. */
  predicate TwoSenders(s: State, p: Packet, q: Packet) {
    && Initial(s) && s.queue == [] && s.net.wire == [] && |s.threads| >= 2
    && s.threads[0] == Thread(Idle, [p]) && s.threads[1] == Thread(Idle, [q])
  }

  /** Thread 0 sends p and finds the queue empty ... */
  function UpToClear(p: Packet): seq<Choice> {
    SendSteps(0) + [Transmit(0, |p|), Run(0)] + [Complete(0, 0), Run(0), Run(0)]
  }

  /** ... thread 1 queues q and finds the flag still set, and thread 0 clears it. */
  function Overtake(): seq<Choice> {
    [Run(1), Run(1), Run(1), Run(0)]
  }

  /** Thread 0 has sent p and stands before clearing the flag. */
  function AboutToClear(s: State, p: Packet): State {
    var e := Entry(QueuedBy(0), p);
    State([], true, false, Net(false, [], Certain(p)),
          if |s.threads| > 0 then s.threads[0 := Thread(Clearing, [])] else [],
          Worker(0), Past([], [e], [e], [], false))
  }

  lemma SentByThread0(s: State, p: Packet, q: Packet)
    requires TwoSenders(s, p, q)
    ensures var e := Entry(QueuedBy(0), p);
            RunAll(s, SendSteps(0) + [Transmit(0, |p|), Run(0)]) ==
              State([], true, false, Net(false, [Flight(0, [], true)], Certain(p)),
                    s.threads[0 := Thread(Idle, [])], Kernel, Past([], [e], [e], [], false))
  {
    var e, u := Entry(QueuedBy(0), p), Posted(s, 0);
    RunAllConcat(s, SendSteps(0), [Transmit(0, |p|), Run(0)]);
    SendsItsPacket(s, 0);
    OnePacket(p);
    assert [] + [e] == [e];
    assert u.net.flights == [Flight(0, p, false)];
    TransmitsAndReturns(u, 0);
    assert [] + Certain(p) == Certain(p);
    assert u.threads[0 := Thread(Idle, [])] == s.threads[0 := Thread(Idle, [])];
  }

  lemma ReachesClear(s: State, p: Packet, q: Packet)
    requires TwoSenders(s, p, q)
    ensures RunAll(s, UpToClear(p)) == AboutToClear(s, p)
  {
    var u := RunAll(s, SendSteps(0) + [Transmit(0, |p|), Run(0)]);
    RunAllConcat(s, SendSteps(0) + [Transmit(0, |p|), Run(0)], [Complete(0, 0), Run(0), Run(0)]);
    SentByThread0(s, p, q);
    RunThree(u, Complete(0, 0), Run(0), Run(0));
    PicksUp(u);
    assert u.threads[0 := Thread(Clearing, [])] == s.threads[0 := Thread(Clearing, [])];
  }

  /** Thread 0 picks up its finished send and finds the queue empty. */
  lemma PicksUp(u: State)
    requires |u.threads| > 0 && u.threads[0] == Thread(Idle, []) && !u.closing && u.queue == []
    requires |u.net.flights| == 1 && u.net.flights[0].rest == []
    ensures Step(Step(Step(u, Complete(0, 0)), Run(0)), Run(0)) ==
              u.(threads := u.threads[0 := Thread(Clearing, [])], owner := Worker(0),
                 net := u.net.(flights := []), past := u.past.(overtaken := false))
  {
    var u1 := Step(u, Complete(0, 0));
    assert u1.net.flights == [] && u1.threads == u.threads[0 := Thread(Posting, [])];
    var u2 := Step(u1, Run(0));
    assert u2.threads == u.threads[0 := Thread(Taking, [])];
    assert Step(u2, Run(0)).threads == u.threads[0 := Thread(Clearing, [])];
  }

  /** The lost wakeup: for any two packets and any number of further threads, a schedule after which
      everybody has returned, the session is open, and the second packet stays in the queue. */
  lemma StrandedPacket(s: State, p: Packet, q: Packet)
    requires TwoSenders(s, p, q)
    ensures var t := RunAll(s, UpToClear(p) + Overtake());
            && !t.closing && t.net == Net(false, [], Certain(p))
            && t.threads == s.threads[0 := Thread(Idle, [])][1 := Thread(Idle, [])]
            && t.queue == [Entry(QueuedBy(1), q)] && t.past.handed == [Entry(QueuedBy(0), p)]
  {
    RunAllConcat(s, UpToClear(p), Overtake());
    ReachesClear(s, p, q);
    var u := AboutToClear(s, p);
    assert u.threads[1] == Thread(Idle, [q]) && [q][1..] == [];
    RunCons(u, Run(1), [Run(1), Run(1), Run(0)]);
    assert Overtake() == [Run(1)] + [Run(1), Run(1), Run(0)];
    var u1 := Step(u, Run(1));
    assert u1.threads == u.threads[1 := Thread(Pushing(q, false), [])];
    RunThree(u1, Run(1), Run(1), Run(0));
    var u2 := Step(u1, Run(1));
    assert u2.threads == u.threads[1 := Thread(Exchanging, [])];
    var u3 := Step(u2, Run(1));
    assert u3.threads == u.threads[1 := Thread(Idle, [])];
    assert Step(u3, Run(0)).threads == s.threads[0 := Thread(Idle, [])][1 := Thread(Idle, [])];
  }

  /** n threads, the first two with a packet each. */
  function Workers(n: nat, p: Packet, q: Packet): (s: State)
    ensures n >= 2 ==> TwoSenders(s, p, q)
    ensures |s.threads| == n
  {
    var ths := seq(n, i requires 0 <= i < n => Thread(Idle, if i == 0 then [p] else if i == 1 then [q] else []));
    State([], false, false, Net(false, [], []), ths, Nobody, Past([], [], [], [], false))
  }

  /** A single thread cannot push while it is about to clear the flag. */
  lemma {:induction false} OneThreadNeverOvertakes(s: State, sched: seq<Choice>)
    requires |s.threads| <= 1 && !s.past.overtaken
    ensures !RunAll(s, sched).past.overtaken
    decreases |sched|
  {
    if sched != [] {
      ThreadsStay(s, sched[0]);
      assert !Step(s, sched[0]).past.overtaken;
      OneThreadNeverOvertakes(Step(s, sched[0]), sched[1..]);
    }
  }

  /** Some run of n threads, from an empty queue, strands a packet. */
  ghost predicate CanStrand(n: nat) {
    exists s, sched :: Initial(s) && s.queue == [] && |s.threads| == n && Stranded(RunAll(s, sched))
  }

  /** With n worker threads no packet is ever stranded if and only if n is at most one. */
  lemma StrandingNeedsTwoWorkers(n: nat)
    ensures CanStrand(n) <==> n >= 2
  {
    if n >= 2 {
      var s, sched := Workers(n, [], []), UpToClear([]) + Overtake();
      StrandedPacket(s, [], []);
      assert Stranded(RunAll(s, sched));
    } else if CanStrand(n) {
      var s, sched :| Initial(s) && s.queue == [] && |s.threads| == n && Stranded(RunAll(s, sched));
      OneThreadNeverOvertakes(s, sched);
      AllSentUnlessOvertaken(s, sched);
    }
  }
}
