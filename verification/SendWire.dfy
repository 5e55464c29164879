/** What a client receives: the bytes the kernel transmits of the batches handed to WSASend, some of
    them possibly only after PostSend has destroyed the buffers they are read from. */
module SendWire {
  import opened Bytes
  import opened CStrings
  import opened SendQueue

  /** What is still to be transmitted. */
  function InFlight(fs: seq<Flight>): seq<Byte> {
    if fs == [] then [] else fs[0].rest
  }

  /** The bytes on the wire, when the k-th byte read from destroyed memory happens to be mem(k). */
  function Shown(wire: seq<Option<Byte>>, mem: nat -> Byte): (b: seq<Byte>)
    ensures |b| == |wire|
  {
    seq(|wire|, k requires 0 <= k < |wire| => if wire[k].Some? then wire[k].value else mem(k))
  }

  lemma {:induction false} PayloadConcat(p: seq<Entry>, q: seq<Entry>)
    ensures Payload(p + q) == Payload(p) + Payload(q)
  {
    if p == [] {
      assert p + q == q;
    } else {
      assert (p + q)[0] == p[0] && (p + q)[1..] == p[1..] + q;
      PayloadConcat(p[1..], q);
    }
  }

  /** Up to the bytes read from destroyed buffers, the wire is what was handed over, without what is
      in flight; a lost connection only cuts it short. */
  predicate WireOk(n: Net, sent: seq<Byte>) {
    && |n.wire| + |InFlight(n.flights)| <= |sent|
    && (forall k | 0 <= k < |n.wire| :: n.wire[k].Some? ==> n.wire[k].value == sent[k])
    && (n.broken ==> InFlight(n.flights) == [])
    && (!n.broken ==> sent[|n.wire|..] == InFlight(n.flights))
  }

  predicate WireInvariant(s: State) {
    OneSender(s) && WireOk(s.net, Payload(s.past.handed))
  }

  lemma HandedStays(s: State, c: Choice)
    requires c.Run? && c.thread < |s.threads| ==> !s.threads[c.thread].pc.Sending?
    ensures Step(s, c).past.handed == s.past.handed
  {
  }

  lemma WireOnPost(s: State, i: nat)
    requires WireInvariant(s) && i < |s.threads| && s.threads[i].pc.Sending?
    ensures WireOk(StepThread(s, i).net, Payload(StepThread(s, i).past.handed))
  {
    assert s.owner == Worker(i) && s.net.flights == [];
    PayloadConcat(s.past.handed, s.threads[i].pc.batch);
  }

  lemma WireOnTransmit(n: Net, sent: seq<Byte>, m: nat)
    requires WireOk(n, sent) && |n.flights| == 1 && m <= |n.flights[0].rest|
    ensures var f := n.flights[0];
            WireOk(n.(wire := n.wire + Out(f, m), flights := [f.(rest := f.rest[m..])]), sent)
  {
    var f := n.flights[0];
    var w := n.wire + Out(f, m);
    if n.broken {
      assert f.rest == [] && w == n.wire;
    } else {
      assert f.rest == sent[|n.wire|..];
      SliceFacts(sent, |n.wire|, m);
      forall k | 0 <= k < |w| && w[k].Some? ensures w[k].value == sent[k] {
        if k >= |n.wire| {
          assert w[k] == Out(f, m)[k - |n.wire|];
        }
      }
    }
  }

  lemma SliceFacts<T>(s: seq<T>, i: nat, m: nat)
    requires i + m <= |s|
    ensures s[i..][m..] == s[i + m..]
    ensures forall k | 0 <= k < m :: s[i..][k] == s[i + k]
  {
  }

  /** Neither the wire nor, short of a lost connection, what is in flight changes elsewhere. */
  lemma NetElsewhere(s: State, c: Choice)
    requires OneSender(s) && !c.Transmit?
    requires c.Run? && c.thread < |s.threads| ==> !s.threads[c.thread].pc.Sending?
    ensures Step(s, c).net.wire == s.net.wire
    ensures InFlight(Step(s, c).net.flights) == if c.Break? then [] else InFlight(s.net.flights)
    ensures Step(s, c).net.broken <==> s.net.broken || c.Break?
  {
    if c.Run? && c.thread < |s.threads| {
      NetOnRun(s, c.thread);
    }
  }

  lemma NetOnRun(s: State, i: nat)
    requires i < |s.threads| && !s.threads[i].pc.Sending?
    ensures StepThread(s, i).net.wire == s.net.wire && StepThread(s, i).net.broken == s.net.broken
    ensures InFlight(StepThread(s, i).net.flights) == InFlight(s.net.flights)
  {
  }

  lemma WireElsewhere(n: Net, t: Net, sent: seq<Byte>)
    requires WireOk(n, sent) && t.wire == n.wire
    requires InFlight(t.flights) == [] || InFlight(t.flights) == InFlight(n.flights)
    requires t.broken || InFlight(t.flights) == InFlight(n.flights)
    requires if n.broken then t.broken else t.broken ==> InFlight(t.flights) == []
    ensures WireOk(t, sent)
  {
  }

  lemma TransmitNet(s: State, k: nat, n: nat)
    requires |s.net.flights| == 1 && k == 0
    ensures var f := s.net.flights[0];
            var m := Min(n, |f.rest|);
            Step(s, Transmit(k, n)).net ==
              s.net.(wire := s.net.wire + Out(f, m), flights := [f.(rest := f.rest[m..])])
  {
    var f := s.net.flights[0];
    var g := f.(rest := f.rest[Min(n, |f.rest|)..]);
    assert s.net.flights[0 := g] == [g];
  }

  lemma WireStep(s: State, c: Choice)
    requires WireInvariant(s)
    ensures WireInvariant(Step(s, c))
  {
    OneSenderStep(s, c);
    var sent := Payload(s.past.handed);
    if c.Run? && c.thread < |s.threads| && s.threads[c.thread].pc.Sending? {
      WireOnPost(s, c.thread);
    } else if !c.Transmit? {
      HandedStays(s, c);
      NetElsewhere(s, c);
      WireElsewhere(s.net, Step(s, c).net, sent);
    } else if c.flight < |s.net.flights| {
      HandedStays(s, c);
      TransmitNet(s, c.flight, c.count);
      WireOnTransmit(s.net, sent, Min(c.count, |s.net.flights[0].rest|));
    }
  }

  // ---- sends still pending when their PostSend returns

  /** This choice returns from PostSend before all its bytes are transmitted. */
  predicate LeavesPending(s: State, c: Choice) {
    && c.Run? && c.thread < |s.threads| && s.threads[c.thread].pc.Returning?
    && exists k | 0 <= k < |s.net.flights| ::
         s.net.flights[k].thread == c.thread && s.net.flights[k].rest != []
  }

  predicate NeverLeftPending(s: State, sched: seq<Choice>)
    decreases |sched|
  {
    sched == [] || (!LeavesPending(s, sched[0]) && NeverLeftPending(Step(s, sched[0]), sched[1..]))
  }

  /** A byte was, or is going to be, read from a destroyed buffer. */
  predicate Tainted(n: Net) {
    None in n.wire || exists k | 0 <= k < |n.flights| :: n.flights[k].freed && n.flights[k].rest != []
  }

  lemma TaintOnReturn(s: State, i: nat)
    requires i < |s.threads| && s.threads[i].pc.Returning?
    ensures Tainted(StepThread(s, i).net) <==> Tainted(s.net) || LeavesPending(s, Run(i))
  {
    var fs, gs := s.net.flights, StepThread(s, i).net.flights;
    assert forall k | 0 <= k < |fs| ::
        gs[k].rest == fs[k].rest && (gs[k].freed <==> fs[k].freed || fs[k].thread == i);
    if Tainted(s.net) && None !in s.net.wire {
      var k :| 0 <= k < |fs| && fs[k].freed && fs[k].rest != [];
      assert gs[k].freed && gs[k].rest != [];
    }
    if LeavesPending(s, Run(i)) {
      var k :| 0 <= k < |fs| && fs[k].thread == i && fs[k].rest != [];
      assert gs[k].freed && gs[k].rest != [];
    }
  }

  lemma TaintOnTransmit(n: Net, m: nat)
    requires |n.flights| == 1 && m <= |n.flights[0].rest|
    ensures var f := n.flights[0];
            Tainted(n.(wire := n.wire + Out(f, m), flights := [f.(rest := f.rest[m..])])) <==> Tainted(n)
  {
    var f := n.flights[0];
    var t := n.(wire := n.wire + Out(f, m), flights := [f.(rest := f.rest[m..])]);
    assert None in t.wire <==> None in n.wire || (f.freed && m > 0) by {
      if f.freed && m > 0 { assert Out(f, m)[0] == None; }
    }
    assert Tainted(n) <==> None in n.wire || (f.freed && f.rest != []);
    assert Tainted(t) <==> None in t.wire || (f.freed && t.flights[0].rest != []);
  }

  lemma OtherNets(s: State, c: Choice)
    requires OneSender(s) && !c.Transmit? && !c.Break?
    requires c.Run? && c.thread < |s.threads| ==> !s.threads[c.thread].pc.Returning?
    ensures Tainted(Step(s, c).net) <==> Tainted(s.net)
    ensures !LeavesPending(s, c)
  {
    match c
    case Run(i) => if i < |s.threads| { NetPosted(s, i); }
    case Complete(i, k) => NetPickedUp(s, i, k);
    case _ =>
  }

  lemma NetPosted(s: State, i: nat)
    requires OneSender(s) && i < |s.threads| && !s.threads[i].pc.Returning?
    ensures Tainted(StepThread(s, i).net) <==> Tainted(s.net)
  {
    var n, t := s.net, StepThread(s, i).net;
    if t != n {
      assert s.owner == Worker(i) && n.flights == [];
      assert t.wire == n.wire && |t.flights| == 1 && !t.flights[0].freed;
    }
  }

  lemma NetPickedUp(s: State, i: nat, k: nat)
    requires OneSender(s)
    ensures Tainted(Step(s, Complete(i, k)).net) <==> Tainted(s.net)
  {
    var n, t := s.net, Step(s, Complete(i, k)).net;
    if t != n {
      assert t.wire == n.wire && t.flights == [] && |n.flights| == 1 && n.flights[0].rest == [];
    }
  }

  /** Returning too early is the only way to get tainted, and only a lost connection undoes it. */
  lemma TaintStep(s: State, c: Choice)
    requires OneSender(s)
    ensures !c.Break? ==> (Tainted(Step(s, c).net) <==> Tainted(s.net) || LeavesPending(s, c))
    ensures c.Break? ==> (Tainted(Step(s, c).net) ==> Tainted(s.net)) && !LeavesPending(s, c)
    ensures s.net.broken || c.Break? ==> Step(s, c).net.broken
  {
    if c.Run? && c.thread < |s.threads| && s.threads[c.thread].pc.Returning? {
      TaintOnReturn(s, c.thread);
    } else if c.Transmit? {
      if c.flight < |s.net.flights| {
        TransmitNet(s, c.flight, c.count);
        TaintOnTransmit(s.net, Min(c.count, |s.net.flights[0].rest|));
      }
    } else if !c.Break? {
      OtherNets(s, c);
    }
  }

  lemma {:induction false} TaintRun(s: State, sched: seq<Choice>)
    requires WireInvariant(s)
    ensures WireInvariant(RunAll(s, sched))
    ensures Tainted(RunAll(s, sched).net) ==> Tainted(s.net) || !NeverLeftPending(s, sched)
    ensures Tainted(s.net) || !NeverLeftPending(s, sched) ==>
              Tainted(RunAll(s, sched).net) || RunAll(s, sched).net.broken
    ensures s.net.broken ==> RunAll(s, sched).net.broken
    decreases |sched|
  {
    if sched != [] {
      var c := sched[0];
      WireStep(s, c);
      TaintStep(s, c);
      TaintRun(Step(s, c), sched[1..]);
    }
  }

  // ---- when the client receives what was queued for it

  /** Whatever destroyed memory holds, what the client has received is a prefix of the bytes in the
      queue at the start and those queued since. */
  ghost predicate ReceivesAsQueued(queue: seq<Entry>, t: State) {
    forall mem: nat -> Byte :: Shown(t.net.wire, mem) <= Payload(queue + t.past.pushed)
  }

  lemma NoneNeverFits(wire: seq<Option<Byte>>, bytes: seq<Byte>)
    requires None in wire
    ensures exists mem: nat -> Byte :: !(Shown(wire, mem) <= bytes)
  {
    var k :| 0 <= k < |wire| && wire[k] == None;
    var other: Byte := if k < |bytes| && bytes[k] == 0 then 1 else 0;
    var mem: nat -> Byte := (_: nat) => other;
    assert Shown(wire, mem)[k] == other;
    assert !(Shown(wire, mem) <= bytes);
  }

  /** The bytes are right, whatever the memory holds, exactly when none was read after its PostSend
      had returned. */
  lemma RightUnlessReadLate(queue: seq<Entry>, t: State)
    requires WireInvariant(t) && t.past.handed <= queue + t.past.pushed
    ensures ReceivesAsQueued(queue, t) <==> None !in t.net.wire
  {
    var all := queue + t.past.pushed;
    assert Payload(t.past.handed) <= Payload(all) by {
      assert all == t.past.handed + all[|t.past.handed|..];
      PayloadConcat(t.past.handed, all[|t.past.handed|..]);
    }
    if None in t.net.wire {
      NoneNeverFits(t.net.wire, Payload(all));
    } else {
      forall mem: nat -> Byte ensures Shown(t.net.wire, mem) <= Payload(all) {
        assert forall k | 0 <= k < |t.net.wire| :: t.net.wire[k] in t.net.wire;
      }
    }
  }

  lemma Reachable(s: State, sched: seq<Choice>)
    requires Initial(s)
    ensures WireInvariant(RunAll(s, sched))
    ensures RunAll(s, sched).past.handed <= s.queue + RunAll(s, sched).past.pushed
  {
    TaintRun(s, sched);
    HandOverIsQueueOrder(s, sched);
  }

  lemma TransmitMovesNoPacket(t: State, n: nat)
    ensures Step(t, Transmit(0, n)).past == t.past
  {
  }

  /** However many more bytes the kernel transmits now, the client receives what was queued. */
  ghost predicate ReceivesAsQueuedFrom(queue: seq<Entry>, t: State) {
    forall n: nat :: ReceivesAsQueued(queue, Step(t, Transmit(0, n)))
  }

  /** For every schedule: if no send was still pending when its PostSend returned, the client has
      received a prefix of what was queued, and goes on to; and on a connection that holds, that is
      so only if none was. */
  lemma PendingSends(s: State, sched: seq<Choice>)
    requires Initial(s)
    ensures NeverLeftPending(s, sched) ==> ReceivesAsQueued(s.queue, RunAll(s, sched))
    ensures !RunAll(s, sched).net.broken ==>
              (ReceivesAsQueuedFrom(s.queue, RunAll(s, sched)) <==> NeverLeftPending(s, sched))
  {
    var t := RunAll(s, sched);
    TaintRun(s, sched);
    Reachable(s, sched);
    RightUnlessReadLate(s.queue, t);
    forall n: nat
      ensures Tainted(t.net) <==> Tainted(Step(t, Transmit(0, n)).net)
      ensures ReceivesAsQueued(s.queue, Step(t, Transmit(0, n))) <==> None !in Step(t, Transmit(0, n)).net.wire
    {
      WireStep(t, Transmit(0, n));
      TaintStep(t, Transmit(0, n));
      TransmitMovesNoPacket(t, n);
      RightUnlessReadLate(s.queue, Step(t, Transmit(0, n)));
    }
    var rest := |InFlight(t.net.flights)|;
    assert InFlight(Step(t, Transmit(0, rest)).net.flights) == [];
    assert Tainted(t.net) ==> None in Step(t, Transmit(0, rest)).net.wire;
    assert Tainted(t.net) ==> !ReceivesAsQueued(s.queue, Step(t, Transmit(0, rest)));
  }

  /** Delivery: when an open session on a connection that holds is at rest, every program is done, no
      packet is stranded and no send was left pending, the client has received all that was left in
      the queue and every packet of every thread, each thread's in its own order. */
  lemma EverythingDelivered(s: State, sched: seq<Choice>, mem: nat -> Byte, i: nat)
    requires Initial(s) && i < |s.threads| && NeverLeftPending(s, sched)
    requires var t := RunAll(s, sched);
             !t.closing && !t.net.broken && Quiet(t) && !t.past.overtaken && ProgramsDone(t)
    ensures var t := RunAll(s, sched);
            && Shown(t.net.wire, mem) == Payload(s.queue + t.past.pushed)
            && By(t.past.pushed, i) == s.threads[i].program
  {
    EverythingHandedOver(s, sched, i);
    PendingSends(s, sched);
    Reachable(s, sched);
    var t := RunAll(s, sched);
    assert |t.net.wire| == |Payload(t.past.handed)|;
    assert Shown(t.net.wire, mem) <= Payload(s.queue + t.past.pushed);
  }
}
