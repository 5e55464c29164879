/** What still happens to a session's send queue once the session is closing, and what one look of
    PostSend at the queue takes. */
module SendClosing {
  import opened Bytes
  import opened CStrings
  import opened SendQueue
  import opened SendProgress

  /** How many threads are past the closing test of EnqueueSend with a packet to queue. */
  function Pushers(ths: seq<Thread>): nat {
    if ths == [] then 0 else (if ths[0].pc.Pushing? then 1 else 0) + Pushers(ths[1..])
  }

  lemma {:induction false} PushersUpdate(ths: seq<Thread>, i: nat, th: Thread)
    requires i < |ths|
    ensures Pushers(ths[i := th]) + (if ths[i].pc.Pushing? then 1 else 0) ==
              Pushers(ths) + if th.pc.Pushing? then 1 else 0
  {
    if i > 0 {
      PushersUpdate(ths[1..], i - 1, th);
      assert ths[i := th][1..] == ths[1..][i - 1 := th];
    } else {
      assert ths[0 := th][1..] == ths[1..];
    }
  }

  lemma {:induction false} NoPushers(ths: seq<Thread>)
    requires forall i | 0 <= i < |ths| :: !ths[i].pc.Pushing?
    ensures Pushers(ths) == 0
  {
    if ths != [] {
      assert forall i | 0 <= i < |ths[1..]| :: ths[1..][i] == ths[i + 1];
      NoPushers(ths[1..]);
    }
  }

  lemma ClosingRun(s: State, i: nat)
    requires s.closing && i < |s.threads|
    ensures |StepThread(s, i).past.pushed| + Pushers(StepThread(s, i).threads) <=
              |s.past.pushed| + Pushers(s.threads)
  {
    var t := StepThread(s, i);
    assert t.threads == s.threads[i := t.threads[i]];
    PushersUpdate(s.threads, i, t.threads[i]);
    NewPusher(s, i);
  }

  /** No thread gets past the closing test of a closing session. */
  lemma NewPusher(s: State, i: nat)
    requires s.closing && i < |s.threads|
    ensures !StepThread(s, i).threads[i].pc.Pushing?
    ensures |StepThread(s, i).past.pushed| == |s.past.pushed| + if s.threads[i].pc.Pushing? then 1 else 0
  {
  }

  lemma ClosingStep(s: State, c: Choice)
    requires s.closing
    ensures Step(s, c).closing
    ensures |Step(s, c).past.pushed| + Pushers(Step(s, c).threads) <= |s.past.pushed| + Pushers(s.threads)
  {
    ThreadsStay(s, c);
    match c
    case Run(i) => if i < |s.threads| { ClosingRun(s, i); }
    case Fail(i) =>
      if i < |s.threads| {
        PushersUpdate(s.threads, i, s.threads[i].(pc := Idle));
      }
    case Complete(i, k) =>
      if i < |s.threads| {
        PushersUpdate(s.threads, i, s.threads[i].(pc := Posting));
      }
    case _ =>
  }

  /** Once a session is closing, at most one packet is queued for each thread that was past the
      closing test, in every interleaving. */
  lemma {:induction false} QueuedWhileClosing(s: State, sched: seq<Choice>)
    requires s.closing
    ensures |RunAll(s, sched).past.pushed| <= |s.past.pushed| + Pushers(s.threads)
    decreases |sched|
  {
    if sched != [] {
      ClosingStep(s, sched[0]);
      QueuedWhileClosing(Step(s, sched[0]), sched[1..]);
    }
  }

  /** And nothing if there was no such thread. */
  lemma NothingQueuedWhileClosing(s: State, sched: seq<Choice>)
    requires s.closing && forall i | 0 <= i < |s.threads| :: !s.threads[i].pc.Pushing?
    ensures RunAll(s, sched).past.pushed == s.past.pushed
  {
    NoPushers(s.threads);
    QueuedWhileClosing(s, sched);
    LeftoverAlways(s, sched);
  }

  /** Past the closing test of PostSend. */
  predicate PastTest(pc: Pc) { pc.Taking? || pc.Sending? }

  predicate NobodyPastTest(s: State) {
    forall i | 0 <= i < |s.threads| :: !PastTest(s.threads[i].pc)
  }

  lemma ClosingSendsNothing(s: State, c: Choice)
    requires s.closing && NobodyPastTest(s)
    ensures NobodyPastTest(Step(s, c)) && Step(s, c).past.handed == s.past.handed
  {
    if c.Run? && c.thread < |s.threads| {
      assert !PastTest(s.threads[c.thread].pc);
      assert !PastTest(StepThread(s, c.thread).threads[c.thread].pc);
    }
  }

  /** Once a session is closing and nobody is past the closing test of PostSend, nothing more is
      handed to WSASend, in any interleaving. */
  lemma {:induction false} NothingSentWhileClosing(s: State, sched: seq<Choice>)
    requires s.closing && NobodyPastTest(s)
    ensures RunAll(s, sched).past.handed == s.past.handed
    decreases |sched|
  {
    if sched != [] {
      ThreadsStay(s, sched[0]);
      ClosingSendsNothing(s, sched[0]);
      NothingSentWhileClosing(Step(s, sched[0]), sched[1..]);
    }
  }

  /** One look at the queue takes everything up to 16 packets, in order, and leaves the rest. */
  lemma TakesUpTo16(s: State, i: nat)
    requires i < |s.threads| && s.threads[i].pc.Taking?
    ensures var t := StepThread(s, i);
            var pc := t.threads[i].pc;
            && (s.queue == [] ==> pc == Clearing && t.queue == [])
            && (s.queue != [] ==> pc.Sending? && pc.batch + t.queue == s.queue)
            && (0 < |s.queue| <= 16 ==> t.queue == [])
            && (|s.queue| > 16 ==> |pc.batch| == 16)
  {
  }
}
