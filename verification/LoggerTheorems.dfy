/** What the refinement gives: program order, conservation up to shutdown, timestamp order; and that
    the protocol never gets stuck. */
module LoggerTheorems {
  import opened Bytes
  import opened CStrings
  import opened Loggers
  import opened LoggerProtocol

  // ---- program order

  function Ops(program: seq<Call>): seq<Op> {
    if program == [] then [] else [OpOf(program[0])] + Ops(program[1..])
  }

  function Pending(pc: Pc): seq<Op> {
    match pc
    case Idle => []
    case Called(c) => [OpOf(c)]
    case StopError => [Stop]
    case Waiting(op) => [op]
    case Entered(op) => [op]
    case Reading(op) => [op]
    case Writing(op, _, _) => [op]
    case Flushing(op, _) => [op]
    case Leaving(op, _) => [op]
  }

  /** What thread i still has to do. */
  function Todo(s: State, i: nat): seq<Op>
    requires i < |s.threads|
  {
    Pending(s.threads[i].pc) + Ops(s.threads[i].program)
  }

  function OpsBy(ms: seq<Commit>, i: nat): seq<Op> {
    if ms == [] then []
    else (if ms[0].thread == i then [ms[0].op] else []) + OpsBy(ms[1..], i)
  }

  /** A thread's own step moves its head operation along, or commits it. */
  lemma OwnStepKeepsOrder(s: State, i: nat)
    requires i < |s.threads|
    ensures |StepThread(s, i).threads| == |s.threads|
    ensures forall j | 0 <= j < |s.threads| && j != i :: StepThread(s, i).threads[j] == s.threads[j]
    ensures Todo(s, i) ==
              (if s.threads[i].pc.Leaving? then [s.threads[i].pc.op] else []) + Todo(StepThread(s, i), i)
  {
    var th, uh := s.threads[i], StepThread(s, i).threads[i];
    if th.pc.Idle? {
      assert th.program != [] ==> Ops(th.program) == Pending(uh.pc) + Ops(uh.program);
    } else {
      assert uh.program == th.program;
      assert th.pc.Leaving? || Pending(uh.pc) == Pending(th.pc);
    }
  }

  lemma StepKeepsOrder(s: State, c: Choice, i: nat)
    requires i < |s.threads|
    ensures |Step(s, c).threads| == |s.threads|
    ensures OpsBy(Committed(s, c), i) + Todo(Step(s, c), i) == Todo(s, i)
  {
    var ms := Committed(s, c);
    if c.Run? && c.thread < |s.threads| {
      OwnStepKeepsOrder(s, c.thread);
    }
    if ms != [] {
      assert ms[1..] == [] && OpsBy(ms[1..], i) == [];
      assert OpsBy(ms, i) == if ms[0].thread == i then [ms[0].op] else [];
    }
  }

  lemma {:induction false} OpsByConcat(p: seq<Commit>, q: seq<Commit>, i: nat)
    ensures OpsBy(p + q, i) == OpsBy(p, i) + OpsBy(q, i)
  {
    if p == [] {
      assert p + q == q;
    } else {
      assert (p + q)[0] == p[0] && (p + q)[1..] == p[1..] + q;
      OpsByConcat(p[1..], q, i);
      var head := if p[0].thread == i then [p[0].op] else [];
      assert OpsBy(p + q, i) == head + OpsBy(p[1..] + q, i);
      assert OpsBy(p, i) == head + OpsBy(p[1..], i);
    }
  }

  /** What a thread has committed, followed by what it still has to do, is what its program asks. */
  lemma {:induction false} OpsInOrder(s: State, sched: seq<Choice>, i: nat)
    requires i < |s.threads|
    ensures i < |RunAll(s, sched).threads|
    ensures OpsBy(CommitsOf(s, sched), i) + Todo(RunAll(s, sched), i) == Todo(s, i)
    decreases |sched|
  {
    if sched != [] {
      var c := sched[0];
      var now, later := Committed(s, c), CommitsOf(Step(s, c), sched[1..]);
      StepKeepsOrder(s, c, i);
      OpsInOrder(Step(s, c), sched[1..], i);
      OpsByConcat(now, later, i);
      ConcatAssoc(OpsBy(now, i), OpsBy(later, i), Todo(RunAll(s, sched), i));
    }
  }

  // ---- conservation up to shutdown

  /** The records the calls before the first Shutdown put into file d. */
  function RecordsTo(d: Dest, ms: seq<Commit>): seq<Record> {
    if ms == [] || ms[0].op.Stop? then []
    else
      (if ms[0].op.dest == d then [Record(ms[0].op.tag, ms[0].time, ms[0].op.msg)] else [])
      + RecordsTo(d, ms[1..])
  }

  lemma {:induction false} ClosedLogStays(a: Atomic, ms: seq<Commit>, d: Dest)
    requires !LogAt(a, d).isOpen
    ensures LogAt(ApplyAll(a, ms), d) == LogAt(a, d)
    decreases |ms|
  {
    if ms != [] {
      ClosedLogStays(Apply(a, ms[0]), ms[1..], d);
    }
  }

  lemma {:induction false} AtomicLogRecords(a: Atomic, ms: seq<Commit>, d: Dest)
    requires LogAt(a, d).isOpen
    ensures LogAt(ApplyAll(a, ms), d).records == LogAt(a, d).records + RecordsTo(d, ms)
    decreases |ms|
  {
    if ms != [] {
      if ms[0].op.Stop? {
        ClosedLogStays(Apply(a, ms[0]), ms[1..], d);
      } else {
        AtomicLogRecords(Apply(a, ms[0]), ms[1..], d);
      }
    }
  }

  /** At every unlocked moment each file that could be opened holds exactly the lines committed to it
      before the first Shutdown; a file that could not be opened stays empty. */
  lemma OneLinePerOp(s: State, sched: seq<Choice>, d: Dest)
    requires Initial(s) && RunAll(s, sched).owner == None
    ensures At(RunAll(s, sched), d).frags ==
              if At(s, d).isOpen then Lines(RecordsTo(d, CommitsOf(s, sched))) else []
  {
    WholeLinesWhenUnlocked(s, sched);
    var ms := CommitsOf(s, sched);
    if At(s, d).isOpen {
      AtomicLogRecords(FreshLog(s), ms, d);
      assert [] + RecordsTo(d, ms) == RecordsTo(d, ms);
    } else {
      ClosedLogStays(FreshLog(s), ms, d);
    }
  }

  // ---- timestamps

  /** The clock never goes backwards. */
  predicate ClockForward(now: int, sched: seq<Choice>)
    decreases |sched|
  {
    sched == [] ||
    match sched[0]
    case Run(_) => ClockForward(now, sched[1..])
    case Tick(t) => now <= t && ClockForward(t, sched[1..])
  }

  predicate TimesSorted(rs: seq<Record>) {
    forall i, j | 0 <= i < j < |rs| :: rs[i].time <= rs[j].time
  }

  /** The reading the owner has taken for an unfinished line in d, or else the clock. */
  function LatestReading(s: State, d: Dest): int {
    var pc := OwnerPc(s);
    if (pc.Writing? || pc.Flushing? || pc.Leaving?) && pc.op.Write? && pc.op.dest == d && At(s, d).isOpen
    then pc.t else s.clock
  }

  predicate TimesOk(s: State, a: Atomic, d: Dest) {
    && TimesSorted(LogAt(a, d).records)
    && (forall r | r in LogAt(a, d).records :: r.time <= LatestReading(s, d))
    && LatestReading(s, d) <= s.clock
  }

  lemma OnlyTicksMoveTheClock(s: State, i: nat)
    requires i < |s.threads|
    ensures StepThread(s, i).clock == s.clock
  {
  }

  lemma ClockStep(s: State, sched: seq<Choice>)
    requires sched != [] && ClockForward(s.clock, sched)
    ensures sched[0].Tick? ==> s.clock <= sched[0].time
    ensures ClockForward(Step(s, sched[0]).clock, sched[1..])
  {
    if sched[0].Run? && sched[0].thread < |s.threads| {
      OnlyTicksMoveTheClock(s, sched[0].thread);
    }
  }

  /** Appending a record that is not earlier than the others, or leaving the log alone. */
  lemma AppendInOrder(g: Log, m: Commit, a: Atomic, d: Dest, last: int)
    requires g == LogAt(a, d) && TimesSorted(g.records)
    requires forall r | r in g.records :: r.time <= last
    requires m.op.Write? && m.op.dest == d && g.isOpen ==>
               m.time <= last && forall r | r in g.records :: r.time <= m.time
    ensures var h := LogAt(Apply(a, m), d);
            TimesSorted(h.records) && forall r | r in h.records :: r.time <= last
  {
    var h := LogAt(Apply(a, m), d);
    assert h.records == g.records || (m.op.Write? && h.records == g.records + [Record(m.op.tag, m.time, m.op.msg)]);
  }

  lemma TimesLeave(s: State, a: Atomic, i: nat, d: Dest)
    requires Related(s, a) && TimesOk(s, a, d)
    requires i < |s.threads| && s.threads[i].pc.Leaving?
    ensures TimesOk(StepThread(s, i), ApplyAll(a, Committed(s, Run(i))), d)
  {
    var m := Commit(i, s.threads[i].pc.op, s.threads[i].pc.t);
    assert ApplyAll(a, [m]) == Apply(a, m);
    AppendInOrder(LogAt(a, d), m, a, d, s.clock);
    assert LatestReading(StepThread(s, i), d) == s.clock;
  }

  lemma ReadingAdvances(s: State, a: Atomic, i: nat, d: Dest)
    requires Related(s, a) && LatestReading(s, d) <= s.clock
    requires i < |s.threads| && !s.threads[i].pc.Leaving?
    ensures LatestReading(s, d) <= LatestReading(StepThread(s, i), d) <= s.clock
  {
    if s.owner == Some(i) {
      assert OwnerPc(StepThread(s, i)) == StepThread(s, i).threads[i].pc;
    } else {
      OthersLeaveReading(s, a, i, d);
    }
  }

  lemma OthersLeaveReading(s: State, a: Atomic, i: nat, d: Dest)
    requires Related(s, a) && i < |s.threads| && s.owner != Some(i)
    ensures LatestReading(StepThread(s, i), d) == LatestReading(s, d)
  {
    assert !Critical(s.threads[i].pc);
    var t := StepThread(s, i);
    assert At(t, d) == At(s, d) && t.clock == s.clock;
    assert OwnerPc(t) == OwnerPc(s) || (OwnerPc(s) == Idle && OwnerPc(t).Entered?);
  }

  lemma TimesStep(s: State, a: Atomic, c: Choice, d: Dest)
    requires Related(s, a) && TimesOk(s, a, d)
    requires c.Tick? ==> s.clock <= c.time
    ensures TimesOk(Step(s, c), ApplyAll(a, Committed(s, c)), d)
  {
    if c.Run? && c.thread < |s.threads| && s.threads[c.thread].pc.Leaving? {
      TimesLeave(s, a, c.thread, d);
    } else {
      if c.Run? && c.thread < |s.threads| {
        OnlyTicksMoveTheClock(s, c.thread);
        ReadingAdvances(s, a, c.thread, d);
      }
      assert ApplyAll(a, []) == a;
    }
  }

  lemma {:induction false} TimesRun(s: State, a: Atomic, sched: seq<Choice>, d: Dest)
    requires Related(s, a) && TimesOk(s, a, d) && ClockForward(s.clock, sched)
    ensures TimesOk(RunAll(s, sched), ApplyAll(a, CommitsOf(s, sched)), d)
    decreases |sched|
  {
    if sched != [] {
      var c := sched[0];
      var t, b := Step(s, c), ApplyAll(a, Committed(s, c));
      ClockStep(s, sched);
      assert Related(t, b) by { StepRefines(s, a, c); }
      assert TimesOk(t, b, d) by { TimesStep(s, a, c, d); }
      TimesRun(t, b, sched[1..], d);
      ApplyAllConcat(a, Committed(s, c), CommitsOf(t, sched[1..]));
    }
  }

  /** If the clock never goes backwards, the timestamps in each file are non-decreasing, whatever the
      interleaving, because the clock is read inside the critical section. */
  lemma TimestampsInOrder(s: State, sched: seq<Choice>, d: Dest)
    requires Initial(s) && At(s, d).isOpen && ClockForward(s.clock, sched)
    ensures TimesSorted(RecordsTo(d, CommitsOf(s, sched)))
  {
    TimesRun(s, FreshLog(s), sched, d);
    var ms := CommitsOf(s, sched);
    AtomicLogRecords(FreshLog(s), ms, d);
    assert [] + RecordsTo(d, ms) == RecordsTo(d, ms);
  }

  // ---- progress

  predicate Finished(th: Thread) { th.pc == Idle && th.program == [] }

  predicate Enabled(s: State, i: nat)
    requires i < |s.threads|
  {
    !Finished(s.threads[i]) && !(s.threads[i].pc.Waiting? && s.owner.Some?)
  }

  /** Steps left inside a call. */
  function PcWork(pc: Pc): nat {
    match pc
    case Idle => 0
    case Leaving(_, _) => 1
    case Flushing(_, _) => 2
    case StopError => 2
    case Writing(_, k, _) => if k <= FRAGMENTS then 2 + FRAGMENTS - k else 2
    case Reading(_) => 2 + FRAGMENTS
    case Entered(_) => 3 + FRAGMENTS
    case Waiting(_) => 4 + FRAGMENTS
    case Called(c) => if c.Chat? then 6 + FRAGMENTS else 5 + FRAGMENTS
  }

  function ThreadWork(th: Thread): nat { PcWork(th.pc) + (7 + FRAGMENTS) * |th.program| }

  function Work(ths: seq<Thread>): nat {
    if ths == [] then 0 else ThreadWork(ths[0]) + Work(ths[1..])
  }

  lemma {:induction false} WorkUpdate(ths: seq<Thread>, i: nat, th: Thread)
    requires i < |ths|
    ensures Work(ths[i := th]) + ThreadWork(ths[i]) == Work(ths) + ThreadWork(th)
  {
    if i > 0 {
      WorkUpdate(ths[1..], i - 1, th);
      assert ths[i := th][1..] == ths[1..][i - 1 := th];
    } else {
      assert ths[0 := th][1..] == ths[1..];
    }
  }

  lemma OwnStepUsesWork(s: State, i: nat)
    requires i < |s.threads| && PcOk(s.threads[i].pc)
    ensures |StepThread(s, i).threads| == |s.threads|
    ensures Enabled(s, i) ==> ThreadWork(StepThread(s, i).threads[i]) < ThreadWork(s.threads[i])
  {
    var th, uh := s.threads[i], StepThread(s, i).threads[i];
    if th.pc.Idle? {
      assert th.program != [] ==> |th.program| == |uh.program| + 1;
    } else {
      assert uh.program == th.program;
      assert Enabled(s, i) ==> PcWork(uh.pc) < PcWork(th.pc);
    }
  }

  /** A step of an enabled thread uses up work; a step of any other changes nothing. */
  lemma StepUsesWork(s: State, a: Atomic, i: nat)
    requires Related(s, a) && i < |s.threads|
    ensures Enabled(s, i) ==> Work(StepThread(s, i).threads) < Work(s.threads)
    ensures !Enabled(s, i) ==> StepThread(s, i) == s
  {
    var t := StepThread(s, i);
    assert Critical(s.threads[i].pc) ==> s.owner == Some(i);
    assert PcOk(s.threads[i].pc);
    if Enabled(s, i) {
      OwnStepUsesWork(s, i);
      assert t.threads == s.threads[i := t.threads[i]];
      WorkUpdate(s.threads, i, t.threads[i]);
    }
  }

  /** No deadlock: while some thread is unfinished, some thread can move. */
  lemma SomeoneCanMove(s: State, a: Atomic)
    requires Related(s, a)
    requires exists i | 0 <= i < |s.threads| :: !Finished(s.threads[i])
    ensures exists i | 0 <= i < |s.threads| :: Enabled(s, i)
  {
    if s.owner.Some? {
      assert Enabled(s, s.owner.value);
    } else {
      var i :| 0 <= i < |s.threads| && !Finished(s.threads[i]);
      assert Enabled(s, i);
    }
  }

  /** How many choices of the schedule let an enabled thread move. */
  function Moves(s: State, sched: seq<Choice>): nat
    decreases |sched|
  {
    if sched == [] then 0
    else
      (if sched[0].Run? && sched[0].thread < |s.threads| && Enabled(s, sched[0].thread) then 1 else 0)
      + Moves(Step(s, sched[0]), sched[1..])
  }

  lemma {:induction false} MovesBounded(s: State, a: Atomic, sched: seq<Choice>)
    requires Related(s, a)
    ensures Moves(s, sched) + Work(RunAll(s, sched).threads) <= Work(s.threads)
    decreases |sched|
  {
    if sched != [] {
      var c := sched[0];
      StepRefines(s, a, c);
      if c.Run? && c.thread < |s.threads| {
        StepUsesWork(s, a, c.thread);
      }
      MovesBounded(Step(s, c), ApplyAll(a, Committed(s, c)), sched[1..]);
    }
  }

  /** Progress: from every reachable state with an unfinished call some thread can move, and the
      number of moves in any schedule is bounded by the work of the initial programs. */
  lemma LoggerProgress(s: State, sched: seq<Choice>)
    requires Initial(s)
    ensures var t := RunAll(s, sched);
            (forall i | 0 <= i < |t.threads| :: !Enabled(t, i)) <==>
            (forall i | 0 <= i < |t.threads| :: Finished(t.threads[i]))
    ensures Moves(s, sched) <= Work(s.threads)
  {
    LoggerRefinesAtomicLog(s, sched);
    MovesBounded(s, FreshLog(s), sched);
    var t := RunAll(s, sched);
    if exists i | 0 <= i < |t.threads| :: !Finished(t.threads[i]) {
      SomeoneCanMove(t, ApplyAll(FreshLog(s), CommitsOf(s, sched)));
    }
  }
}
