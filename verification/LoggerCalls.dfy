/** The logger in terms of its callers: which call puts which line into which file, in every
    interleaving, and that a call nobody interferes with does what the logger's method does. */
module LoggerCalls {
  import opened Bytes
  import opened CStrings
  import opened ChatPackets
  import opened Loggers
  import opened LoggerProtocol
  import opened LoggerTheorems

  // ---- the calls of a run, in lock order

  /** A finished call: who made it, and the clock reading it used. */
  datatype Done = Done(thread: nat, call: Call, time: int)

  function DoneNow(s: State, c: Choice): seq<Done> {
    if c.Run? && c.thread < |s.threads| && s.threads[c.thread].pc.Leaving? then
      [Done(c.thread, s.threads[c.thread].call, s.threads[c.thread].pc.t)]
    else []
  }

  function DoneOf(s: State, sched: seq<Choice>): seq<Done>
    decreases |sched|
  {
    if sched == [] then [] else DoneNow(s, sched[0]) + DoneOf(Step(s, sched[0]), sched[1..])
  }

  /** The lines of the info file: one for each Info, Warn and Chat before the first Shutdown. */
  function InfoRecords(ds: seq<Done>): seq<Record> {
    if ds == [] || ds[0].call.Shutdown? then []
    else
      var t := ds[0].time;
      (match ds[0].call
       case Info(m) => [Record("Info", t, m)]
       case Warn(m) => [Record("Warn", t, m)]
       case Chat(d, sid) => [Record("Info", t, ChatText(d, sid))]
       case Error(_) => []
       case Shutdown => [])
      + InfoRecords(ds[1..])
  }

  /** The lines of the error file: one for each Error before the first Shutdown. */
  function ErrorRecords(ds: seq<Done>): seq<Record> {
    if ds == [] || ds[0].call.Shutdown? then []
    else
      (if ds[0].call.Error? then [Record("Error", ds[0].time, ds[0].call.msg)] else [])
      + ErrorRecords(ds[1..])
  }

  // ---- a thread's operation is that of its call

  predicate CallOk(th: Thread) {
    match th.pc
    case Idle => true
    case Called(c) => OpOf(c) == OpOf(th.call)
    case StopError => OpOf(th.call) == Stop
    case _ => th.pc.op == OpOf(th.call)
  }

  predicate CallsOk(s: State) {
    forall i | 0 <= i < |s.threads| :: CallOk(s.threads[i])
  }

  lemma CallOkStep(s: State, i: nat)
    requires i < |s.threads| && CallOk(s.threads[i])
    ensures CallOk(StepThread(s, i).threads[i])
  {
  }

  function Translated(ds: seq<Done>): seq<Commit> {
    if ds == [] then [] else [Commit(ds[0].thread, OpOf(ds[0].call), ds[0].time)] + Translated(ds[1..])
  }

  lemma {:induction false} TranslatedConcat(p: seq<Done>, q: seq<Done>)
    ensures Translated(p + q) == Translated(p) + Translated(q)
  {
    if p == [] {
      assert p + q == q;
    } else {
      assert (p + q)[0] == p[0] && (p + q)[1..] == p[1..] + q;
      TranslatedConcat(p[1..], q);
      ConcatAssoc([Commit(p[0].thread, OpOf(p[0].call), p[0].time)], Translated(p[1..]), Translated(q));
    }
  }

  lemma {:induction false} CommitsAreCalls(s: State, sched: seq<Choice>)
    requires CallsOk(s)
    ensures CommitsOf(s, sched) == Translated(DoneOf(s, sched))
    decreases |sched|
  {
    if sched != [] {
      var c := sched[0];
      if c.Run? && c.thread < |s.threads| {
        CallOkStep(s, c.thread);
      }
      CommitsAreCalls(Step(s, c), sched[1..]);
      OneDone(s, c);
      TranslatedConcat(DoneNow(s, c), DoneOf(Step(s, c), sched[1..]));
    }
  }

  lemma OneDone(s: State, c: Choice)
    requires CallsOk(s)
    ensures Committed(s, c) == Translated(DoneNow(s, c))
  {
    var ds := DoneNow(s, c);
    if ds != [] {
      assert ds[1..] == [] && CallOk(s.threads[c.thread]);
    }
  }

  lemma {:induction false} RecordsByCall(ds: seq<Done>)
    ensures RecordsTo(ToInfo, Translated(ds)) == InfoRecords(ds)
    ensures RecordsTo(ToError, Translated(ds)) == ErrorRecords(ds)
  {
    if ds != [] {
      RecordsByCall(ds[1..]);
      assert Translated(ds)[1..] == Translated(ds[1..]);
    }
  }

  // ---- conservation and order

  /** Conservation: at every unlocked moment of every interleaving the info file holds exactly one
      whole line for each Info, Warn and Chat that took the lock before the first Shutdown, in lock
      order, and the error file one for each Error; a file that could not be opened stays empty. */
  lemma OneLinePerCall(s: State, sched: seq<Choice>)
    requires Initial(s) && RunAll(s, sched).owner == None
    ensures var t := RunAll(s, sched);
            && t.info.frags == (if s.info.isOpen then Lines(InfoRecords(DoneOf(s, sched))) else [])
            && t.error.frags == (if s.error.isOpen then Lines(ErrorRecords(DoneOf(s, sched))) else [])
  {
    OneLinePerOp(s, sched, ToInfo);
    OneLinePerOp(s, sched, ToError);
    CommitsAreCalls(s, sched);
    RecordsByCall(DoneOf(s, sched));
  }

  function CallsBy(ds: seq<Done>, i: nat): seq<Call> {
    if ds == [] then []
    else (if ds[0].thread == i then [ds[0].call] else []) + CallsBy(ds[1..], i)
  }

  /** The call a thread is in, and those it has not begun. */
  function Remaining(th: Thread): seq<Call> {
    (if th.pc.Idle? then [] else [th.call]) + th.program
  }

  lemma {:induction false} CallsByConcat(p: seq<Done>, q: seq<Done>, i: nat)
    ensures CallsBy(p + q, i) == CallsBy(p, i) + CallsBy(q, i)
  {
    if p == [] {
      assert p + q == q;
    } else {
      assert (p + q)[0] == p[0] && (p + q)[1..] == p[1..] + q;
      CallsByConcat(p[1..], q, i);
      ConcatAssoc(if p[0].thread == i then [p[0].call] else [], CallsBy(p[1..], i), CallsBy(q, i));
    }
  }

  lemma OwnStepKeepsCalls(s: State, i: nat)
    requires i < |s.threads|
    ensures Remaining(s.threads[i]) ==
              (if s.threads[i].pc.Leaving? then [s.threads[i].call] else [])
              + Remaining(StepThread(s, i).threads[i])
  {
    var th, uh := s.threads[i], StepThread(s, i).threads[i];
    if th.pc.Idle? && th.program != [] {
      assert Remaining(uh) == [th.program[0]] + th.program[1..];
    } else {
      assert uh.program == th.program && uh.call == th.call;
      assert uh.pc.Idle? <==> th.pc.Idle? || th.pc.Leaving?;
    }
  }

  lemma StepKeepsCalls(s: State, c: Choice, i: nat)
    requires i < |s.threads|
    ensures |Step(s, c).threads| == |s.threads|
    ensures CallsBy(DoneNow(s, c), i) + Remaining(Step(s, c).threads[i]) == Remaining(s.threads[i])
  {
    var ds := DoneNow(s, c);
    if c.Run? && c.thread < |s.threads| {
      OwnStepKeepsCalls(s, c.thread);
    }
    if ds != [] {
      assert ds[1..] == [] && CallsBy(ds[1..], i) == [];
      assert CallsBy(ds, i) == if ds[0].thread == i then [ds[0].call] else [];
    }
  }

  /** In every interleaving the calls of a thread that are done, in lock order, followed by those that
      are not, are its program: nothing is lost, repeated or reordered. */
  lemma {:induction false} ProgramOrderKept(s: State, sched: seq<Choice>, i: nat)
    requires i < |s.threads|
    ensures i < |RunAll(s, sched).threads|
    ensures CallsBy(DoneOf(s, sched), i) + Remaining(RunAll(s, sched).threads[i]) == Remaining(s.threads[i])
    decreases |sched|
  {
    if sched != [] {
      var c := sched[0];
      var now, later := DoneNow(s, c), DoneOf(Step(s, c), sched[1..]);
      StepKeepsCalls(s, c, i);
      ProgramOrderKept(Step(s, c), sched[1..], i);
      CallsByConcat(now, later, i);
      ConcatAssoc(CallsBy(now, i), CallsBy(later, i), Remaining(RunAll(s, sched).threads[i]));
    }
  }

  /** A run that cannot go on has done every thread's whole program, in order. */
  lemma QuiescentMeansDone(s: State, sched: seq<Choice>, i: nat)
    requires Initial(s) && i < |s.threads|
    requires forall j | 0 <= j < |RunAll(s, sched).threads| :: !Enabled(RunAll(s, sched), j)
    ensures CallsBy(DoneOf(s, sched), i) == s.threads[i].program
  {
    LoggerProgress(s, sched);
    ProgramOrderKept(s, sched, i);
    var t := RunAll(s, sched);
    assert Finished(t.threads[i]);
    assert Remaining(t.threads[i]) == [] && Remaining(s.threads[i]) == s.threads[i].program;
    assert CallsBy(DoneOf(s, sched), i) + [] == CallsBy(DoneOf(s, sched), i);
  }

  // ---- the clock

  /** The clock as its ticks set it. */
  function LastTick(now: int, sched: seq<Choice>): int
    decreases |sched|
  {
    if sched == [] then now
    else LastTick(if sched[0].Tick? then sched[0].time else now, sched[1..])
  }

  /** No call touches the clock, so the reading a line carries is that of the last tick before it. */
  lemma {:induction false} ClockFollowsTicks(s: State, sched: seq<Choice>)
    ensures RunAll(s, sched).clock == LastTick(s.clock, sched)
    decreases |sched|
  {
    if sched != [] {
      if sched[0].Run? && sched[0].thread < |s.threads| {
        OnlyTicksMoveTheClock(s, sched[0].thread);
      }
      ClockFollowsTicks(Step(s, sched[0]), sched[1..]);
    }
  }

  // ---- one call, uninterrupted

  /** A stream after one flushed line, if it is open. */
  function Written(st: Stream, r: Record): Stream {
    if st.isOpen then Stream(true, st.frags + Line(r), |st.frags| + FRAGMENTS) else st
  }

  /** What the methods of the class do to the info stream ... */
  function InfoAfter(st: Stream, c: Call, now: int): Stream {
    match c
    case Info(m) => Written(st, Record("Info", now, m))
    case Warn(m) => Written(st, Record("Warn", now, m))
    case Error(_) => st
    case Chat(d, sid) => Written(st, Record("Info", now, ChatText(d, sid)))
    case Shutdown => Stream(false, st.frags, if st.isOpen then |st.frags| else st.flushed)
  }

  /** ... and to the error stream. */
  function ErrorAfter(st: Stream, c: Call, now: int): Stream {
    match c
    case Error(m) => Written(st, Record("Error", now, m))
    case Shutdown => Stream(false, st.frags, if st.isOpen then |st.frags| else st.flushed)
    case _ => st
  }

  function Alone(i: nat, n: nat): seq<Choice> {
    if n == 0 then [] else [Run(i)] + Alone(i, n - 1)
  }

  lemma AloneStep(s: State, i: nat, n: nat)
    requires i < |s.threads| && n > 0
    ensures RunAll(s, Alone(i, n)) == RunAll(StepThread(s, i), Alone(i, n - 1))
  {
    assert Alone(i, n)[1..] == Alone(i, n - 1);
  }

  lemma OneMore(frags: seq<Fragment>, line: seq<Fragment>, k: nat)
    requires k < |line|
    ensures frags + line[k..] == (frags + [line[k]]) + line[k + 1..]
    ensures |frags| + |line[k..]| == |frags + [line[k]]| + |line[k + 1..]|
  {
    assert line[k..] == [line[k]] + line[k + 1..];
  }

  /** The rest of a line, the flush and the unlocking. */
  lemma {:induction false} LineAlone(s: State, i: nat) returns (n: nat)
    requires i < |s.threads| && s.threads[i].pc.Writing?
    requires s.threads[i].pc.op.Write? && s.threads[i].pc.k < FRAGMENTS
    ensures var pc := s.threads[i].pc;
            var st := At(s, pc.op.dest);
            var rest := Line(Record(pc.op.tag, pc.t, pc.op.msg))[pc.k..];
            RunAll(s, Alone(i, n)) ==
              Put(s, pc.op.dest, st.(frags := st.frags + rest, flushed := |st.frags| + |rest|)).(
                owner := None, threads := s.threads[i := s.threads[i].(pc := Idle)])
    decreases FRAGMENTS - s.threads[i].pc.k
  {
    var pc, t := s.threads[i].pc, StepThread(s, i);
    var st := At(s, pc.op.dest);
    var line := Line(Record(pc.op.tag, pc.t, pc.op.msg));
    OneMore(st.frags, line, pc.k);
    assert At(t, pc.op.dest) == Insert(st, line[pc.k]);
    if pc.k + 1 < FRAGMENTS {
      var m := LineAlone(t, i);
      n := m + 1;
      assert t.threads[i := t.threads[i].(pc := Idle)] == s.threads[i := s.threads[i].(pc := Idle)];
    } else {
      EndAlone(t, i);
      n := 3;
      assert line[pc.k + 1..] == [];
      assert t.threads[i := t.threads[i].(pc := Idle)] == s.threads[i := s.threads[i].(pc := Idle)];
    }
    AloneStep(s, i, n);
  }

  lemma EndAlone(s: State, i: nat)
    requires i < |s.threads| && s.threads[i].pc.Flushing? && s.threads[i].pc.op.Write?
    ensures var pc := s.threads[i].pc;
            var st := At(s, pc.op.dest);
            RunAll(s, Alone(i, 2)) ==
              Put(s, pc.op.dest, st.(flushed := |st.frags|)).(
                owner := None, threads := s.threads[i := s.threads[i].(pc := Idle)])
  {
    var t := StepThread(s, i);
    var u := StepThread(t, i);
    assert u.threads == s.threads[i := s.threads[i].(pc := Idle)];
    AloneStep(s, i, 2);
    AloneStep(t, i, 1);
  }

  lemma BeginsLine(s: State, i: nat)
    requires i < |s.threads| && s.threads[i].pc.Waiting? && s.threads[i].pc.op.Write? && s.owner == None
    requires At(s, s.threads[i].pc.op.dest).isOpen
    ensures var op := s.threads[i].pc.op;
            StepThread(StepThread(StepThread(s, i), i), i) ==
              Put(s, op.dest, Insert(At(s, op.dest), Text("["))).(
                owner := Some(i), threads := s.threads[i := s.threads[i].(pc := Writing(op, 1, s.clock))])
  {
    var op := s.threads[i].pc.op;
    var s1 := StepThread(s, i);
    assert s1 == s.(owner := Some(i), threads := s.threads[i := s.threads[i].(pc := Entered(op))]);
    var s2 := StepThread(s1, i);
    assert s2.threads == s.threads[i := s.threads[i].(pc := Reading(op))];
    assert StepThread(s2, i).threads == s.threads[i := s.threads[i].(pc := Writing(op, 1, s.clock))];
  }

  lemma SkipsClosed(s: State, i: nat)
    requires i < |s.threads| && s.threads[i].pc.Waiting? && s.threads[i].pc.op.Write? && s.owner == None
    requires !At(s, s.threads[i].pc.op.dest).isOpen
    ensures StepThread(StepThread(StepThread(s, i), i), i) ==
              s.(threads := s.threads[i := s.threads[i].(pc := Idle)])
  {
    var op := s.threads[i].pc.op;
    var s1 := StepThread(s, i);
    assert s1 == s.(owner := Some(i), threads := s.threads[i := s.threads[i].(pc := Entered(op))]);
    var s2 := StepThread(s1, i);
    assert s2.threads == s.threads[i := s.threads[i].(pc := Leaving(op, 0))];
    assert StepThread(s2, i).threads == s.threads[i := s.threads[i].(pc := Idle)];
  }

  lemma AloneThree(s: State, i: nat, n: nat)
    requires i < |s.threads| && n >= 3
    ensures RunAll(s, Alone(i, n)) == RunAll(StepThread(StepThread(StepThread(s, i), i), i), Alone(i, n - 3))
  {
    AloneStep(s, i, n);
    AloneStep(StepThread(s, i), i, n - 1);
    AloneStep(StepThread(StepThread(s, i), i), i, n - 2);
  }

  /** From the lock on, a write puts one flushed line into its stream, if that is open. */
  lemma WriteAlone(s: State, i: nat) returns (n: nat)
    requires i < |s.threads| && s.threads[i].pc.Waiting? && s.threads[i].pc.op.Write? && s.owner == None
    ensures var op := s.threads[i].pc.op;
            RunAll(s, Alone(i, n)) ==
              Put(s, op.dest, Written(At(s, op.dest), Record(op.tag, s.clock, op.msg))).(
                threads := s.threads[i := s.threads[i].(pc := Idle)])
  {
    var op := s.threads[i].pc.op;
    var r := Record(op.tag, s.clock, op.msg);
    var t := StepThread(StepThread(StepThread(s, i), i), i);
    if At(s, op.dest).isOpen {
      BeginsLine(s, i);
      var m := LineAlone(t, i);
      n := m + 3;
      OneMore(At(s, op.dest).frags, Line(r), 0);
      assert t.threads[i := t.threads[i].(pc := Idle)] == s.threads[i := s.threads[i].(pc := Idle)];
    } else {
      SkipsClosed(s, i);
      n := 3;
    }
    AloneThree(s, i, n);
  }

  lemma StopAlone(s: State, i: nat)
    requires i < |s.threads| && s.threads[i].pc == Waiting(Stop) && s.owner == None
    ensures RunAll(s, Alone(i, 4)) ==
              s.(info := CloseStream(s.info), error := CloseStream(s.error),
                 threads := s.threads[i := s.threads[i].(pc := Idle)])
  {
    var s1 := StepThread(s, i);
    var s2 := StepThread(s1, i);
    var s3 := StepThread(s2, i);
    var s4 := StepThread(s3, i);
    assert s4.threads == s.threads[i := s.threads[i].(pc := Idle)];
    AloneStep(s, i, 4);
    AloneStep(s1, i, 3);
    AloneStep(s2, i, 2);
    AloneStep(s3, i, 1);
  }

  /** Up to the lock; Chat hands its text to Info on the way. */
  lemma EntersAlone(s: State, i: nat) returns (n: nat)
    requires i < |s.threads| && s.threads[i].pc == Idle && s.threads[i].program != []
    ensures var c := s.threads[i].program[0];
            RunAll(s, Alone(i, n)) ==
              s.(threads := s.threads[i := Thread(Waiting(OpOf(c)), s.threads[i].program[1..], c)])
  {
    var c := s.threads[i].program[0];
    var s1 := StepThread(s, i);
    var s2 := StepThread(s1, i);
    n := if c.Chat? then 3 else 2;
    AloneStep(s, i, n);
    AloneStep(s1, i, n - 1);
    if c.Chat? {
      AloneStep(s2, i, 1);
      assert StepThread(s2, i).threads ==
             s.threads[i := Thread(Waiting(OpOf(c)), s.threads[i].program[1..], c)];
    } else {
      assert s2.threads == s.threads[i := Thread(Waiting(OpOf(c)), s.threads[i].program[1..], c)];
    }
  }

  lemma {:induction false} AloneConcat(s: State, i: nat, m: nat, n: nat)
    requires i < |s.threads|
    ensures RunAll(s, Alone(i, m + n)) == RunAll(RunAll(s, Alone(i, m)), Alone(i, n))
    decreases m
  {
    if m > 0 {
      AloneStep(s, i, m + n);
      AloneStep(s, i, m);
      AloneConcat(StepThread(s, i), i, m - 1, n);
    }
  }

  /** A call that finds the lock free and runs without interruption does to the two streams exactly
      what the logger's method of that name does, and leaves everything else as it was. */
  lemma CallAlone(s: State, i: nat) returns (n: nat)
    requires i < |s.threads| && s.owner == None
    requires s.threads[i].pc == Idle && s.threads[i].program != []
    ensures var c := s.threads[i].program[0];
            RunAll(s, Alone(i, n)) ==
              State(None, InfoAfter(s.info, c, s.clock), ErrorAfter(s.error, c, s.clock), s.clock,
                    s.threads[i := Thread(Idle, s.threads[i].program[1..], c)])
  {
    var c := s.threads[i].program[0];
    var m := EntersAlone(s, i);
    var u := RunAll(s, Alone(i, m));
    if c.Shutdown? {
      StopAlone(u, i);
      n := m + 4;
      AloneConcat(s, i, m, 4);
    } else {
      var k := WriteAlone(u, i);
      n := m + k;
      AloneConcat(s, i, m, k);
    }
    assert u.threads[i := u.threads[i].(pc := Idle)] ==
           s.threads[i := Thread(Idle, s.threads[i].program[1..], c)];
  }
}
