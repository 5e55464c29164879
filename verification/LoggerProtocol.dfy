/** The logger under concurrency: any number of threads, one non-recursive mutex, and every lock,
    test, insertion, clock reading, flush, close and unlock a step of its own. A schedule is a
    sequence of choices, so "for every schedule" is "for every interleaving". */
module LoggerProtocol {
  import opened Bytes
  import opened CStrings
  import opened ChatPackets
  import opened Loggers

  datatype Call =
    | Info(msg: seq<Byte>)
    | Warn(msg: seq<Byte>)
    | Error(msg: seq<Byte>)
    | Chat(data: ChatMessageData, sid: U64)
    | Shutdown

  datatype Dest = ToInfo | ToError

  /** What a call does once it has the lock. */
  datatype Op = Write(dest: Dest, tag: string, msg: seq<Byte>) | Stop

  function OpOf(c: Call): Op {
    match c
    case Info(m) => Write(ToInfo, "Info", m)
    case Warn(m) => Write(ToInfo, "Warn", m)
    case Error(m) => Write(ToError, "Error", m)
    case Chat(d, sid) => Write(ToInfo, "Info", ChatText(d, sid))
    case Shutdown => Stop
  }

  /** Where a thread stands. */
  datatype Pc =
    | Idle
    | Called(call: Call)            // inside a logging method, lock not requested yet
    | Waiting(op: Op)               // at lock_guard
    | Entered(op: Op)               // holds the lock; is_open not tested yet
    | Reading(op: Op)               // "[" is out; the clock is read next
    | Writing(op: Op, k: nat, t: int)  // k insertions are out; the next one is due
    | Flushing(op: Op, t: int)
    | StopError                     // info_ dealt with, error_ is next
    | Leaving(op: Op, t: int)       // about to unlock

  /** call is the last call begun; it records history and no step tests it. */
  datatype Thread = Thread(pc: Pc, program: seq<Call>, call: Call)

  datatype Stream = Stream(isOpen: bool, frags: seq<Fragment>, flushed: nat)

  datatype State =
    State(owner: Option<nat>, info: Stream, error: Stream, clock: int, threads: seq<Thread>)

  datatype Choice = Run(thread: nat) | Tick(time: int)

  function At(s: State, d: Dest): Stream { if d == ToInfo then s.info else s.error }

  function Put(s: State, d: Dest, st: Stream): State {
    if d == ToInfo then s.(info := st) else s.(error := st)
  }

  function Goto(s: State, i: nat, pc: Pc): State
    requires i < |s.threads|
  {
    s.(threads := s.threads[i := s.threads[i].(pc := pc)])
  }

  function CloseStream(st: Stream): Stream {
    if st.isOpen then Stream(false, st.frags, |st.frags|) else st
  }

  function Insert(st: Stream, f: Fragment): Stream { st.(frags := st.frags + [f]) }

  /** One step of thread i; a thread that cannot move leaves the state unchanged. */
  function StepThread(s: State, i: nat): (t: State)
    requires i < |s.threads|
    ensures |t.threads| == |s.threads|
    ensures forall j | 0 <= j < |s.threads| && j != i :: t.threads[j] == s.threads[j]
  {
    var th := s.threads[i];
    match th.pc
    case Idle =>
      if th.program == [] then s
      else s.(threads := s.threads[i := Thread(Called(th.program[0]), th.program[1..], th.program[0])])
    case Called(c) =>
      if c.Chat? then Goto(s, i, Called(Info(ChatText(c.data, c.sid)))) else Goto(s, i, Waiting(OpOf(c)))
    case Waiting(op) =>
      if s.owner.Some? then s else Goto(s, i, Entered(op)).(owner := Some(i))
    case Entered(op) =>
      (match op
       case Stop => Goto(s.(info := CloseStream(s.info)), i, StopError)
       case Write(d, _, _) =>
         if At(s, d).isOpen then Goto(Put(s, d, Insert(At(s, d), Text("["))), i, Reading(op))
         else Goto(s, i, Leaving(op, 0)))
    case StopError => Goto(s.(error := CloseStream(s.error)), i, Leaving(Stop, 0))
    case Reading(op) => Goto(s, i, Writing(op, 1, s.clock))
    case Writing(op, k, t) =>
      if op.Stop? || k >= FRAGMENTS then s
      else
        var r := Record(op.tag, t, op.msg);
        var next := if k + 1 == FRAGMENTS then Flushing(op, t) else Writing(op, k + 1, t);
        Goto(Put(s, op.dest, Insert(At(s, op.dest), Line(r)[k])), i, next)
    case Flushing(op, t) =>
      if op.Stop? then s
      else
        var st := At(s, op.dest);
        Goto(Put(s, op.dest, st.(flushed := |st.frags|)), i, Leaving(op, t))
    case Leaving(op, t) => Goto(s, i, Idle).(owner := None)
  }

  function Step(s: State, c: Choice): State {
    match c
    case Tick(t) => s.(clock := t)
    case Run(i) => if i < |s.threads| then StepThread(s, i) else s
  }

  function RunAll(s: State, sched: seq<Choice>): State
    decreases |sched|
  {
    if sched == [] then s else RunAll(Step(s, sched[0]), sched[1..])
  }

  // ---- the atomic log

  /** A finished call: who, what, and the clock reading it used. */
  datatype Commit = Commit(thread: nat, op: Op, time: int)

  /** A call takes effect, as a whole, when its thread unlocks. */
  function Committed(s: State, c: Choice): seq<Commit> {
    if c.Run? && c.thread < |s.threads| && s.threads[c.thread].pc.Leaving? then
      [Commit(c.thread, s.threads[c.thread].pc.op, s.threads[c.thread].pc.t)]
    else []
  }

  function CommitsOf(s: State, sched: seq<Choice>): seq<Commit>
    decreases |sched|
  {
    if sched == [] then [] else Committed(s, sched[0]) + CommitsOf(Step(s, sched[0]), sched[1..])
  }

  datatype Log = Log(isOpen: bool, records: seq<Record>)
  datatype Atomic = Atomic(info: Log, error: Log)

  function LogAt(a: Atomic, d: Dest): Log { if d == ToInfo then a.info else a.error }

  function AppendTo(g: Log, r: Record): Log {
    if g.isOpen then g.(records := g.records + [r]) else g
  }

  /** One call on the append-only log. */
  function Apply(a: Atomic, m: Commit): Atomic {
    match m.op
    case Stop => Atomic(a.info.(isOpen := false), a.error.(isOpen := false))
    case Write(d, tag, msg) =>
      var r := Record(tag, m.time, msg);
      if d == ToInfo then a.(info := AppendTo(a.info, r)) else a.(error := AppendTo(a.error, r))
  }

  function ApplyAll(a: Atomic, ms: seq<Commit>): Atomic
    decreases |ms|
  {
    if ms == [] then a else ApplyAll(Apply(a, ms[0]), ms[1..])
  }

  // ---- the inductive invariant

  predicate Critical(pc: Pc) {
    pc.Entered? || pc.Reading? || pc.Writing? || pc.Flushing? || pc.StopError? || pc.Leaving?
  }

  /** Mutual exclusion: exactly the owner is inside. */
  predicate MutexOk(s: State) {
    && (s.owner.Some? ==> s.owner.value < |s.threads|)
    && forall i | 0 <= i < |s.threads| :: Critical(s.threads[i].pc) <==> s.owner == Some(i)
  }

  function OwnerPc(s: State): Pc {
    if s.owner.Some? && s.owner.value < |s.threads| then s.threads[s.owner.value].pc else Idle
  }

  /** Only writes get past the is_open test, and the insertion count stays within a line. */
  predicate PcOk(pc: Pc) {
    match pc
    case Reading(op) => op.Write?
    case Writing(op, k, _) => op.Write? && 1 <= k < FRAGMENTS
    case Flushing(op, _) => op.Write?
    case _ => true
  }

  /** The part of an unfinished line that is already in stream d. */
  function Unfinished(pc: Pc, d: Dest, st: Stream): seq<Fragment> {
    match pc
    case Reading(op) => if op.Write? && op.dest == d then [Text("[")] else []
    case Writing(op, k, t) =>
      if op.Write? && op.dest == d && k <= FRAGMENTS then Line(Record(op.tag, t, op.msg))[..k] else []
    case Flushing(op, t) => if op.Write? && op.dest == d then Line(Record(op.tag, t, op.msg)) else []
    case Leaving(op, t) =>
      if op.Write? && op.dest == d && st.isOpen then Line(Record(op.tag, t, op.msg)) else []
    case _ => []
  }

  predicate InLine(pc: Pc, d: Dest) {
    (pc.Reading? || pc.Writing? || pc.Flushing?) && pc.op.Write? && pc.op.dest == d
  }

  predicate ClosedBy(pc: Pc, d: Dest) {
    (pc.StopError? && d == ToInfo) || (pc.Leaving? && pc.op.Stop?)
  }

  /** Stream d against its atomic log, given where the lock owner stands. */
  predicate StreamOk(st: Stream, g: Log, pc: Pc, d: Dest) {
    && st.isOpen == (g.isOpen && !ClosedBy(pc, d))
    && st.frags == Lines(g.records) + Unfinished(pc, d, st)
    && (InLine(pc, d) ==> st.isOpen)
    && (!InLine(pc, d) ==> st.flushed == |st.frags|)
  }

  predicate Related(s: State, a: Atomic) {
    && MutexOk(s)
    && PcOk(OwnerPc(s))
    && StreamOk(s.info, a.info, OwnerPc(s), ToInfo)
    && StreamOk(s.error, a.error, OwnerPc(s), ToError)
  }

  /** After Init, before any thread starts; either file may have failed to open. */
  predicate Initial(s: State) {
    && s.owner == None
    && s.info.frags == [] && s.info.flushed == 0 && s.error.frags == [] && s.error.flushed == 0
    && forall i | 0 <= i < |s.threads| :: s.threads[i].pc == Idle
  }

  function FreshLog(s: State): Atomic {
    Atomic(Log(s.info.isOpen, []), Log(s.error.isOpen, []))
  }

  lemma MutexStep(s: State, i: nat)
    requires MutexOk(s) && i < |s.threads|
    ensures MutexOk(StepThread(s, i))
  {
  }

  /** The owner's step keeps stream d in step with its log. */
  ghost predicate OwnerStepOk(s: State, a: Atomic, i: nat, d: Dest)
    requires i < |s.threads|
  {
    var t := StepThread(s, i);
    var b := ApplyAll(a, Committed(s, Run(i)));
    PcOk(OwnerPc(t)) && StreamOk(At(t, d), LogAt(b, d), OwnerPc(t), d)
  }

  lemma LineGrows(line: seq<Fragment>, k: nat)
    requires |line| == FRAGMENTS && k < FRAGMENTS
    ensures line[..k] + [line[k]] == line[..k + 1]
    ensures k + 1 == FRAGMENTS ==> line[..k + 1] == line
    ensures line[..1] == [line[0]]
  {
  }

  /** One insertion, seen from stream d. */
  lemma InsertionOk(st: Stream, g: Log, op: Op, k: nat, t: int, d: Dest)
    requires PcOk(Writing(op, k, t)) && StreamOk(st, g, Writing(op, k, t), d)
    ensures StreamOk(if op.dest == d then Insert(st, Line(Record(op.tag, t, op.msg))[k]) else st, g,
                     if k + 1 == FRAGMENTS then Flushing(op, t) else Writing(op, k + 1, t), d)
  {
    var line := Line(Record(op.tag, t, op.msg));
    LineGrows(line, k);
    if op.dest == d {
      assert Lines(g.records) + line[..k] + [line[k]] == Lines(g.records) + line[..k + 1];
    }
  }

  lemma FirstInsertionOk(st: Stream, g: Log, op: Op, t: int, d: Dest)
    requires PcOk(Reading(op)) && StreamOk(st, g, Reading(op), d)
    ensures StreamOk(st, g, Writing(op, 1, t), d)
  {
    LineGrows(Line(Record(op.tag, t, op.msg)), 0);
  }

  lemma OwnerInserts(s: State, a: Atomic, i: nat, d: Dest)
    requires Related(s, a) && i < |s.threads| && s.owner == Some(i)
    requires s.threads[i].pc.Writing?
    ensures OwnerStepOk(s, a, i, d)
  {
    var pc, t := s.threads[i].pc, StepThread(s, i);
    InsertionOk(At(s, d), LogAt(a, d), pc.op, pc.k, pc.t, d);
    assert OwnerPc(t) == if pc.k + 1 == FRAGMENTS then Flushing(pc.op, pc.t) else Writing(pc.op, pc.k + 1, pc.t);
    assert At(t, d) ==
           if pc.op.dest == d then Insert(At(s, d), Line(Record(pc.op.tag, pc.t, pc.op.msg))[pc.k]) else At(s, d);
  }

  lemma FlushOk(st: Stream, g: Log, op: Op, t: int, d: Dest)
    requires op.Write? && StreamOk(st, g, Flushing(op, t), d)
    ensures StreamOk(if op.dest == d then st.(flushed := |st.frags|) else st, g, Leaving(op, t), d)
  {
  }

  lemma OwnerFlushes(s: State, a: Atomic, i: nat, d: Dest)
    requires Related(s, a) && i < |s.threads| && s.owner == Some(i)
    requires s.threads[i].pc.Flushing?
    ensures OwnerStepOk(s, a, i, d)
  {
    var pc, t := s.threads[i].pc, StepThread(s, i);
    FlushOk(At(s, d), LogAt(a, d), pc.op, pc.t, d);
    assert OwnerPc(t) == Leaving(pc.op, pc.t);
    assert At(t, d) == if pc.op.dest == d then At(s, d).(flushed := |At(s, d).frags|) else At(s, d);
  }

  lemma OwnerReads(s: State, a: Atomic, i: nat, d: Dest)
    requires Related(s, a) && i < |s.threads| && s.owner == Some(i)
    requires s.threads[i].pc.Reading?
    ensures OwnerStepOk(s, a, i, d)
  {
    FirstInsertionOk(At(s, d), LogAt(a, d), s.threads[i].pc.op, s.clock, d);
  }

  lemma EntranceOk(st: Stream, g: Log, op: Op, d: Dest)
    requires op.Write? && StreamOk(st, g, Entered(op), d)
    ensures op.dest == d && st.isOpen ==> StreamOk(Insert(st, Text("[")), g, Reading(op), d)
    ensures op.dest == d && !st.isOpen ==> StreamOk(st, g, Leaving(op, 0), d)
    ensures op.dest != d ==> StreamOk(st, g, Reading(op), d) && StreamOk(st, g, Leaving(op, 0), d)
  {
  }

  lemma OwnerStarts(s: State, a: Atomic, i: nat, d: Dest)
    requires Related(s, a) && i < |s.threads| && s.owner == Some(i)
    requires s.threads[i].pc.Entered? && s.threads[i].pc.op.Write?
    ensures OwnerStepOk(s, a, i, d)
  {
    EntranceOk(At(s, d), LogAt(a, d), s.threads[i].pc.op, d);
  }

  lemma OwnerCloses(s: State, a: Atomic, i: nat, d: Dest)
    requires Related(s, a) && i < |s.threads| && s.owner == Some(i)
    requires s.threads[i].pc == Entered(Stop) || s.threads[i].pc.StopError?
    ensures OwnerStepOk(s, a, i, d)
  {
    assert Lines(LogAt(a, d).records) + [] == Lines(LogAt(a, d).records);
  }

  lemma WrittenDeparts(st: Stream, g: Log, op: Op, t: int)
    requires op.Write? && StreamOk(st, g, Leaving(op, t), op.dest)
    ensures StreamOk(st, AppendTo(g, Record(op.tag, t, op.msg)), Idle, op.dest)
  {
    var r, h := Record(op.tag, t, op.msg), AppendTo(g, Record(op.tag, t, op.msg));
    var f := Lines(h.records);
    if g.isOpen {
      assert Unfinished(Leaving(op, t), op.dest, st) == Line(r);
      assert f == Lines(g.records) + Line(r) by { LinesAppend(g.records, r); }
    } else {
      assert Unfinished(Leaving(op, t), op.dest, st) == [] && h == g;
      assert f + [] == f;
    }
    assert st.frags == f && f + [] == f;
  }

  lemma OtherDeparts(st: Stream, g: Log, h: Log, op: Op, t: int, d: Dest)
    requires StreamOk(st, g, Leaving(op, t), d) && h == if op.Stop? then g.(isOpen := false) else g
    requires op.Write? ==> op.dest != d
    ensures StreamOk(st, h, Idle, d)
  {
    assert Unfinished(Leaving(op, t), d, st) == [] == Unfinished(Idle, d, st);
  }

  /** Unlocking, seen from stream d: what was written becomes a record of its log. */
  lemma DepartureOk(st: Stream, a: Atomic, m: Commit, d: Dest)
    requires StreamOk(st, LogAt(a, d), Leaving(m.op, m.time), d)
    ensures StreamOk(st, LogAt(Apply(a, m), d), Idle, d)
  {
    var g := LogAt(a, d);
    if m.op.Write? && m.op.dest == d {
      assert LogAt(Apply(a, m), d) == AppendTo(g, Record(m.op.tag, m.time, m.op.msg));
      WrittenDeparts(st, g, m.op, m.time);
    } else {
      OtherDeparts(st, g, LogAt(Apply(a, m), d), m.op, m.time, d);
    }
  }

  lemma OwnerLeaves(s: State, a: Atomic, i: nat, d: Dest)
    requires Related(s, a) && i < |s.threads| && s.owner == Some(i)
    requires s.threads[i].pc.Leaving?
    ensures OwnerStepOk(s, a, i, d)
  {
    var m := Commit(i, s.threads[i].pc.op, s.threads[i].pc.t);
    assert ApplyAll(a, [m]) == Apply(a, m);
    DepartureOk(At(s, d), a, m, d);
  }

  lemma OwnerStep(s: State, a: Atomic, i: nat, d: Dest)
    requires Related(s, a) && i < |s.threads| && s.owner == Some(i)
    ensures OwnerStepOk(s, a, i, d)
  {
    var pc := s.threads[i].pc;
    match pc
    case Writing(_, _, _) => OwnerInserts(s, a, i, d);
    case Flushing(_, _) => OwnerFlushes(s, a, i, d);
    case Reading(_) => OwnerReads(s, a, i, d);
    case Leaving(_, _) => OwnerLeaves(s, a, i, d);
    case Entered(op) =>
      if op.Write? { OwnerStarts(s, a, i, d); } else { OwnerCloses(s, a, i, d); }
    case StopError => OwnerCloses(s, a, i, d);
  }

  /** A thread outside the critical section touches neither stream. */
  lemma OutsiderStep(s: State, a: Atomic, i: nat)
    requires Related(s, a) && i < |s.threads| && s.owner != Some(i)
    ensures StepThread(s, i).info == s.info && StepThread(s, i).error == s.error
    ensures Committed(s, Run(i)) == []
    ensures forall d: Dest, st, g :: StreamOk(st, g, OwnerPc(StepThread(s, i)), d) <==> StreamOk(st, g, OwnerPc(s), d)
    ensures PcOk(OwnerPc(StepThread(s, i)))
  {
    assert !Critical(s.threads[i].pc);
    var p, q := OwnerPc(s), OwnerPc(StepThread(s, i));
    assert p == q || (p == Idle && q.Entered?);
  }

  /** Every step of the fine-grained system is matched by the atomic log: by one whole call when
      a thread unlocks, and by nothing otherwise. */
  lemma StepRefines(s: State, a: Atomic, c: Choice)
    requires Related(s, a)
    ensures Related(Step(s, c), ApplyAll(a, Committed(s, c)))
  {
    if c.Run? && c.thread < |s.threads| {
      var i := c.thread;
      assert MutexOk(Step(s, c)) by { MutexStep(s, i); }
      if s.owner == Some(i) {
        assert OwnerStepOk(s, a, i, ToInfo) by { OwnerStep(s, a, i, ToInfo); }
        assert OwnerStepOk(s, a, i, ToError) by { OwnerStep(s, a, i, ToError); }
      } else {
        OutsiderStep(s, a, i);
        assert ApplyAll(a, []) == a;
      }
    }
  }

  lemma {:induction false} ApplyAllConcat(a: Atomic, p: seq<Commit>, q: seq<Commit>)
    ensures ApplyAll(a, p + q) == ApplyAll(ApplyAll(a, p), q)
    decreases |p|
  {
    if p == [] {
      assert p + q == q;
    } else {
      assert (p + q)[0] == p[0] && (p + q)[1..] == p[1..] + q;
      ApplyAllConcat(Apply(a, p[0]), p[1..], q);
    }
  }

  lemma {:induction false} RunRefines(s: State, a: Atomic, sched: seq<Choice>)
    requires Related(s, a)
    ensures Related(RunAll(s, sched), ApplyAll(a, CommitsOf(s, sched)))
    decreases |sched|
  {
    if sched != [] {
      var c := sched[0];
      StepRefines(s, a, c);
      RunRefines(Step(s, c), ApplyAll(a, Committed(s, c)), sched[1..]);
      ApplyAllConcat(a, Committed(s, c), CommitsOf(Step(s, c), sched[1..]));
    }
  }

  /** Refinement: after every schedule, the two files stand in the simulation relation to the log
      obtained by executing the committed calls atomically, one after another. */
  lemma LoggerRefinesAtomicLog(s: State, sched: seq<Choice>)
    requires Initial(s)
    ensures Related(RunAll(s, sched), ApplyAll(FreshLog(s), CommitsOf(s, sched)))
  {
    RunRefines(s, FreshLog(s), sched);
  }

  /** At every unlocked moment of every interleaving each file is a sequence of whole lines, all of
      them flushed: the lines of the atomic log. */
  lemma WholeLinesWhenUnlocked(s: State, sched: seq<Choice>)
    requires Initial(s) && RunAll(s, sched).owner == None
    ensures var t := RunAll(s, sched);
            var a := ApplyAll(FreshLog(s), CommitsOf(s, sched));
            && t.info.frags == Lines(a.info.records) && t.error.frags == Lines(a.error.records)
            && t.info.flushed == |t.info.frags| && t.error.flushed == |t.error.frags|
  {
    LoggerRefinesAtomicLog(s, sched);
  }

  lemma ClosedStays(s: State, a: Atomic, c: Choice, d: Dest)
    requires Related(s, a) && !At(s, d).isOpen
    ensures At(Step(s, c), d) == At(s, d)
  {
    if c.Run? && c.thread < |s.threads| {
      assert Critical(s.threads[c.thread].pc) ==> OwnerPc(s) == s.threads[c.thread].pc;
    }
  }

  /** No step of any run inserts into, or flushes, a closed stream. */
  lemma NothingWrittenWhenClosed(s: State, sched: seq<Choice>, c: Choice, d: Dest)
    requires Initial(s)
    ensures var t := RunAll(s, sched);
            !At(t, d).isOpen ==> At(Step(t, c), d) == At(t, d)
  {
    LoggerRefinesAtomicLog(s, sched);
    if !At(RunAll(s, sched), d).isOpen {
      ClosedStays(RunAll(s, sched), ApplyAll(FreshLog(s), CommitsOf(s, sched)), c, d);
    }
  }
}
