/** The rounds of the acquire loop, as they occur in the runs of the protocol: whatever the other processes do, what one
    process sees meets the conditions under which the loop is shown to break at most once and to end. */
module AcquireTrace {
  import opened FileSystem
  import opened StoreProtocol
  import opened ProtocolSafety
  import opened ProtocolTiming
  import L = LockAcquire
  import opened Wrappers

  type Round = L.Round

  /** How far a round has got: nothing yet (or only the create), or the time stamp read at that time. */
  datatype Partial = Nothing | Checked(modified: Option<nat>, at: nat)

  /** The finished rounds of one process, and the one it is in. */
  datatype Trace = Trace(rounds: seq<Round>, cur: Partial)

  function Stamp<S>(c: Config<S>, s: State<S>): Option<nat> {
    if LockPath(c.store) in s.fs then Some(s.fs[LockPath(c.store)].mtime) else None
  }

  function Finished(tr: Trace, o: Round): Trace {
    Trace(tr.rounds + [o], Nothing)
  }

  /** What an acquire step of the process adds. */
  function Add<S>(c: Config<S>, s: State<S>, a: AcquireStep, tr: Trace): Trace {
    match a
    case Enter => tr
    case TryCreate =>
      if Stamp(c, s).Some? then tr else Finished(tr, L.Round(L.Created, None, s.clock, false, s.clock))
    case CheckAndBreak(works) =>
      if works && Stamp(c, s).Some? && IsStale(s.clock, Stamp(c, s).value)
      then Finished(tr, L.Round(L.AlreadyExists, Stamp(c, s), s.clock, true, s.clock))
      else tr.(cur := Checked(Stamp(c, s), s.clock))
    case Stat(readable) => tr.(cur := Checked(if readable then Stamp(c, s) else None, s.clock))
    case RemoveStale(works) =>
      if works && Stamp(c, s).Some? && tr.cur.Checked?
      then Finished(tr, L.Round(L.AlreadyExists, tr.cur.modified, tr.cur.at, true, s.clock))
      else tr
    case CheckDeadline =>
      if tr.cur.Checked?
      then Finished(tr, L.Round(L.AlreadyExists, tr.cur.modified, tr.cur.at, false, s.clock))
      else tr
  }

  /** What any step adds: an error in the create ends the loop too. */
  function Next<S>(c: Config<S>, s: State<S>, step: Step, p: nat, tr: Trace): Trace {
    if step.Acquire? && step.p == p then Add(c, s, step.a, tr)
    else if step.Fault? && step.p == p && step.f.Fail? && p in s.procs && s.procs[p].pc == Waiting then
      Finished(tr, L.Round(L.OtherError, None, s.clock, false, s.clock))
    else tr
  }

  /** What process `p` sees in a run. */
  ghost function View<S>(c: Config<S>, s: State<S>, steps: seq<Step>, p: nat): Trace
    decreases |steps|
  {
    if steps == [] then Trace([], Nothing)
    else
      var front := steps[..|steps| - 1];
      var mid := Exec(c, s, front);
      if mid.None? then Trace([], Nothing)
      else Next(c, mid.value, steps[|steps| - 1], p, View(c, s, front, p))
  }

  // ---------- the invariant ----------

  predicate Acquiring<S>(pc: Pc<S>) {
    pc.Waiting? || pc.Exists? || pc.SawStale? || pc.NotBroken?
  }

  /** The answer of a finished loop, or Pending. */
  function AnswerOf(start: nat, rounds: seq<Round>): L.Answer {
    if rounds == [] then L.Pending
    else
      var o := rounds[|rounds| - 1];
      match o.create
      case Created => L.Acquired
      case OtherError => L.Failed
      case AlreadyExists => if L.Breaks(o) || L.Waits(start, o) then L.Pending else L.GaveUp
  }

  /** When the next check may come at the earliest. */
  function Due(start: nat, rounds: seq<Round>): nat {
    if rounds == [] then start
    else
      var o := rounds[|rounds| - 1];
      if L.Breaks(o) then o.checkedAt else o.deadlineAt + POLL_INTERVAL
  }

  /** The rounds so far are on the clock. */
  predicate History(start: nat, rounds: seq<Round>, clock: nat) {
    && L.Clocked(start, rounds) && L.FreshAfterBreak(rounds)
    && L.Runs(start, rounds, AnswerOf(start, rounds), |rounds|)
    && forall i :: 0 <= i < |rounds| ==> rounds[i].deadlineAt <= clock
  }

  /** A lock file with this time stamp is newer than every break so far. */
  predicate Newer(rounds: seq<Round>, mtime: nat) {
    forall i :: 0 <= i < |rounds| && L.Breaks(rounds[i]) ==> mtime >= rounds[i].checkedAt
  }

  predicate NewerIfAny(rounds: seq<Round>, mtime: Option<nat>) {
    mtime.Some? ==> Newer(rounds, mtime.value)
  }

  predicate CheckOk(start: nat, tr: Trace, clock: nat) {
    tr.cur.Checked? && Due(start, tr.rounds) <= tr.cur.at <= clock && NewerIfAny(tr.rounds, tr.cur.modified)
  }

  /** How a process ends that leaves the loop with this answer: at the deadline exactly if it gave up, with an I/O error
      if the create failed, and with any other outcome only after it had the lock. */
  predicate Explains(answer: L.Answer, r: Outcome) {
    || answer == (if r == TimedOut then L.GaveUp else L.Acquired)
    || (r == IoError && answer == L.Failed)
  }

  predicate StageOk<S>(proc: Proc<S>, tr: Trace, clock: nat) {
    match proc.pc
    case Start => tr == Trace([], Nothing) && proc.breaks == 0
    case Waiting => Due(proc.start, tr.rounds) <= if proc.wake > clock then proc.wake else clock
    case Exists => Due(proc.start, tr.rounds) <= clock
    case SawStale =>
      && CheckOk(proc.start, tr, clock)
      && tr.cur.modified.Some? && IsStale(tr.cur.at, tr.cur.modified.value)
    case NotBroken => CheckOk(proc.start, tr, clock)
    case Releasing(r) => r != TimedOut
    case Done(r) => Explains(AnswerOf(proc.start, tr.rounds), r)
    case _ => true
  }

  ghost predicate TraceOk<S>(c: Config<S>, s: State<S>, p: nat, tr: Trace)
    requires p in s.procs
  {
    var proc := s.procs[p];
    && History(proc.start, tr.rounds, s.clock)
    && L.BreakCount(tr.rounds) == proc.breaks
    && StageOk(proc, tr, s.clock)
    && (Acquiring(proc.pc) ==> AnswerOf(proc.start, tr.rounds) == L.Pending && NewerIfAny(tr.rounds, Stamp(c, s)))
    && (Holds(proc.pc) ==> AnswerOf(proc.start, tr.rounds) == L.Acquired)
  }

  // ---------- rounds ----------

  /** A round may be added when it is due and sees no lock file older than a break. */
  lemma {:induction false} AddRound(start: nat, rounds: seq<Round>, o: Round, clock: nat)
    requires History(start, rounds, clock) && AnswerOf(start, rounds) == L.Pending
    requires Due(start, rounds) <= o.checkedAt <= o.deadlineAt <= clock
    requires NewerIfAny(rounds, o.modified)
    requires start <= Due(start, rounds)
    ensures History(start, rounds + [o], clock)
    ensures L.BreakCount(rounds + [o]) == L.BreakCount(rounds) + if L.Breaks(o) then 1 else 0
  {
    hide L.Breaks, L.Waits, L.BreakCount;
    var r := rounds + [o];
    assert r[..|rounds|] == rounds;
    AddCounts(rounds, o);
    assert L.Clocked(start, r) by {
      forall i | 0 <= i < |r| - 1
        ensures r[i + 1].checkedAt >= if L.Breaks(r[i]) then r[i].checkedAt else r[i].deadlineAt + POLL_INTERVAL
      {
        if i + 1 < |rounds| {
          assert rounds[i + 1] == r[i + 1];
        }
      }
    }
    assert L.FreshAfterBreak(r);
    AddRuns(start, rounds, o);
  }

  lemma {:induction false} AddCounts(rounds: seq<Round>, o: Round)
    ensures L.BreakCount(rounds + [o]) == L.BreakCount(rounds) + if L.Breaks(o) then 1 else 0
  {
    hide L.Breaks;
    assert (rounds + [o])[..|rounds|] == rounds;
  }

  lemma {:induction false} AddRuns(start: nat, rounds: seq<Round>, o: Round)
    requires L.Runs(start, rounds, L.Pending, |rounds|)
    ensures L.Runs(start, rounds + [o], AnswerOf(start, rounds + [o]), |rounds| + 1)
  {
    var r := rounds + [o];
    hide L.Breaks;
    assert forall i :: 0 <= i < |rounds| ==> r[i] == rounds[i];
  }

  lemma {:induction false} DueIsLater(start: nat, rounds: seq<Round>, clock: nat)
    requires History(start, rounds, clock)
    ensures start <= Due(start, rounds)
  {
    hide L.Breaks, L.Runs;
  }

  /** After a break only newer lock files are seen. */
  lemma {:induction false} NewerAfter(rounds: seq<Round>, o: Round, m: Option<nat>)
    requires NewerIfAny(rounds, m)
    requires m.Some? && L.Breaks(o) ==> m.value >= o.checkedAt
    ensures NewerIfAny(rounds + [o], m)
  {
    hide L.Breaks;
  }

  // ---------- steps ----------

  /** Steps of others only bring the clock and newer lock files. */
  lemma {:induction false} OthersKeepTrace<S>(c: Config<S>, s: State<S>, t: State<S>, p: nat, tr: Trace)
    requires p in s.procs && p in t.procs && TraceOk(c, s, p, tr)
    requires t.procs[p] == s.procs[p] && s.clock <= t.clock && LockKeptOrNew(c, s, t)
    ensures TraceOk(c, t, p, tr)
  {
    hide L.Breaks, L.Clocked, L.FreshAfterBreak, L.Runs, L.BreakCount, LockPath, AnswerOf, Due, IsStale;
    CheckedBefore(tr.rounds, s.procs[p].start, s.clock);
  }

  lemma {:induction false} CheckedBefore(rounds: seq<Round>, start: nat, clock: nat)
    requires History(start, rounds, clock)
    ensures forall i :: 0 <= i < |rounds| ==> rounds[i].checkedAt <= clock
  {
    hide L.Breaks, L.Runs, L.FreshAfterBreak;
  }

  lemma {:induction false} EnterKeepsTrace<S>(c: Config<S>, s: State<S>, p: nat, tr: Trace, t: State<S>)
    requires p in s.procs && TraceOk(c, s, p, tr) && DoAcquire(c, s, p, Enter) == Some(t)
    ensures TraceOk(c, t, p, tr)
  {
    hide LockPath;
  }

  lemma {:induction false} TryKeepsTrace<S>(c: Config<S>, s: State<S>, p: nat, tr: Trace, t: State<S>)
    requires p in s.procs && TraceOk(c, s, p, tr) && DoAcquire(c, s, p, TryCreate) == Some(t)
    ensures TraceOk(c, t, p, Add(c, s, TryCreate, tr))
  {
    hide LockPath, PidLine, L.Clocked, L.FreshAfterBreak, L.Runs, L.BreakCount, IsStale;
    if LockPath(c.store) !in s.fs {
      DueIsLater(s.procs[p].start, tr.rounds, s.clock);
      AddRound(s.procs[p].start, tr.rounds, L.Round(L.Created, None, s.clock, false, s.clock), s.clock);
    }
  }

  lemma {:induction false} CheckKeepsTrace<S>(c: Config<S>, s: State<S>, p: nat, a: AcquireStep, tr: Trace, t: State<S>)
    requires p in s.procs && TraceOk(c, s, p, tr) && DoAcquire(c, s, p, a) == Some(t) && (a.CheckAndBreak? || a.Stat?)
    ensures TraceOk(c, t, p, Add(c, s, a, tr))
  {
    hide LockPath, L.Clocked, L.FreshAfterBreak, L.Runs, L.BreakCount;
    if t.fs != s.fs {
      var o := L.Round(L.AlreadyExists, Stamp(c, s), s.clock, true, s.clock);
      DueIsLater(s.procs[p].start, tr.rounds, s.clock);
      AddRound(s.procs[p].start, tr.rounds, o, s.clock);
      assert L.Breaks(o);
    }
  }

  lemma {:induction false} RemoveKeepsTrace<S>(c: Config<S>, s: State<S>, p: nat, works: bool, tr: Trace, t: State<S>)
    requires p in s.procs && TraceOk(c, s, p, tr) && DoAcquire(c, s, p, RemoveStale(works)) == Some(t)
    ensures TraceOk(c, t, p, Add(c, s, RemoveStale(works), tr))
  {
    hide LockPath, L.Clocked, L.FreshAfterBreak, L.Runs, L.BreakCount;
    if works && Stamp(c, s).Some? {
      var o := L.Round(L.AlreadyExists, tr.cur.modified, tr.cur.at, true, s.clock);
      DueIsLater(s.procs[p].start, tr.rounds, s.clock);
      AddRound(s.procs[p].start, tr.rounds, o, s.clock);
      assert L.Breaks(o);
    }
  }

  lemma {:induction false} DeadlineKeepsTrace<S>(c: Config<S>, s: State<S>, p: nat, tr: Trace, t: State<S>)
    requires p in s.procs && TraceOk(c, s, p, tr) && DoAcquire(c, s, p, CheckDeadline) == Some(t)
    ensures TraceOk(c, t, p, Add(c, s, CheckDeadline, tr))
  {
    hide LockPath, L.Clocked, L.FreshAfterBreak, L.Runs, L.BreakCount, IsStale;
    var o := L.Round(L.AlreadyExists, tr.cur.modified, tr.cur.at, false, s.clock);
    DueIsLater(s.procs[p].start, tr.rounds, s.clock);
    AddRound(s.procs[p].start, tr.rounds, o, s.clock);
    assert !L.Breaks(o);
    NewerAfter(tr.rounds, o, Stamp(c, s));
  }

  lemma {:induction false} AcquireKeepsTrace<S>(c: Config<S>, s: State<S>, p: nat, a: AcquireStep, tr: Trace,
                                                t: State<S>)
    requires p in s.procs && TraceOk(c, s, p, tr) && DoAcquire(c, s, p, a) == Some(t)
    ensures p in t.procs && TraceOk(c, t, p, Add(c, s, a, tr))
  {
    LockAfterAcquire(c, s, p, a, t);
    hide DoAcquire, TraceOk;
    match a
    case Enter => EnterKeepsTrace(c, s, p, tr, t);
    case TryCreate => TryKeepsTrace(c, s, p, tr, t);
    case CheckAndBreak(_) => CheckKeepsTrace(c, s, p, a, tr, t);
    case Stat(_) => CheckKeepsTrace(c, s, p, a, tr, t);
    case RemoveStale(works) => RemoveKeepsTrace(c, s, p, works, tr, t);
    case CheckDeadline => DeadlineKeepsTrace(c, s, p, tr, t);
  }

  lemma {:induction false} WorkKeepsTrace<S>(c: Config<S>, s: State<S>, p: nat, h: HolderStep, tr: Trace, t: State<S>)
    requires p in s.procs && p in c.mutations && TraceOk(c, s, p, tr) && DoWork(c, s, p, h) == Some(t)
    ensures p in t.procs && TraceOk(c, t, p, tr)
  {
    hide LockPath, TempPath, Current, L.Clocked, L.FreshAfterBreak, L.Runs, L.BreakCount, IsStale, AnswerOf, Due, Newer;
  }

  lemma {:induction false} FaultKeepsTrace<S>(c: Config<S>, s: State<S>, p: nat, f: FaultStep, tr: Trace, t: State<S>)
    requires p in s.procs && TraceOk(c, s, p, tr) && DoFault(c, s, p, f) == Some(t)
    ensures p in t.procs && TraceOk(c, t, p, Next(c, s, Fault(p, f), p, tr))
  {
    hide LockPath, TempPath, L.Clocked, L.FreshAfterBreak, L.Runs, L.BreakCount, IsStale;
    if f.Fail? && s.procs[p].pc == Waiting {
      DueIsLater(s.procs[p].start, tr.rounds, s.clock);
      AddRound(s.procs[p].start, tr.rounds, L.Round(L.OtherError, None, s.clock, false, s.clock), s.clock);
    }
  }

  lemma {:induction false} PowerLossKeepsTrace<S>(c: Config<S>, s: State<S>, fs: Fs, p: nat, tr: Trace, t: State<S>)
    requires p in s.procs && TraceOk(c, s, p, tr) && Do(c, s, PowerLoss(fs)) == Some(t)
    ensures p in t.procs && TraceOk(c, t, p, tr)
  {
    hide LockPath, L.Clocked, L.FreshAfterBreak, L.Runs, L.BreakCount, IsStale, AnswerOf, Due, Newer, Survives;
  }

  lemma {:induction false} StepKeepsTrace<S>(c: Config<S>, s: State<S>, step: Step, p: nat, tr: Trace, t: State<S>)
    requires p in s.procs && TraceOk(c, s, p, tr) && Do(c, s, step) == Some(t)
    ensures p in t.procs && TraceOk(c, t, p, Next(c, s, step, p, tr))
  {
    hide TraceOk, DoAcquire, DoWork, DoFault;
    match step
    case Tick(_) => OthersKeepTrace(c, s, t, p, tr);
    case PowerLoss(fs) => PowerLossKeepsTrace(c, s, fs, p, tr, t);
    case Acquire(q, a) =>
      LockAfterAcquire(c, s, q, a, t);
      if q == p {
        AcquireKeepsTrace(c, s, p, a, tr, t);
      } else {
        OthersKeepTrace(c, s, t, p, tr);
      }
    case Work(q, h) =>
      LockAfterWork(c, s, q, h, t);
      if q == p {
        WorkKeepsTrace(c, s, p, h, tr, t);
      } else {
        OthersKeepTrace(c, s, t, p, tr);
      }
    case Fault(q, f) =>
      LockAfterFault(c, s, q, f, t);
      if q == p {
        FaultKeepsTrace(c, s, p, f, tr, t);
      } else {
        OthersKeepTrace(c, s, t, p, tr);
      }
  }

  lemma {:induction false} RunKeepsTrace<S>(c: Config<S>, s: State<S>, steps: seq<Step>, p: nat)
    requires Init(c, s) && Exec(c, s, steps).Some? && p in s.procs
    ensures p in Exec(c, s, steps).value.procs && TraceOk(c, Exec(c, s, steps).value, p, View(c, s, steps, p))
    decreases |steps|
  {
    hide Do, Next;
    if steps != [] {
      var front := steps[..|steps| - 1];
      RunKeepsTrace(c, s, front, p);
      hide TraceOk;
      StepKeepsTrace(c, Exec(c, s, front).value, steps[|steps| - 1], p, View(c, s, front, p), Exec(c, s, steps).value);
    }
  }

  // ---------- prompt runs ----------

  /** All checks so far came within the timeout and its margin. */
  ghost predicate PromptSoFar<S>(s: State<S>, p: nat, tr: Trace)
    requires p in s.procs
  {
    var start := s.procs[p].start;
    && L.InTime(start, tr.rounds)
    && (tr.cur.Checked? && (s.procs[p].pc.SawStale? || s.procs[p].pc.NotBroken?) ==>
          tr.cur.at < start + ACQUIRE_TIMEOUT + MARGIN)
  }

  lemma {:induction false} AcquireStaysPrompt<S>(c: Config<S>, s: State<S>, p: nat, a: AcquireStep, tr: Trace,
                                                 t: State<S>)
    requires p in s.procs && TraceOk(c, s, p, tr) && PromptSoFar(s, p, tr)
    requires DoAcquire(c, s, p, a) == Some(t) && IsPrompt(s, Acquire(p, a))
    ensures p in t.procs && PromptSoFar(t, p, Add(c, s, a, tr))
  {
    hide LockPath, PidLine, IsStale, History, L.BreakCount, NewerIfAny, AnswerOf, Due;
  }

  lemma {:induction false} OtherStepSamePc<S>(c: Config<S>, s: State<S>, step: Step, p: nat, tr: Trace, t: State<S>)
    requires p in s.procs && Do(c, s, step) == Some(t) && !(step.Acquire? && step.p == p)
    ensures p in t.procs && t.procs[p].start == s.procs[p].start
    ensures t.procs[p].pc.SawStale? || t.procs[p].pc.NotBroken? ==> t.procs[p].pc == s.procs[p].pc
    ensures Next(c, s, step, p, tr) == tr ||
            exists o: Round :: o.create != L.AlreadyExists && Next(c, s, step, p, tr) == Finished(tr, o)
  {
    match step
    case Tick(_) =>
    case PowerLoss(_) =>
    case Acquire(q, a) =>
      LockAfterAcquire(c, s, q, a, t);
      hide DoAcquire;
    case Work(q, h) =>
      LockAfterWork(c, s, q, h, t);
      WorkSkipsChecks(c, s, q, h, t);
      hide DoWork;
    case Fault(q, f) =>
      LockAfterFault(c, s, q, f, t);
      FaultSkipsChecks(c, s, q, f, t);
      hide DoFault;
  }

  lemma {:induction false} WorkSkipsChecks<S>(c: Config<S>, s: State<S>, p: nat, h: HolderStep, t: State<S>)
    requires p in s.procs && p in c.mutations && DoWork(c, s, p, h) == Some(t)
    ensures p in t.procs && t.procs[p].start == s.procs[p].start
    ensures !t.procs[p].pc.SawStale? && !t.procs[p].pc.NotBroken?
  {
    hide LockPath, TempPath, Current;
  }

  lemma {:induction false} FaultSkipsChecks<S>(c: Config<S>, s: State<S>, p: nat, f: FaultStep, t: State<S>)
    requires p in s.procs && DoFault(c, s, p, f) == Some(t)
    ensures p in t.procs && t.procs[p].start == s.procs[p].start
    ensures !t.procs[p].pc.SawStale? && !t.procs[p].pc.NotBroken?
  {
    hide LockPath, TempPath;
  }

  lemma {:induction false} RunStaysPrompt<S>(c: Config<S>, s: State<S>, steps: seq<Step>, p: nat)
    requires PromptRun(c, s, steps) && p in s.procs
    ensures Init(c, s) && p in Exec(c, s, steps).value.procs
    ensures PromptSoFar(Exec(c, s, steps).value, p, View(c, s, steps, p))
    decreases |steps|
  {
    if steps != [] {
      hide Do, Next, Init;
      var front := steps[..|steps| - 1];
      RunStaysPrompt(c, s, front, p);
      RunKeepsTrace(c, s, front, p);
      StepStaysPrompt(c, Exec(c, s, front).value, steps[|steps| - 1], p, View(c, s, front, p), Exec(c, s, steps).value);
    }
  }

  lemma {:induction false} StepStaysPrompt<S>(c: Config<S>, s: State<S>, step: Step, p: nat, tr: Trace, t: State<S>)
    requires p in s.procs && TraceOk(c, s, p, tr) && PromptSoFar(s, p, tr)
    requires Do(c, s, step) == Some(t) && IsPrompt(s, step)
    ensures p in t.procs && PromptSoFar(t, p, Next(c, s, step, p, tr))
  {
    hide TraceOk, DoAcquire, DoWork, DoFault;
    if step.Acquire? && step.p == p {
      AcquireStaysPrompt(c, s, p, step.a, tr, t);
    } else {
      OtherStepSamePc(c, s, step, p, tr, t);
      hide Do, Next;
    }
  }

  // ---------- main result ----------

  /** In every run with prompt checks, whatever the other processes do, the rounds of each process meet the conditions
      of the loop's theorem: so it breaks at most one lock and is in the loop for at most 1002 rounds, and it leaves it
      exactly with the lock, at the deadline, or on an I/O error. */
  lemma {:induction false} EveryAcquireEnds<S>(c: Config<S>, s: State<S>, steps: seq<Step>, p: nat)
    requires PromptRun(c, s, steps) && p in s.procs
    ensures p in Exec(c, s, steps).value.procs
    ensures var proc := Exec(c, s, steps).value.procs[p];
            var rounds := View(c, s, steps, p).rounds;
            var answer := AnswerOf(proc.start, rounds);
            && L.Clocked(proc.start, rounds) && L.FreshAfterBreak(rounds) && L.InTime(proc.start, rounds)
            && L.Runs(proc.start, rounds, answer, |rounds|)
            && proc.breaks == L.BreakCount(rounds) <= 1
            && |rounds| <= 1002
            && (Acquiring(proc.pc) ==> answer == L.Pending)
            && (Holds(proc.pc) ==> answer == L.Acquired)
            && (proc.pc.Done? ==> Explains(answer, proc.pc.r))
  {
    RunStaysPrompt(c, s, steps, p);
    RunKeepsTrace(c, s, steps, p);
    var proc := Exec(c, s, steps).value.procs[p];
    var rounds := View(c, s, steps, p).rounds;
    hide Exec, View, PromptRun, L.Clocked, L.FreshAfterBreak, L.InTime, L.Runs, L.BreakCount, AnswerOf;
    L.AcquireInTime(proc.start, rounds, AnswerOf(proc.start, rounds), |rounds|);
    assert rounds[..|rounds|] == rounds;
  }
}
