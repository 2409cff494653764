/** Waiting and breaking: why one acquire breaks at most one lock, and how a break gets to be ungentle. */
module ProtocolTiming {
  import opened FileSystem
  import opened StoreProtocol
  import opened ProtocolSafety
  import opened Wrappers

  /** What a waiter's checks may take beyond the timeout. */
  const MARGIN := STALE_AFTER - ACQUIRE_TIMEOUT

  /** Every staleness check happens within the timeout plus the margin of the start of its acquire. */
  ghost predicate IsPrompt<S>(s: State<S>, step: Step) {
    (step.Acquire? && (step.a.CheckAndBreak? || step.a.Stat?) && step.p in s.procs) ==>
      s.clock < s.procs[step.p].start + ACQUIRE_TIMEOUT + MARGIN
  }

  ghost predicate PromptRun<S>(c: Config<S>, s: State<S>, steps: seq<Step>)
    decreases |steps|
  {
    && Exec(c, s, steps).Some?
    && if steps == [] then Init(c, s)
       else
         var front := steps[..|steps| - 1];
         && PromptRun(c, s, front)
         && IsPrompt(Exec(c, s, front).value, steps[|steps| - 1])
  }

  predicate IsWaiting<S>(pc: Pc<S>) {
    pc.Waiting? || pc.Exists? || pc.NotBroken?
  }

  /** A waiter that has broken a lock sees only younger lock files from then on. */
  ghost predicate WaitOk<S>(c: Config<S>, s: State<S>, p: nat)
    requires p in s.procs
  {
    var (proc, lock) := (s.procs[p], LockPath(c.store));
    && proc.breaks <= 1
    && (proc.pc.Start? ==> proc.breaks == 0)
    && (IsWaiting(proc.pc) ==> proc.start <= s.clock)
    && (IsWaiting(proc.pc) && proc.breaks == 1 && lock in s.fs ==> s.fs[lock].mtime >= proc.start)
    && (proc.pc.SawStale? ==> proc.breaks == 0 && proc.start <= s.clock)
  }

  /** The lock file is as before, or gone, or new. */
  ghost predicate LockKeptOrNew<S>(c: Config<S>, s: State<S>, t: State<S>) {
    var lock := LockPath(c.store);
    lock in t.fs ==> (lock in s.fs && t.fs[lock] == s.fs[lock]) || t.fs[lock].mtime == s.clock
  }

  ghost predicate OnlyProcChanged<S>(s: State<S>, t: State<S>, p: nat) {
    && t.clock == s.clock && t.procs.Keys == s.procs.Keys
    && forall q :: q in s.procs && q != p ==> t.procs[q] == s.procs[q]
  }

  lemma {:induction false} LockAfterAcquire<S>(c: Config<S>, s: State<S>, p: nat, a: AcquireStep, t: State<S>)
    requires p in s.procs && DoAcquire(c, s, p, a) == Some(t)
    ensures LockKeptOrNew(c, s, t) && OnlyProcChanged(s, t, p)
  {
    hide LockPath, PidLine, IsStale;
  }

  lemma {:induction false} LockAfterWork<S>(c: Config<S>, s: State<S>, p: nat, h: HolderStep, t: State<S>)
    requires p in s.procs && p in c.mutations && DoWork(c, s, p, h) == Some(t)
    ensures LockKeptOrNew(c, s, t) && OnlyProcChanged(s, t, p)
  {
    PathsDiffer(c.store, p, p);
    hide LockPath, TempPath, PidLine, Current;
  }

  lemma {:induction false} LockAfterFault<S>(c: Config<S>, s: State<S>, p: nat, f: FaultStep, t: State<S>)
    requires p in s.procs && DoFault(c, s, p, f) == Some(t)
    ensures LockKeptOrNew(c, s, t) && OnlyProcChanged(s, t, p)
  {
    PathsDiffer(c.store, p, p);
    hide LockPath, TempPath, PidLine, Current;
  }

  lemma {:induction false} OwnStepWaitOk<S>(c: Config<S>, s: State<S>, p: nat, step: Step, t: State<S>)
    requires p in s.procs && WaitOk(c, s, p)
    requires step.Acquire? && step.p == p
    requires DoAcquire(c, s, p, step.a) == Some(t) && IsPrompt(s, step)
    ensures WaitOk(c, t, p)
  {
    hide PidLine;
  }

  lemma {:induction false} StepWaitOk<S>(c: Config<S>, s: State<S>, step: Step, t: State<S>, q: nat)
    requires Do(c, s, step) == Some(t) && IsPrompt(s, step)
    requires q in s.procs && WaitOk(c, s, q)
    ensures q in t.procs && WaitOk(c, t, q)
  {
    match step
    case PowerLoss(_) => assert !IsWaiting(t.procs[q].pc);
    case Tick(_) =>
    case Acquire(p, a) =>
      LockAfterAcquire(c, s, p, a, t);
      if p == q {
        OwnStepWaitOk(c, s, q, step, t);
      } else {
        hide DoAcquire;
      }
    case Work(p, h) =>
      LockAfterWork(c, s, p, h, t);
      OtherOwnStep(c, s, step, t);
      hide DoWork;
    case Fault(p, f) =>
      LockAfterFault(c, s, p, f, t);
      OtherOwnStep(c, s, step, t);
      hide DoFault;
  }

  /** Work and fault steps leave nobody waiting, and break nothing. */
  lemma {:induction false} OtherOwnStep<S>(c: Config<S>, s: State<S>, step: Step, t: State<S>)
    requires (step.Work? || step.Fault?) && Do(c, s, step) == Some(t)
    ensures step.p in s.procs && step.p in t.procs
    ensures t.procs[step.p].breaks == s.procs[step.p].breaks
    ensures !IsWaiting(t.procs[step.p].pc) && !t.procs[step.p].pc.Start? && !t.procs[step.p].pc.SawStale?
  {
    hide LockPath, TempPath, PidLine, Current;
  }

  lemma {:induction false} RunWaitOk<S>(c: Config<S>, s: State<S>, steps: seq<Step>, p: nat)
    requires PromptRun(c, s, steps) && p in s.procs
    ensures p in Exec(c, s, steps).value.procs && WaitOk(c, Exec(c, s, steps).value, p)
    decreases |steps|
  {
    if steps != [] {
      var front := steps[..|steps| - 1];
      RunWaitOk(c, s, front, p);
      StepWaitOk(c, Exec(c, s, front).value, steps[|steps| - 1], Exec(c, s, steps).value, p);
    }
  }

  /** In every run with prompt checks, one acquire removes at most one lock file, whether its break is one step or
      two. */
  lemma {:induction false} AtMostOneBreak<S>(c: Config<S>, s: State<S>, steps: seq<Step>, p: nat)
    requires PromptRun(c, s, steps) && p in s.procs
    ensures p in Exec(c, s, steps).value.procs && Exec(c, s, steps).value.procs[p].breaks <= 1
  {
    RunWaitOk(c, s, steps, p);
  }

  /** A prompt check never finds a lock file stale that was created after the waiter began: neither the first of the two
      calls nor the one-step break. */
  lemma {:induction false} NeverBreaksYounger<S>(c: Config<S>, s: State<S>, p: nat, a: AcquireStep, t: State<S>)
    requires a.CheckAndBreak? || a.Stat?
    requires p in s.procs && DoAcquire(c, s, p, a) == Some(t) && IsPrompt(s, Acquire(p, a))
    requires t.fs != s.fs || t.procs[p].pc == SawStale
    ensures LockPath(c.store) in s.fs && s.fs[LockPath(c.store)].mtime < s.procs[p].start
  {
    hide LockPath;
  }

  // ---------- how a break gets to be ungentle ----------

  /** No break is split into its two system calls. */
  predicate Unsplit(step: Step) {
    step.Acquire? ==> !step.a.Stat? && !step.a.RemoveStale?
  }

  ghost predicate TimelyRun<S>(c: Config<S>, s: State<S>, steps: seq<Step>)
    decreases |steps|
  {
    && Exec(c, s, steps).Some? && Timely(Exec(c, s, steps).value)
    && if steps == [] then Init(c, s) else TimelyRun(c, s, steps[..|steps| - 1])
  }

  lemma {:induction false} Extend<S>(c: Config<S>, s: State<S>, steps: seq<Step>, step: Step, mid: State<S>,
                                     t: State<S>)
    requires Exec(c, s, steps) == Some(mid) && Do(c, mid, step) == Some(t)
    ensures Exec(c, s, steps + [step]) == Some(t)
    ensures TimelyRun(c, s, steps) && Timely(t) ==> TimelyRun(c, s, steps + [step])
  {
    hide Do;
    assert (steps + [step])[..|steps|] == steps;
  }

  const STORE := Path("config", "store")

  /** Two processes that change nothing, on a store with one possible value. */
  function Two(): Config<()> {
    Config(STORE, (_: ()) => "", (_: string) => Some(()), (),
           map[1 := (v: ()) => Some(v), 2 := (v: ()) => Some(v)], true)
  }

  /** The two processes with this lock file and clock. */
  function Sys(lock: Option<File>, clock: nat, one: Proc<()>, two: Proc<()>, acquired: seq<nat>): State<()> {
    State(if lock.Some? then map[LockPath(STORE) := lock.value] else map[],
          clock, map[1 := one, 2 := two], acquired, [])
  }

  /** A process that has not slept. */
  function At(pc: Pc<()>, start: nat, since: nat, breaks: nat): Proc<()> {
    Proc(pc, start, since, breaks, start)
  }

  /** A process after its step. */
  function Now(was: Proc<()>, a: AcquireStep, pc: Pc<()>, clock: nat): Proc<()> {
    Proc(pc, if a.Enter? then clock else was.start, if pc == Locked then clock else was.since,
         if a.RemoveStale? || a.CheckAndBreak? then was.breaks + 1 else was.breaks,
         if a.Enter? then clock else was.wake)
  }

  /** The outcomes of the steps used below: the lock file and program counter they lead to. */
  predicate Leads(lock: Option<File>, clock: nat, was: Pc<()>, p: nat, a: AcquireStep, lock': Option<File>,
                  pc: Pc<()>) {
    || (a.Enter? && was == Start && pc == Waiting && lock' == lock)
    || (a.TryCreate? && was == Waiting && lock.Some? && pc == Exists && lock' == lock)
    || (a.TryCreate? && was == Waiting && lock.None? && pc == Locked && lock' == Some(File(PidLine(p), false, clock)))
    || (a == Stat(true) && was == Exists && lock.Some? && IsStale(clock, lock.value.mtime) && pc == SawStale
        && lock' == lock)
    || (a == RemoveStale(true) && was == SawStale && lock.Some? && pc == Waiting && lock'.None?)
    || (a == CheckAndBreak(true) && was == Exists && lock.Some? && IsStale(clock, lock.value.mtime) && pc == Waiting
        && lock'.None?)
  }

  function AcquiredAfter(acquired: seq<nat>, p: nat, pc: Pc<()>): seq<nat> {
    if pc == Locked then acquired + [p] else acquired
  }

  lemma {:induction false} ProcsOfOne(lock: Option<File>, clock: nat, one: Proc<()>, two: Proc<()>, acquired: seq<nat>,
                                      a: AcquireStep, lock': Option<File>, pc: Pc<()>)
    requires Leads(lock, clock, one.pc, 1, a, lock', pc) && one.wake <= clock
    ensures var r := DoAcquire(Two(), Sys(lock, clock, one, two, acquired), 1, a);
            r.Some? && r.value.procs == map[1 := Now(one, a, pc, clock), 2 := two]
  {
    hide LockPath, PidLine, IsStale;
    assert LockPath(Two().store) in Sys(lock, clock, one, two, acquired).fs <==> lock.Some?;
  }

  lemma {:induction false} FilesOfOne(lock: Option<File>, clock: nat, one: Proc<()>, two: Proc<()>, acquired: seq<nat>,
                                      a: AcquireStep, lock': Option<File>, pc: Pc<()>)
    requires Leads(lock, clock, one.pc, 1, a, lock', pc) && one.wake <= clock
    ensures var r := DoAcquire(Two(), Sys(lock, clock, one, two, acquired), 1, a);
            && r.Some? && r.value.fs == Sys(lock', clock, one, two, acquired).fs && r.value.clock == clock
            && r.value.acquired == AcquiredAfter(acquired, 1, pc) && r.value.log == []
  {
    hide LockPath, PidLine, IsStale;
    assert LockPath(Two().store) in Sys(lock, clock, one, two, acquired).fs <==> lock.Some?;
  }

  lemma {:induction false} StepOfOne(lock: Option<File>, clock: nat, one: Proc<()>, two: Proc<()>, acquired: seq<nat>,
                                     a: AcquireStep, lock': Option<File>, pc: Pc<()>)
    requires Leads(lock, clock, one.pc, 1, a, lock', pc) && one.wake <= clock
    ensures Do(Two(), Sys(lock, clock, one, two, acquired), Acquire(1, a))
         == Some(Sys(lock', clock, Now(one, a, pc, clock), two, AcquiredAfter(acquired, 1, pc)))
  {
    hide DoAcquire, LockPath, PidLine, IsStale, Leads, Now, AcquiredAfter;
    ProcsOfOne(lock, clock, one, two, acquired, a, lock', pc);
    FilesOfOne(lock, clock, one, two, acquired, a, lock', pc);
  }

  lemma {:induction false} ProcsOfTwo(lock: Option<File>, clock: nat, one: Proc<()>, two: Proc<()>, acquired: seq<nat>,
                                      a: AcquireStep, lock': Option<File>, pc: Pc<()>)
    requires Leads(lock, clock, two.pc, 2, a, lock', pc) && two.wake <= clock
    ensures var r := DoAcquire(Two(), Sys(lock, clock, one, two, acquired), 2, a);
            r.Some? && r.value.procs == map[1 := one, 2 := Now(two, a, pc, clock)]
  {
    hide LockPath, PidLine, IsStale;
    assert LockPath(Two().store) in Sys(lock, clock, one, two, acquired).fs <==> lock.Some?;
  }

  lemma {:induction false} FilesOfTwo(lock: Option<File>, clock: nat, one: Proc<()>, two: Proc<()>, acquired: seq<nat>,
                                      a: AcquireStep, lock': Option<File>, pc: Pc<()>)
    requires Leads(lock, clock, two.pc, 2, a, lock', pc) && two.wake <= clock
    ensures var r := DoAcquire(Two(), Sys(lock, clock, one, two, acquired), 2, a);
            && r.Some? && r.value.fs == Sys(lock', clock, one, two, acquired).fs && r.value.clock == clock
            && r.value.acquired == AcquiredAfter(acquired, 2, pc) && r.value.log == []
  {
    hide LockPath, PidLine, IsStale;
    assert LockPath(Two().store) in Sys(lock, clock, one, two, acquired).fs <==> lock.Some?;
  }

  lemma {:induction false} StepOfTwo(lock: Option<File>, clock: nat, one: Proc<()>, two: Proc<()>, acquired: seq<nat>,
                                     a: AcquireStep, lock': Option<File>, pc: Pc<()>)
    requires Leads(lock, clock, two.pc, 2, a, lock', pc) && two.wake <= clock
    ensures Do(Two(), Sys(lock, clock, one, two, acquired), Acquire(2, a))
         == Some(Sys(lock', clock, one, Now(two, a, pc, clock), AcquiredAfter(acquired, 2, pc)))
  {
    hide DoAcquire, LockPath, PidLine, IsStale, Leads, Now, AcquiredAfter;
    ProcsOfTwo(lock, clock, one, two, acquired, a, lock', pc);
    FilesOfTwo(lock, clock, one, two, acquired, a, lock', pc);
  }

  /** The steps of the first witness: both stat the abandoned lock, the first removes it and locks, and the second
      removes that new lock and locks too. */
  function SplitBreak(n: nat): seq<Step> {
    [Acquire(1, Enter), Acquire(2, Enter), Acquire(1, TryCreate), Acquire(2, TryCreate), Acquire(1, Stat(true)),
     Acquire(2, Stat(true)), Acquire(1, RemoveStale(true)), Acquire(1, TryCreate), Acquire(2, RemoveStale(true)),
     Acquire(2, TryCreate)][..if n <= 10 then n else 10]
  }

  /** The first witness, step by step: where it stands after `n` steps. */
  function SplitBreakState(n: nat): State<()> {
    var t := STALE_AFTER;
    var left := Some(File("", false, 0));
    var mine := Some(File(PidLine(1), false, t));
    var yours := Some(File(PidLine(2), false, t));
    Sys(if n <= 6 then left else if n == 7 then None else if n == 8 then mine else if n == 9 then None else yours,
        t,
        At(if n == 0 then Start else if n <= 2 then Waiting else if n <= 4 then Exists else if n <= 6 then SawStale
             else if n == 7 then Waiting else Locked,
             if n == 0 then 0 else t, if n <= 7 then 0 else t, if n <= 6 then 0 else 1),
        At(if n <= 1 then Start else if n <= 3 then Waiting else if n <= 5 then Exists else if n <= 8 then SawStale
             else if n == 9 then Waiting else Locked,
             if n <= 1 then 0 else t, if n <= 9 then 0 else t, if n <= 8 then 0 else 1),
        if n <= 7 then [] else if n <= 9 then [1] else [1, 2])
  }

  lemma {:induction false} SplitBreakRuns(n: nat)
    requires n <= 10
    ensures TimelyRun(Two(), SplitBreakState(0), SplitBreak(n))
    ensures Exec(Two(), SplitBreakState(0), SplitBreak(n)) == Some(SplitBreakState(n))
  {
    hide Do, Timely, Sys, PidLine;
    var s := SplitBreakState(n);
    if n == 0 {
      SplitBreakStarts();
    } else {
      SplitBreakRuns(n - 1);
      SplitBreakStep(n - 1);
      assert SplitBreak(n) == SplitBreak(n - 1) + [SplitBreak(10)[n - 1]];
      SplitBreakTimely(n);
      Extend(Two(), SplitBreakState(0), SplitBreak(n - 1), SplitBreak(10)[n - 1], SplitBreakState(n - 1), s);
    }
  }

  lemma {:induction false} SplitBreakTimely(n: nat)
    ensures Timely(SplitBreakState(n))
  {
    hide PidLine, LockPath;
  }

  lemma {:induction false} SplitBreakStarts()
    ensures TimelyRun(Two(), SplitBreakState(0), SplitBreak(0))
    ensures Exec(Two(), SplitBreakState(0), SplitBreak(0)) == Some(SplitBreakState(0))
  {
    SplitBreakTimely(0);
    hide PidLine, LockPath, Timely;
    PathsDiffer(STORE, 1, 2);
    assert Init(Two(), SplitBreakState(0));
  }

  /** The lock file after `n` steps. */
  function LeftLock(n: nat): Option<File> {
    if n <= 6 then Some(File("", false, 0))
    else if n == 8 then Some(File(PidLine(1), false, STALE_AFTER))
    else if n == 10 then Some(File(PidLine(2), false, STALE_AFTER))
    else None
  }

  lemma {:induction false} SplitBreakStepOne(n: nat)
    requires n in {0, 2, 4, 6, 7}
    ensures Do(Two(), SplitBreakState(n), SplitBreak(10)[n]) == Some(SplitBreakState(n + 1))
  {
    hide Do, PidLine, LockPath;
    var (s, t) := (SplitBreakState(n), SplitBreakState(n + 1));
    assert [] + [1] == [1];
    StepOfOne(LeftLock(n), STALE_AFTER, s.procs[1], s.procs[2], s.acquired, SplitBreak(10)[n].a, LeftLock(n + 1),
              t.procs[1].pc);
  }

  lemma {:induction false} SplitBreakStepTwo(n: nat)
    requires n in {1, 3, 5, 8, 9}
    ensures Do(Two(), SplitBreakState(n), SplitBreak(10)[n]) == Some(SplitBreakState(n + 1))
  {
    hide Do, PidLine, LockPath;
    var (s, t) := (SplitBreakState(n), SplitBreakState(n + 1));
    assert [1] + [2] == [1, 2];
    StepOfTwo(LeftLock(n), STALE_AFTER, s.procs[1], s.procs[2], s.acquired, SplitBreak(10)[n].a, LeftLock(n + 1),
              t.procs[2].pc);
  }

  lemma {:induction false} SplitBreakStep(n: nat)
    requires n < 10
    ensures Do(Two(), SplitBreakState(n), SplitBreak(10)[n]) == Some(SplitBreakState(n + 1))
  {
    hide *;
    if n in {0, 2, 4, 6, 7} {
      SplitBreakStepOne(n);
    } else {
      SplitBreakStepTwo(n);
    }
  }

  lemma {:induction false} TwoIsInverse()
    ensures InversePair(Two())
  {
    forall v: ()
      ensures Two().decode(Two().encode(v)) == Some(v)
    {
      match v
      case () =>
    }
  }

  /** Timely holders are not enough: a removal that meets a lock file created since its check lets two processes in. */
  lemma {:induction false} SplitBreakAdmitsTwo()
    ensures InversePair(Two())
    ensures exists s: State<()>, steps: seq<Step> ::
              && TimelyRun(Two(), s, steps)
              && InCs(Exec(Two(), s, steps).value, 1) && InCs(Exec(Two(), s, steps).value, 2)
  {
    hide *;
    TwoIsInverse();
    SplitBreakRuns(10);
    BothInside();
    var (s, steps) := (SplitBreakState(0), SplitBreak(10));
    assert TimelyRun(Two(), s, steps) && InCs(Exec(Two(), s, steps).value, 1) && InCs(Exec(Two(), s, steps).value, 2);
  }

  lemma {:induction false} BothInside()
    ensures InCs(SplitBreakState(10), 1) && InCs(SplitBreakState(10), 2)
  {
    hide PidLine, LockPath;
  }

  /** The steps of the second witness: process 1 locks and then takes STALE_AFTER; process 2 breaks its lock in one
      step and locks too. */
  function SlowHolder(): seq<Step> {
    [Acquire(1, Enter), Acquire(1, TryCreate), Tick(STALE_AFTER), Acquire(2, Enter), Acquire(2, TryCreate),
     Acquire(2, CheckAndBreak(true)), Acquire(2, TryCreate)]
  }

  function SlowState(n: nat): State<()> {
    var t := STALE_AFTER;
    Sys(if 2 <= n <= 5 then Some(File(PidLine(1), false, 0))
        else if n <= 6 then None
        else Some(File(PidLine(2), false, t)),
        if n <= 2 then 0 else t,
        At(if n == 0 then Start else if n == 1 then Waiting else Locked, 0, 0, 0),
        At(if n <= 3 then Start else if n == 4 then Waiting else if n == 5 then Exists
           else if n == 6 then Waiting else Locked,
             if n <= 3 then 0 else t, if n <= 6 then 0 else t, if n <= 5 then 0 else 1),
        if n <= 1 then [] else if n <= 6 then [1] else [1, 2])
  }

  lemma {:induction false} SlowStepOne(n: nat)
    requires n in {0, 1}
    ensures Do(Two(), SlowState(n), SlowHolder()[n]) == Some(SlowState(n + 1))
  {
    hide Do, PidLine, LockPath;
    assert [] + [1] == [1];
    StepOfOne(None, 0, SlowState(n).procs[1], SlowState(n).procs[2], [], SlowHolder()[n].a,
              if n == 0 then None else Some(File(PidLine(1), false, 0)), SlowState(n + 1).procs[1].pc);
  }

  lemma {:induction false} SlowStepTwo(n: nat)
    requires n in {3, 4, 5, 6}
    ensures Do(Two(), SlowState(n), SlowHolder()[n]) == Some(SlowState(n + 1))
  {
    hide Do, PidLine, LockPath;
    assert [1] + [2] == [1, 2];
    var lock := if n <= 5 then Some(File(PidLine(1), false, 0)) else None;
    var lock' := if n <= 4 then lock else if n == 5 then None else Some(File(PidLine(2), false, STALE_AFTER));
    StepOfTwo(lock, STALE_AFTER, SlowState(n).procs[1], SlowState(n).procs[2], [1], SlowHolder()[n].a, lock',
              SlowState(n + 1).procs[2].pc);
  }

  lemma {:induction false} SlowTick()
    ensures Do(Two(), SlowState(2), SlowHolder()[2]) == Some(SlowState(3))
  {
    hide PidLine, LockPath;
  }

  lemma SlowLength()
    ensures |SlowHolder()| == 7
  {
  }

  lemma ExecOfNothing<S>(c: Config<S>, s: State<S>)
    ensures Exec(c, s, []) == Some(s)
  {
  }

  lemma {:induction false} SlowRuns(n: nat)
    requires n <= 7
    ensures |SlowHolder()| == 7
    ensures Exec(Two(), SlowState(0), SlowHolder()[..n]) == Some(SlowState(n))
  {
    hide *;
    SlowLength();
    if n == 0 {
      ExecOfNothing(Two(), SlowState(0));
      assert SlowHolder()[..0] == [];
    } else {
      SlowRuns(n - 1);
      if n == 3 {
        SlowTick();
      } else if n <= 2 {
        SlowStepOne(n - 1);
      } else {
        SlowStepTwo(n - 1);
      }
      assert SlowHolder()[..n] == SlowHolder()[..n - 1] + [SlowHolder()[n - 1]];
      Extend(Two(), SlowState(0), SlowHolder()[..n - 1], SlowHolder()[n - 1], SlowState(n - 1), SlowState(n));
    }
  }

  lemma {:induction false} SlowStarts()
    ensures Init(Two(), SlowState(0))
    ensures forall i :: 0 <= i < |SlowHolder()| ==> Unsplit(SlowHolder()[i])
    ensures InCs(SlowState(7), 1) && InCs(SlowState(7), 2)
  {
    hide PidLine, LockPath;
  }

  /** Nor are one-step breaks: a holder that takes STALE_AFTER has its lock broken under it. */
  lemma {:induction false} SlowHolderAdmitsTwo()
    ensures InversePair(Two())
    ensures exists s: State<()>, steps: seq<Step> ::
              && Init(Two(), s) && Exec(Two(), s, steps).Some?
              && (forall i :: 0 <= i < |steps| ==> Unsplit(steps[i]))
              && InCs(Exec(Two(), s, steps).value, 1) && InCs(Exec(Two(), s, steps).value, 2)
  {
    hide *;
    TwoIsInverse();
    SlowStarts();
    SlowRuns(7);
    var (s, steps) := (SlowState(0), SlowHolder());
    assert steps[..7] == steps;
    assert Init(Two(), s) && Exec(Two(), s, steps) == Some(SlowState(7));
  }
}
