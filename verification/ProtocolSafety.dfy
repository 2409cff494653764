/** What every run of the store protocol keeps: mutual exclusion, no lost update, and a store that is never torn. */
module ProtocolSafety {
  import opened FileSystem
  import opened StoreProtocol
  import opened Wrappers

  // ---------- runs ----------

  /** No process has started; any lock file, temporary files and (synced) store may be there. */
  ghost predicate Init<S>(c: Config<S>, s: State<S>) {
    && s.procs.Keys == c.mutations.Keys
    && (forall p :: p in s.procs ==> s.procs[p].pc == Start && s.procs[p].breaks == 0)
    && s.acquired == [] && s.log == []
    && (c.store in s.fs ==> s.fs[c.store].synced)
  }

  /** The step removes the lock file as a stale one. */
  ghost predicate BreaksLock<S>(c: Config<S>, s: State<S>, step: Step) {
    && step.Acquire? && (step.a.CheckAndBreak? || step.a.RemoveStale?)
    && LockPath(c.store) in s.fs && Do(c, s, step).Some? && LockPath(c.store) !in Do(c, s, step).value.fs
  }

  /** If the step breaks the lock, nobody is inside `with_lock`. */
  ghost predicate Gentle<S>(c: Config<S>, s: State<S>, step: Step) {
    BreaksLock(c, s, step) ==> forall q :: !InCs(s, q)
  }

  /** A run from an initial state that breaks no lock while somebody is inside. */
  ghost predicate GentleRun<S>(c: Config<S>, s: State<S>, steps: seq<Step>)
    decreases |steps|
  {
    && Exec(c, s, steps).Some?
    && if steps == [] then Init(c, s)
       else
         var front := steps[..|steps| - 1];
         GentleRun(c, s, front) && Gentle(c, Exec(c, s, front).value, steps[|steps| - 1])
  }

  // ---------- the invariant ----------

  /** The mutations of the processes in `log`, applied one after another. */
  ghost function Replay<S>(c: Config<S>, init: Option<S>, log: seq<nat>): Option<S> {
    if log == [] then init
    else
      var before := Replay(c, init, log[..|log| - 1]);
      var p := log[|log| - 1];
      if before.None? || p !in c.mutations then None else c.mutations[p](before.value)
  }

  /** The elements of `xs` that occur in `keep`, in order. */
  function Pick(xs: seq<nat>, keep: seq<nat>): seq<nat> {
    if xs == [] then []
    else Pick(xs[..|xs| - 1], keep) + (if xs[|xs| - 1] in keep then [xs[|xs| - 1]] else [])
  }

  ghost predicate NoDuplicates(xs: seq<nat>) {
    forall i, j :: 0 <= i < j < |xs| ==> xs[i] != xs[j]
  }

  predicate IsCommitted<S>(pc: Pc<S>) {
    match pc
    case Releasing(r) => r == Committed
    case Done(r) => r == Committed
    case Crashed(committed) => committed
    case _ => false
  }

  /** The process has not obtained the lock. */
  predicate IsBefore<S>(pc: Pc<S>) {
    pc.Start? || pc.Waiting? || pc.Exists? || pc.SawStale? || pc.NotBroken?
  }

  /** The lock file is the one this process created. */
  ghost predicate OwnsLock<S>(c: Config<S>, s: State<S>, p: nat)
    requires p in s.procs
  {
    var lock := LockPath(c.store);
    lock in s.fs && s.fs[lock].data == PidLine(p) && s.fs[lock].mtime == s.procs[p].since
  }

  /** `t` is what the process's mutation makes of the store as it is on disk. */
  ghost predicate IsMutationOfCurrent<S>(c: Config<S>, s: State<S>, p: nat, t: S) {
    p in c.mutations && Current(c, s.fs).Some? && c.mutations[p](Current(c, s.fs).value) == Some(t)
  }

  ghost predicate WorkOk<S>(c: Config<S>, s: State<S>, p: nat)
    requires p in s.procs
  {
    var temp := TempPath(c.store, p);
    match s.procs[p].pc
    case Loaded(v) => Current(c, s.fs) == Some(v)
    case Mutated(t) => IsMutationOfCurrent(c, s, p, t)
    case TempCreated(t) => IsMutationOfCurrent(c, s, p, t)
    case TempWritten(t) => IsMutationOfCurrent(c, s, p, t) && temp in s.fs && s.fs[temp].data == c.encode(t)
    case TempSynced(t) =>
      IsMutationOfCurrent(c, s, p, t) && temp in s.fs && s.fs[temp].data == c.encode(t) && s.fs[temp].synced
    case _ => true
  }

  ghost predicate ProcOk<S>(c: Config<S>, s: State<S>, p: nat)
    requires p in s.procs
  {
    var pc := s.procs[p].pc;
    && (Holds(pc) ==> OwnsLock(c, s, p) && s.acquired != [] && s.acquired[|s.acquired| - 1] == p)
    && WorkOk(c, s, p)
    && (p in s.log <==> IsCommitted(pc))
    && (p in s.acquired ==> !IsBefore(pc))
  }

  ghost predicate StoreOk<S>(c: Config<S>, s: State<S>, init: Option<S>) {
    && Current(c, s.fs) == Replay(c, init, s.log)
    && (s.log != [] ==> Current(c, s.fs).Some?)
    && (c.store in s.fs ==> s.fs[c.store].synced)
  }

  ghost predicate LogOk<S>(s: State<S>) {
    && NoDuplicates(s.acquired) && NoDuplicates(s.log)
    && s.log == Pick(s.acquired, s.log)
  }

  /** What does not depend on the store being read back as it was written. */
  ghost predicate Core<S>(c: Config<S>, s: State<S>) {
    && s.procs.Keys == c.mutations.Keys
    && (forall p :: p in s.procs ==> ProcOk(c, s, p))
    && LogOk(s)
  }

  ghost predicate Inv<S>(c: Config<S>, s: State<S>, init: Option<S>) {
    Core(c, s) && StoreOk(c, s, init)
  }

  // ---------- exclusion ----------

  lemma {:induction false} OnlyOneHolder<S>(c: Config<S>, s: State<S>, p: nat, q: nat)
    requires Core(c, s) && InCs(s, p) && InCs(s, q)
    ensures p == q
  {
    assert ProcOk(c, s, p) && ProcOk(c, s, q);
    PidLineInjective(p, q);
  }

  /** Nobody holds a lock whose file is missing. */
  lemma {:induction false} NoHolder<S>(c: Config<S>, s: State<S>, q: nat)
    requires Core(c, s) && LockPath(c.store) !in s.fs
    ensures !InCs(s, q)
  {
    assert q in s.procs ==> ProcOk(c, s, q);
  }

  // ---------- preservation ----------

  /** Nothing that matters to process `q` changed. */
  ghost predicate Untouched<S>(c: Config<S>, s: State<S>, t: State<S>, q: nat) {
    && q in s.procs && q in t.procs && t.procs[q] == s.procs[q]
    && (q in t.log <==> q in s.log) && (q in t.acquired <==> q in s.acquired)
    && (Holds(s.procs[q].pc) ==> t.fs == s.fs && t.acquired == s.acquired)
  }

  lemma {:induction false} UntouchedIsOk<S>(c: Config<S>, s: State<S>, t: State<S>, q: nat)
    requires Untouched(c, s, t, q) && ProcOk(c, s, q)
    ensures ProcOk(c, t, q)
  {
  }

  ghost predicate SameStoreFile<S>(c: Config<S>, s: State<S>, t: State<S>) {
    (c.store in t.fs <==> c.store in s.fs) && (c.store in s.fs ==> t.fs[c.store] == s.fs[c.store])
  }

  lemma {:induction false} StoreUntouched<S>(c: Config<S>, s: State<S>, t: State<S>, init: Option<S>)
    requires StoreOk(c, s, init) && t.log == s.log && SameStoreFile(c, s, t)
    ensures StoreOk(c, t, init)
  {
  }

  lemma {:induction false} PickMore(xs: seq<nat>, p: nat, keep: seq<nat>)
    ensures Pick(xs + [p], keep) == Pick(xs, keep) + (if p in keep then [p] else [])
  {
    assert (xs + [p])[..|xs|] == xs;
  }

  lemma {:induction false} PickIrrelevant(xs: seq<nat>, keep: seq<nat>, p: nat)
    requires p !in xs
    ensures Pick(xs, keep + [p]) == Pick(xs, keep)
    decreases |xs|
  {
    if xs != [] {
      PickIrrelevant(xs[..|xs| - 1], keep, p);
    }
  }

  /** Only process `p` changed; every other process is untouched. */
  ghost predicate OnlyChanged<S>(c: Config<S>, s: State<S>, t: State<S>, p: nat) {
    && t.procs.Keys == s.procs.Keys && p in s.procs
    && forall q :: q in s.procs && q != p ==> Untouched(c, s, t, q)
  }

  /** If only `p` changed, its own part and the shared parts of the invariant are all there is to show. */
  lemma {:induction false} CoreFromParts<S>(c: Config<S>, s: State<S>, t: State<S>, p: nat)
    requires Core(c, s) && OnlyChanged(c, s, t, p)
    requires ProcOk(c, t, p) && LogOk(t)
    ensures Core(c, t)
  {
    hide ProcOk, LogOk, Untouched;
    forall q | q in t.procs
      ensures ProcOk(c, t, q)
    {
      if q != p {
        UntouchedIsOk(c, s, t, q);
      }
    }
  }

  // ----- steps before the lock is held -----

  /** Everything an acquire step can do. */
  lemma {:induction false} AcquireEffect<S>(c: Config<S>, s: State<S>, p: nat, a: AcquireStep, t: State<S>)
    requires p in s.procs && DoAcquire(c, s, p, a) == Some(t)
    ensures t.procs.Keys == s.procs.Keys && t.log == s.log && IsBefore(s.procs[p].pc)
    ensures forall q :: q in s.procs && q != p ==> t.procs[q] == s.procs[q]
    ensures var lock := LockPath(c.store); var pc := t.procs[p].pc;
            || (t.acquired == s.acquired && t.fs == s.fs && (IsBefore(pc) || pc == Done(TimedOut)))
            || (t.acquired == s.acquired && t.fs == s.fs - {lock} && pc == Waiting && BreaksLock(c, s, Acquire(p, a)))
            || (t.acquired == s.acquired + [p] && lock !in s.fs && pc == Locked && t.procs[p].since == s.clock
                && t.fs == s.fs[lock := File(PidLine(p), false, s.clock)])
  {
    hide PidLine, LockPath, IsStale;
  }

  lemma {:induction false} AcquireProcOk<S>(c: Config<S>, s: State<S>, t: State<S>, p: nat, a: AcquireStep)
    requires p in s.procs && DoAcquire(c, s, p, a) == Some(t)
    requires ProcOk(c, s, p)
    ensures ProcOk(c, t, p)
  {
    AcquireEffect(c, s, p, a, t);
    hide DoAcquire, PidLine, IsStale, Current, BreaksLock;
  }

  lemma {:induction false} AcquireOthers<S>(c: Config<S>, s: State<S>, p: nat, a: AcquireStep, t: State<S>)
    requires Core(c, s) && Gentle(c, s, Acquire(p, a))
    requires p in s.procs && DoAcquire(c, s, p, a) == Some(t)
    ensures OnlyChanged(c, s, t, p)
  {
    AcquireEffect(c, s, p, a, t);
    hide DoAcquire, Core, PidLine, IsStale, BreaksLock;
    forall q | q in s.procs && q != p
      ensures Untouched(c, s, t, q)
    {
      assert InCs(s, q) <==> Holds(s.procs[q].pc);
      if LockPath(c.store) !in s.fs {
        NoHolder(c, s, q);
      }
    }
  }

  lemma {:induction false} AcquireLog<S>(c: Config<S>, s: State<S>, p: nat, a: AcquireStep, t: State<S>)
    requires p in s.procs && DoAcquire(c, s, p, a) == Some(t)
    requires ProcOk(c, s, p) && LogOk(s)
    ensures LogOk(t)
  {
    AcquireEffect(c, s, p, a, t);
    NotYetLogged(c, s, p);
    hide DoAcquire, PidLine, IsStale, Pick, ProcOk, BreaksLock;
    if t.acquired == s.acquired + [p] {
      PickMore(s.acquired, p, s.log);
    }
  }

  lemma {:induction false} NotYetLogged<S>(c: Config<S>, s: State<S>, p: nat)
    requires p in s.procs && ProcOk(c, s, p) && IsBefore(s.procs[p].pc)
    ensures p !in s.log && p !in s.acquired
  {
  }

  lemma {:induction false} AcquireKeepsCore<S>(c: Config<S>, s: State<S>, p: nat, a: AcquireStep, t: State<S>)
    requires Core(c, s) && Gentle(c, s, Acquire(p, a))
    requires p in s.procs && DoAcquire(c, s, p, a) == Some(t)
    ensures Core(c, t)
  {
    hide DoAcquire, ProcOk, LogOk, OnlyChanged, Gentle;
    AcquireProcOk(c, s, t, p, a);
    AcquireOthers(c, s, p, a, t);
    AcquireLog(c, s, p, a, t);
    CoreFromParts(c, s, t, p);
  }

  // ----- steps of the holder -----

  lemma {:induction false} WorkEffect<S>(c: Config<S>, s: State<S>, p: nat, h: HolderStep, t: State<S>)
    requires p in s.procs && p in c.mutations && DoWork(c, s, p, h) == Some(t)
    ensures t.procs.Keys == s.procs.Keys && t.acquired == s.acquired && Holds(s.procs[p].pc)
    ensures forall q :: q in s.procs && q != p ==> t.procs[q] == s.procs[q]
    ensures t.log == if h.RenameTemp? then s.log + [p] else s.log
    ensures !h.RenameTemp? ==> SameStoreFile(c, s, t)
  {
    PathsDiffer(c.store, p, p);
  }

  lemma {:induction false} WorkOthers<S>(c: Config<S>, s: State<S>, p: nat, h: HolderStep, t: State<S>)
    requires Core(c, s)
    requires p in s.procs && p in c.mutations && DoWork(c, s, p, h) == Some(t)
    ensures OnlyChanged(c, s, t, p)
  {
    WorkEffect(c, s, p, h, t);
    hide DoWork, Core;
    forall q | q in s.procs && q != p
      ensures Untouched(c, s, t, q)
    {
      if InCs(s, q) {
        OnlyOneHolder(c, s, p, q);
      }
    }
  }

  /** The holder's part of the invariant, for the steps that leave the store file alone. */
  lemma {:induction false} WorkProcOk<S>(c: Config<S>, s: State<S>, p: nat, h: HolderStep, t: State<S>)
    requires p in s.procs && p in c.mutations && DoWork(c, s, p, h) == Some(t)
    requires ProcOk(c, s, p) && !h.RenameTemp?
    requires SameStoreFile(c, s, t)
    ensures ProcOk(c, t, p)
  {
    assert Current(c, t.fs) == Current(c, s.fs);
    hide Current, PidLine;
    PathsDiffer(c.store, p, p);
    hide TempPath, LockPath;
  }

  lemma {:induction false} RenameProcOk<S>(c: Config<S>, s: State<S>, p: nat, t: State<S>)
    requires p in s.procs && p in c.mutations && DoWork(c, s, p, RenameTemp) == Some(t)
    requires ProcOk(c, s, p)
    ensures ProcOk(c, t, p)
  {
    hide Current, PidLine;
    PathsDiffer(c.store, p, p);
    hide TempPath, LockPath;
  }

  /** The store after a rename is the mutation of the store before it. */
  lemma {:induction false} RenameStoreOk<S(!new)>(c: Config<S>, s: State<S>, init: Option<S>, p: nat, t: State<S>)
    requires p in s.procs && p in c.mutations && DoWork(c, s, p, RenameTemp) == Some(t)
    requires InversePair(c) && ProcOk(c, s, p) && StoreOk(c, s, init)
    ensures StoreOk(c, t, init)
  {
    hide PidLine, LockPath, TempPath;
    var v := s.procs[p].pc.s;
    assert t.fs[c.store].data == c.encode(v);
    assert c.decode(c.encode(v)) == Some(v);
    assert t.log[..|t.log| - 1] == s.log;
  }

  lemma {:induction false} RenameLogOk<S>(c: Config<S>, s: State<S>, p: nat, t: State<S>)
    requires p in s.procs && ProcOk(c, s, p) && LogOk(s)
    requires Holds(s.procs[p].pc) && !IsCommitted(s.procs[p].pc)
    requires t.acquired == s.acquired && t.log == s.log + [p]
    ensures LogOk(t)
  {
    LogFacts(c, s, p);
    hide ProcOk, Pick;
    var front := s.acquired[..|s.acquired| - 1];
    assert s.acquired == front + [p];
    assert p !in front;
    PickMore(front, p, s.log);
    PickMore(front, p, t.log);
    PickIrrelevant(front, s.log, p);
  }

  lemma {:induction false} LogFacts<S>(c: Config<S>, s: State<S>, p: nat)
    requires p in s.procs && ProcOk(c, s, p) && Holds(s.procs[p].pc)
    ensures s.acquired != [] && s.acquired[|s.acquired| - 1] == p
    ensures p in s.log <==> IsCommitted(s.procs[p].pc)
  {
  }

  lemma {:induction false} CoreGives<S>(c: Config<S>, s: State<S>, p: nat)
    requires Core(c, s) && p in s.procs
    ensures ProcOk(c, s, p) && LogOk(s)
  {
  }

  lemma {:induction false} RenamerHasNotCommitted<S>(c: Config<S>, s: State<S>, p: nat, t: State<S>)
    requires p in s.procs && p in c.mutations && DoWork(c, s, p, RenameTemp) == Some(t)
    ensures !IsCommitted(s.procs[p].pc)
  {
  }

  lemma {:induction false} LogUntouched<S>(s: State<S>, t: State<S>)
    requires LogOk(s) && t.acquired == s.acquired && t.log == s.log
    ensures LogOk(t)
  {
  }

  lemma {:induction false} WorkKeepsCore<S>(c: Config<S>, s: State<S>, p: nat, h: HolderStep, t: State<S>)
    requires Core(c, s)
    requires p in s.procs && p in c.mutations && DoWork(c, s, p, h) == Some(t)
    ensures Core(c, t)
  {
    hide *;
    CoreGives(c, s, p);
    WorkEffect(c, s, p, h, t);
    WorkOthers(c, s, p, h, t);
    if h.RenameTemp? {
      RenamerHasNotCommitted(c, s, p, t);
      RenameProcOk(c, s, p, t);
      RenameLogOk(c, s, p, t);
    } else {
      WorkProcOk(c, s, p, h, t);
      LogUntouched(s, t);
    }
    CoreFromParts(c, s, t, p);
  }

  // ----- faults -----

  lemma {:induction false} FaultEffect<S>(c: Config<S>, s: State<S>, p: nat, f: FaultStep, t: State<S>)
    requires p in s.procs && DoFault(c, s, p, f) == Some(t)
    ensures t.procs.Keys == s.procs.Keys && t.acquired == s.acquired && t.log == s.log
    ensures forall q :: q in s.procs && q != p ==> t.procs[q] == s.procs[q]
    ensures t.fs == s.fs || Holds(s.procs[p].pc)
    ensures SameStoreFile(c, s, t)
  {
    PathsDiffer(c.store, p, p);
  }

  lemma {:induction false} FaultProcOk<S>(c: Config<S>, s: State<S>, p: nat, f: FaultStep, t: State<S>)
    requires p in s.procs && DoFault(c, s, p, f) == Some(t)
    requires ProcOk(c, s, p)
    ensures ProcOk(c, t, p)
  {
    hide Current, PidLine;
    PathsDiffer(c.store, p, p);
    hide TempPath, LockPath;
  }

  lemma {:induction false} FaultKeepsCore<S>(c: Config<S>, s: State<S>, p: nat, f: FaultStep, t: State<S>)
    requires Core(c, s)
    requires p in s.procs && DoFault(c, s, p, f) == Some(t)
    ensures Core(c, t)
  {
    FaultEffect(c, s, p, f, t);
    CoreGives(c, s, p);
    hide DoFault, ProcOk, Core, LogOk, SameStoreFile;
    FaultProcOk(c, s, p, f, t);
    LogUntouched(s, t);
    forall q | q in s.procs && q != p
      ensures Untouched(c, s, t, q)
    {
      if InCs(s, q) && InCs(s, p) {
        OnlyOneHolder(c, s, p, q);
      }
    }
    CoreFromParts(c, s, t, p);
  }

  lemma {:induction false} PowerLossProcOk<S>(c: Config<S>, s: State<S>, fs: Fs, t: State<S>, q: nat)
    requires Do(c, s, PowerLoss(fs)) == Some(t) && q in s.procs
    requires ProcOk(c, s, q)
    ensures ProcOk(c, t, q)
  {
    hide Current, PidLine, LockPath, TempPath, Survives;
  }

  lemma {:induction false} PowerLossKeepsCore<S>(c: Config<S>, s: State<S>, fs: Fs, t: State<S>)
    requires Core(c, s)
    requires Do(c, s, PowerLoss(fs)) == Some(t)
    ensures Core(c, t)
  {
    hide ProcOk, LogOk;
    LogUntouched(s, t);
    assert t.procs.Keys == s.procs.Keys;
    hide Do, CrashAll;
    forall q | q in t.procs
      ensures ProcOk(c, t, q)
    {
      PowerLossProcOk(c, s, fs, t, q);
    }
  }

  lemma {:induction false} TickKeepsCore<S>(c: Config<S>, s: State<S>, ms: nat, t: State<S>)
    requires Core(c, s) && Do(c, s, Tick(ms)) == Some(t)
    ensures Core(c, t)
  {
    hide LogOk;
    LogUntouched(s, t);
    forall q | q in t.procs
      ensures ProcOk(c, t, q)
    {
      assert ProcOk(c, s, q);
    }
  }

  lemma {:induction false} StepKeepsCore<S>(c: Config<S>, s: State<S>, step: Step, t: State<S>)
    requires Core(c, s) && Gentle(c, s, step)
    requires Do(c, s, step) == Some(t)
    ensures Core(c, t)
  {
    hide Core, Gentle, DoAcquire, DoWork, DoFault;
    match step
    case Tick(ms) => TickKeepsCore(c, s, ms, t);
    case PowerLoss(fs) => PowerLossKeepsCore(c, s, fs, t);
    case Acquire(p, a) => AcquireKeepsCore(c, s, p, a, t);
    case Work(p, h) => WorkKeepsCore(c, s, p, h, t);
    case Fault(p, f) => FaultKeepsCore(c, s, p, f, t);
  }

  // ----- the store -----

  lemma {:induction false} AcquireLeavesStore<S>(c: Config<S>, s: State<S>, p: nat, a: AcquireStep, t: State<S>)
    requires p in s.procs && DoAcquire(c, s, p, a) == Some(t)
    ensures SameStoreFile(c, s, t) && t.log == s.log
  {
    PathsDiffer(c.store, p, p);
    hide LockPath, PidLine, IsStale;
  }

  /** Every step but a rename leaves a synced store file as it is. */
  lemma {:induction false} StepLeavesStore<S>(c: Config<S>, s: State<S>, step: Step, t: State<S>)
    requires Do(c, s, step) == Some(t) && !(step.Work? && step.h.RenameTemp?)
    requires c.store in s.fs ==> s.fs[c.store].synced
    ensures SameStoreFile(c, s, t) && t.log == s.log
  {
    match step
    case Tick(_) =>
    case PowerLoss(_) =>
    case Acquire(p, a) =>
      hide DoAcquire, SameStoreFile;
      AcquireLeavesStore(c, s, p, a, t);
    case Fault(p, f) =>
      hide DoFault, SameStoreFile;
      FaultEffect(c, s, p, f, t);
    case Work(p, h) =>
      hide DoWork, SameStoreFile;
      WorkEffect(c, s, p, h, t);
  }

  lemma {:induction false} StepKeepsStore<S(!new)>(c: Config<S>, s: State<S>, init: Option<S>, step: Step, t: State<S>)
    requires InversePair(c) && Inv(c, s, init) && Do(c, s, step) == Some(t)
    ensures StoreOk(c, t, init)
  {
    if step.Work? && step.h.RenameTemp? {
      CoreGives(c, s, step.p);
      RenameStoreOk(c, s, init, step.p, t);
    } else {
      StepLeavesStore(c, s, step, t);
      hide Do, SameStoreFile, InversePair;
      StoreUntouched(c, s, t, init);
    }
  }

  // ---------- every gentle run ----------

  lemma {:induction false} InitIsCore<S>(c: Config<S>, s: State<S>)
    requires Init(c, s)
    ensures Inv(c, s, Current(c, s.fs))
  {
    hide Current;
  }

  lemma {:induction false} RunKeepsCore<S>(c: Config<S>, s: State<S>, steps: seq<Step>)
    requires GentleRun(c, s, steps)
    ensures Core(c, Exec(c, s, steps).value)
    decreases |steps|
  {
    hide Core, Gentle, Do, Init;
    if steps == [] {
      InitIsCore(c, s);
      hide StoreOk;
      InvIsCore(c, s, Current(c, s.fs));
    } else {
      var front := steps[..|steps| - 1];
      RunKeepsCore(c, s, front);
      StepKeepsCore(c, Exec(c, s, front).value, steps[|steps| - 1], Exec(c, s, steps).value);
    }
  }

  lemma {:induction false} InvIsCore<S>(c: Config<S>, s: State<S>, init: Option<S>)
    requires Inv(c, s, init)
    ensures Core(c, s)
  {
  }

  /** The invariant holds after every gentle run. */
  lemma {:induction false} RunKeepsInv<S(!new)>(c: Config<S>, s: State<S>, steps: seq<Step>)
    requires InversePair(c) && GentleRun(c, s, steps)
    ensures Inv(c, Exec(c, s, steps).value, Current(c, s.fs))
    decreases |steps|
  {
    hide Core, Gentle, Do, Init, StoreOk, Current, InversePair;
    if steps == [] {
      InitIsCore(c, s);
    } else {
      var front := steps[..|steps| - 1];
      RunKeepsInv(c, s, front);
      RunKeepsCore(c, s, steps);
      StepKeepsStore(c, Exec(c, s, front).value, Current(c, s.fs), steps[|steps| - 1], Exec(c, s, steps).value);
    }
  }

  /** Mutual exclusion: no two processes are inside `with_lock`. */
  lemma {:induction false} MutualExclusion<S>(c: Config<S>, s: State<S>, steps: seq<Step>, p: nat, q: nat)
    requires GentleRun(c, s, steps)
    requires InCs(Exec(c, s, steps).value, p) && InCs(Exec(c, s, steps).value, q)
    ensures p == q
  {
    RunKeepsCore(c, s, steps);
    OnlyOneHolder(c, Exec(c, s, steps).value, p, q);
  }

  /** A guard's drop finds its own lock file under the name it unlinks. */
  lemma {:induction false} DropRemovesOwnLock<S>(c: Config<S>, s: State<S>, steps: seq<Step>, p: nat)
    requires GentleRun(c, s, steps)
    requires InCs(Exec(c, s, steps).value, p)
    ensures OwnsLock(c, Exec(c, s, steps).value, p)
  {
    RunKeepsCore(c, s, steps);
    CoreGives(c, Exec(c, s, steps).value, p);
  }

  /** Serializability: the store on disk is the initial one with exactly the committed mutations applied, each once,
      in the order in which their processes obtained the lock. A process that finished otherwise (its mutation
      returned an error, an I/O call failed, it timed out, or it crashed before the rename) is not among them. */
  lemma {:induction false} Serializability<S(!new)>(c: Config<S>, s: State<S>, steps: seq<Step>)
    requires InversePair(c) && GentleRun(c, s, steps)
    ensures var end := Exec(c, s, steps).value;
            && Current(c, end.fs) == Replay(c, Current(c, s.fs), end.log)
            && (end.log != [] ==> Current(c, end.fs).Some?)
            && NoDuplicates(end.log)
            && end.log == Pick(end.acquired, end.log)
            && end.procs.Keys == c.mutations.Keys
            && forall p :: p in end.procs ==> (p in end.log <==> IsCommitted(end.procs[p].pc))
  {
    RunKeepsInv(c, s, steps);
    var end := Exec(c, s, steps).value;
    forall p | p in end.procs
      ensures p in end.log <==> IsCommitted(end.procs[p].pc)
    {
      assert ProcOk(c, end, p);
    }
  }

  // ---------- gentleness is exactly what is needed ----------

  /** Everybody inside owns the lock file. */
  ghost predicate HoldersOwn<S>(c: Config<S>, s: State<S>) {
    forall p :: InCs(s, p) ==> OwnsLock(c, s, p)
  }

  /** A run from an initial state in which, at every state, everybody inside owns the lock file. */
  ghost predicate OwnedRun<S>(c: Config<S>, s: State<S>, steps: seq<Step>)
    decreases |steps|
  {
    && Exec(c, s, steps).Some?
    && HoldersOwn(c, Exec(c, s, steps).value)
    && if steps == [] then Init(c, s) else OwnedRun(c, s, steps[..|steps| - 1])
  }

  /** A break that is not gentle leaves somebody inside whose lock file is gone. */
  lemma {:induction false} UngentleOrphans<S>(c: Config<S>, s: State<S>, step: Step, t: State<S>)
    requires Do(c, s, step) == Some(t) && !Gentle(c, s, step)
    ensures LockPath(c.store) !in t.fs && t.procs[step.p].pc == Waiting && !HoldersOwn(c, t)
    ensures exists q :: InCs(t, q) && q != step.p
  {
    var q :| InCs(s, q);
    AcquireEffect(c, s, step.p, step.a, t);
    assert InCs(t, q) && q != step.p;
  }

  lemma {:induction false} CoreMeansOwned<S>(c: Config<S>, s: State<S>)
    requires Core(c, s)
    ensures HoldersOwn(c, s)
  {
    forall p | InCs(s, p)
      ensures OwnsLock(c, s, p)
    {
      CoreGives(c, s, p);
    }
  }

  /** The exact condition: at every state of a run everybody inside owns the lock file if and only if no step of it
      breaks the lock while somebody is inside. */
  lemma {:induction false} OwnedIffGentle<S>(c: Config<S>, s: State<S>, steps: seq<Step>)
    ensures OwnedRun(c, s, steps) <==> GentleRun(c, s, steps)
    decreases |steps|
  {
    hide Core, Gentle, Do, Init, HoldersOwn;
    if GentleRun(c, s, steps) {
      RunKeepsCore(c, s, steps);
      CoreMeansOwned(c, Exec(c, s, steps).value);
    }
    if steps != [] {
      var front := steps[..|steps| - 1];
      OwnedIffGentle(c, s, front);
      if OwnedRun(c, s, steps) && !Gentle(c, Exec(c, s, front).value, steps[|steps| - 1]) {
        UngentleOrphans(c, Exec(c, s, front).value, steps[|steps| - 1], Exec(c, s, steps).value);
      }
    }
  }

  /** And it is needed for mutual exclusion: wherever a break is not gentle, the breaker needs only its next two steps,
      waking and creating, to be inside together with a holder. */
  lemma {:induction false} UngentleBreakAdmitsTwo<S>(c: Config<S>, s: State<S>, step: Step)
    requires Do(c, s, step).Some? && !Gentle(c, s, step)
    ensures var more := [step, Tick(Do(c, s, step).value.procs[step.p].wake), Acquire(step.p, TryCreate)];
            Exec(c, s, more).Some? && InCs(Exec(c, s, more).value, step.p) &&
            exists q :: q != step.p && InCs(Exec(c, s, more).value, q)
  {
    var t := Do(c, s, step).value;
    UngentleOrphans(c, s, step, t);
    var q :| InCs(t, q) && q != step.p;
    var p := step.p;
    var u := Do(c, t, Tick(t.procs[p].wake)).value;
    var v := Do(c, u, Acquire(p, TryCreate));
    hide PidLine, LockPath, Gentle;
    assert v.Some? && InCs(v.value, p) && InCs(v.value, q);
    hide Do;
    ExecThree(c, s, step, Tick(t.procs[p].wake), Acquire(p, TryCreate));
  }

  lemma {:induction false} ExecThree<S>(c: Config<S>, s: State<S>, x: Step, y: Step, z: Step)
    requires Do(c, s, x).Some? && Do(c, Do(c, s, x).value, y).Some?
    ensures Exec(c, s, [x, y, z]) == Do(c, Do(c, Do(c, s, x).value, y).value, z)
  {
    hide Do;
    assert [x, y, z][..2] == [x, y] && [x, y][..1] == [x] && [x][..0] == [];
    assert Exec(c, s, [x]) == Do(c, s, x);
    assert Exec(c, s, [x, y]) == Do(c, Do(c, s, x).value, y);
  }

  // ---------- when runs are gentle ----------

  /** Every live holder is within STALE_AFTER of obtaining the lock. */
  ghost predicate Timely<S>(s: State<S>) {
    forall p :: InCs(s, p) ==> s.clock < s.procs[p].since + STALE_AFTER
  }

  /** If the step is the second call of a break, the lock file it meets is (still) stale. */
  ghost predicate MeetsStale<S>(c: Config<S>, s: State<S>, step: Step) {
    step.Acquire? && step.a.RemoveStale? && LockPath(c.store) in s.fs ==>
      IsStale(s.clock, s.fs[LockPath(c.store)].mtime)
  }

  /** A run in which holders are timely throughout and no removal meets a lock file created since the check. */
  ghost predicate SafeRun<S>(c: Config<S>, s: State<S>, steps: seq<Step>)
    decreases |steps|
  {
    && Exec(c, s, steps).Some?
    && Timely(Exec(c, s, steps).value)
    && if steps == [] then Init(c, s)
       else
         var front := steps[..|steps| - 1];
         SafeRun(c, s, front) && MeetsStale(c, Exec(c, s, front).value, steps[|steps| - 1])
  }

  lemma {:induction false} StaleBreakIsGentle<S>(c: Config<S>, s: State<S>, step: Step)
    requires Core(c, s) && Timely(s) && MeetsStale(c, s, step)
    ensures Gentle(c, s, step)
  {
    hide LockPath, PidLine;
    if BreaksLock(c, s, step) {
      forall q ensures !InCs(s, q) {
        if InCs(s, q) {
          CoreGives(c, s, q);
        }
      }
    }
  }

  /** Safe runs are gentle: a one-step break always, and the two calls of a real break whenever the file that goes is
      still stale. */
  lemma {:induction false} SafeIsGentle<S>(c: Config<S>, s: State<S>, steps: seq<Step>)
    requires SafeRun(c, s, steps)
    ensures GentleRun(c, s, steps)
    decreases |steps|
  {
    hide Core, Gentle, Do, Init, Timely, MeetsStale;
    if steps != [] {
      var front := steps[..|steps| - 1];
      SafeIsGentle(c, s, front);
      RunKeepsCore(c, s, front);
      StaleBreakIsGentle(c, Exec(c, s, front).value, steps[|steps| - 1]);
    }
  }

  /** The one-step break is the two calls with nothing in between. */
  lemma {:induction false} OneStepIsTwoCalls<S>(c: Config<S>, s: State<S>, p: nat)
    requires p in s.procs && s.procs[p].pc == Exists
    ensures var saw := DoAcquire(c, s, p, Stat(true));
            && saw.Some? && p in saw.value.procs
            && DoAcquire(c, s, p, CheckAndBreak(true))
               == if saw.value.procs[p].pc == SawStale then DoAcquire(c, saw.value, p, RemoveStale(true)) else saw
  {
    hide LockPath;
    var saw := DoAcquire(c, s, p, Stat(true)).value;
    if saw.procs[p].pc == SawStale {
      assert saw.procs[p := saw.procs[p].(pc := Waiting, breaks := saw.procs[p].breaks + 1)]
          == s.procs[p := s.procs[p].(pc := Waiting, breaks := s.procs[p].breaks + 1)];
    }
  }

  // ---------- crash atomicity, for every run ----------

  /** A finished temporary file holds its encoding, a synced one for good, and so does the store. */
  ghost predicate FilesOk<S>(c: Config<S>, s: State<S>) {
    && (forall p :: p in s.procs ==> TempOk(c, s, p))
    && (c.store in s.fs ==> s.fs[c.store].synced)
  }

  ghost predicate TempOk<S>(c: Config<S>, s: State<S>, p: nat)
    requires p in s.procs
  {
    var temp := TempPath(c.store, p);
    match s.procs[p].pc
    case TempWritten(t) => temp in s.fs && s.fs[temp].data == c.encode(t)
    case TempSynced(t) => temp in s.fs && s.fs[temp].data == c.encode(t) && s.fs[temp].synced
    case _ => true
  }

  ghost predicate IsEncoding<S(!new)>(c: Config<S>, data: string) {
    exists v: S :: data == c.encode(v)
  }

  /** The store file is the initial file or some committed value, complete and synced. */
  ghost predicate StoreFileIntact<S(!new)>(c: Config<S>, before: Fs, after: Fs) {
    c.store in after ==>
      || (c.store in before && after[c.store] == before[c.store])
      || (after[c.store].synced && IsEncoding(c, after[c.store].data))
  }

  lemma {:induction false} RenamedStore<S(!new)>(c: Config<S>, s: State<S>, p: nat, t: State<S>)
    requires p in s.procs && p in c.mutations && DoWork(c, s, p, RenameTemp) == Some(t)
    requires TempOk(c, s, p)
    ensures c.store in t.fs && t.fs[c.store].synced && IsEncoding(c, t.fs[c.store].data)
  {
    hide LockPath, TempPath, PidLine, Current;
    assert t.fs[c.store].data == c.encode(s.procs[p].pc.s);
  }

  /** Only a rename changes the store file, and it installs a complete encoding. */
  lemma {:induction false} OnlyRenameChangesStore<S(!new)>(c: Config<S>, s: State<S>, step: Step, t: State<S>)
    requires FilesOk(c, s) && Do(c, s, step) == Some(t)
    ensures SameStoreFile(c, s, t)
         || (c.store in t.fs && t.fs[c.store].synced && IsEncoding(c, t.fs[c.store].data))
  {
    if step.Work? && step.h.RenameTemp? {
      assert TempOk(c, s, step.p);
      hide TempOk;
      RenamedStore(c, s, step.p, t);
    } else {
      StepLeavesStore(c, s, step, t);
    }
  }

  ghost predicate SameFile(s: Fs, t: Fs, path: Path) {
    (path in t <==> path in s) && (path in s ==> t[path] == s[path])
  }

  /** Only process `p` changed, and this file did not. */
  ghost predicate Spared<S>(s: State<S>, t: State<S>, p: nat, path: Path) {
    && SameFile(s.fs, t.fs, path) && t.procs.Keys == s.procs.Keys
    && forall q :: q in s.procs && q != p ==> t.procs[q] == s.procs[q]
  }

  lemma {:induction false} AcquireFootprint<S>(c: Config<S>, s: State<S>, p: nat, a: AcquireStep, t: State<S>,
                                               path: Path)
    requires p in s.procs && DoAcquire(c, s, p, a) == Some(t) && path != LockPath(c.store)
    ensures Spared(s, t, p, path)
  {
    hide LockPath, PidLine, IsStale;
  }

  lemma {:induction false} WorkFootprint<S>(c: Config<S>, s: State<S>, p: nat, h: HolderStep, t: State<S>, path: Path)
    requires p in s.procs && p in c.mutations && DoWork(c, s, p, h) == Some(t)
    requires path != LockPath(c.store) && path != c.store && path != TempPath(c.store, p)
    ensures Spared(s, t, p, path)
  {
    hide LockPath, TempPath, Current;
  }

  lemma {:induction false} FaultFootprint<S>(c: Config<S>, s: State<S>, p: nat, f: FaultStep, t: State<S>, path: Path)
    requires p in s.procs && DoFault(c, s, p, f) == Some(t) && path != TempPath(c.store, p)
    ensures Spared(s, t, p, path)
  {
    hide TempPath;
  }

  /** A process writes only the lock file, its temporary file and the store. */
  lemma {:induction false} StepFootprint<S>(c: Config<S>, s: State<S>, step: Step, t: State<S>, path: Path)
    requires Do(c, s, step) == Some(t) && (step.Acquire? || step.Work? || step.Fault?)
    requires path != LockPath(c.store) && path != c.store && path != TempPath(c.store, step.p)
    ensures Spared(s, t, step.p, path)
  {
    hide DoAcquire, DoWork, DoFault, LockPath, TempPath, Spared;
    match step
    case Acquire(p, a) => AcquireFootprint(c, s, p, a, t, path);
    case Work(p, h) => WorkFootprint(c, s, p, h, t, path);
    case Fault(p, f) => FaultFootprint(c, s, p, f, t, path);
  }

  /** No step touches the temporary file of another process. */
  lemma {:induction false} OtherTempOk<S>(c: Config<S>, s: State<S>, step: Step, t: State<S>, q: nat)
    requires Do(c, s, step) == Some(t) && !step.PowerLoss? && (step.Tick? || step.p != q)
    requires q in s.procs && TempOk(c, s, q)
    ensures q in t.procs && TempOk(c, t, q)
  {
    if !step.Tick? {
      PathsDiffer(c.store, step.p, q);
      PathsDiffer(c.store, q, step.p);
      StepFootprint(c, s, step, t, TempPath(c.store, q));
      hide Do, LockPath, TempPath;
    }
  }

  lemma {:induction false} OwnTempOk<S>(c: Config<S>, s: State<S>, step: Step, t: State<S>)
    requires Do(c, s, step) == Some(t) && !step.PowerLoss? && !step.Tick?
    requires step.p in s.procs && TempOk(c, s, step.p)
    ensures step.p in t.procs && TempOk(c, t, step.p)
  {
    hide LockPath, TempPath, PidLine, Current, IsStale;
  }

  lemma {:induction false} StepKeepsFiles<S(!new)>(c: Config<S>, s: State<S>, step: Step, t: State<S>)
    requires FilesOk(c, s) && Do(c, s, step) == Some(t)
    ensures FilesOk(c, t)
  {
    OnlyRenameChangesStore(c, s, step, t);
    forall q | q in t.procs
      ensures TempOk(c, t, q)
    {
      if step.PowerLoss? {
        assert !Live(t.procs[q].pc);
      } else {
        SameProcesses(c, s, step, t);
        assert TempOk(c, s, q);
        hide Do, TempOk;
        if step.Tick? || step.p != q {
          OtherTempOk(c, s, step, t, q);
        } else {
          OwnTempOk(c, s, step, t);
        }
      }
    }
  }

  lemma {:induction false} SameProcesses<S>(c: Config<S>, s: State<S>, step: Step, t: State<S>)
    requires Do(c, s, step) == Some(t)
    ensures t.procs.Keys == s.procs.Keys
  {
    hide LockPath, TempPath, PidLine, Current, IsStale;
  }

  lemma {:induction false} RunKeepsFiles<S(!new)>(c: Config<S>, s: State<S>, steps: seq<Step>)
    requires Init(c, s) && Exec(c, s, steps).Some?
    ensures FilesOk(c, Exec(c, s, steps).value)
    decreases |steps|
  {
    hide Do;
    if steps != [] {
      var front := steps[..|steps| - 1];
      RunKeepsFiles(c, s, front);
      hide FilesOk, Init;
      StepKeepsFiles(c, Exec(c, s, front).value, steps[|steps| - 1], Exec(c, s, steps).value);
    }
  }

  /** Crash atomicity: at every point of every run, power losses included, with slow holders and broken locks, the store
      file is the initial file or the complete encoding of a committed store. */
  lemma {:induction false} StoreIsNeverTorn<S(!new)>(c: Config<S>, s: State<S>, steps: seq<Step>)
    requires Init(c, s) && Exec(c, s, steps).Some?
    ensures StoreFileIntact(c, s.fs, Exec(c, s, steps).value.fs)
    decreases |steps|
  {
    hide Do;
    if steps != [] {
      var front := steps[..|steps| - 1];
      StoreIsNeverTorn(c, s, front);
      RunKeepsFiles(c, s, front);
      hide FilesOk, Init;
      OnlyRenameChangesStore(c, Exec(c, s, front).value, steps[|steps| - 1], Exec(c, s, steps).value);
    }
  }
}
