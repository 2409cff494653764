/** Any number of processes running `update_store` on one store, each taking the lock, loading, mutating, writing a
    temporary file, renaming it over the store and dropping the lock; any of them may fail or crash at any step, and
    the power may go. */
module StoreProtocol {
  import opened FileSystem
  import opened Wrappers

  // ---------- constants of the lock module, in milliseconds ----------

  const ACQUIRE_TIMEOUT := 10_000
  const STALE_AFTER := 60_000
  const POLL_INTERVAL := 10

  // ---------- configuration ----------

  /** One store, its (de)serialisation, its value when the file is missing, one mutation per process, and whether
      temporary files are created exclusively (identities) or truncated (networks). */
  datatype Config<!S> = Config(store: Path, encode: S -> string, decode: string -> Option<S>, empty: S,
                               mutations: map<nat, S -> Option<S>>, createNew: bool)

  ghost predicate InversePair<S(!new)>(c: Config<S>) {
    forall s :: c.decode(c.encode(s)) == Some(s)
  }

  // ---------- states ----------

  datatype Outcome = Committed | Rejected | IoError | TimedOut

  datatype Pc<S> =
    | Start
    | Waiting              // in the acquire loop, about to create the lock file
    | Exists               // the create said AlreadyExists; about to break the lock if it is stale
    | SawStale             // between the two halves of a break that is not one step
    | NotBroken            // nothing was broken; about to look at the deadline
    | Locked               // holds the guard; about to load the store
    | Loaded(s: S)         // about to run the mutation
    | Mutated(s: S)        // about to create the temporary file
    | TempCreated(s: S)
    | TempWritten(s: S)
    | TempSynced(s: S)     // about to rename
    | Releasing(r: Outcome) // about to drop the guard
    | Done(r: Outcome)
    | Crashed(committed: bool)

  /** `start`: when acquire began; `since`: when the lock was obtained; `breaks`: stale locks it removed; `wake`: when
      its last sleep ends. */
  datatype Proc<S> = Proc(pc: Pc<S>, start: nat, since: nat, breaks: nat, wake: nat)

  /** `acquired` and `log` record who obtained the lock and whose rename took effect, in order. */
  datatype State<S> = State(fs: Fs, clock: nat, procs: map<nat, Proc<S>>, acquired: seq<nat>, log: seq<nat>)

  predicate Holds<S>(pc: Pc<S>) {
    pc.Locked? || pc.Loaded? || pc.Mutated? || pc.TempCreated? || pc.TempWritten? || pc.TempSynced? || pc.Releasing?
  }

  /** Process `p` is inside `with_lock`. */
  predicate InCs<S>(s: State<S>, p: nat) {
    p in s.procs && Holds(s.procs[p].pc)
  }

  predicate Live<S>(pc: Pc<S>) {
    !pc.Done? && !pc.Crashed?
  }

  // ---------- steps ----------

  datatype AcquireStep =
    | Enter
    | TryCreate
    | CheckAndBreak(works: bool)   // stat and remove as one step; `works` is false if either call fails
    | Stat(readable: bool)         // the two calls on their own
    | RemoveStale(works: bool)
    | CheckDeadline

  datatype HolderStep = Load | Mutate | CreateTemp | WriteTemp | SyncTemp | RenameTemp | Drop(works: bool)

  /** An I/O error in whatever call comes next (a failed write may leave junk), or a crash. */
  datatype FaultStep = Fail(junk: string) | Crash

  datatype Step =
    | Tick(ms: nat)
    | PowerLoss(fs: Fs)
    | Acquire(p: nat, a: AcquireStep)
    | Work(p: nat, h: HolderStep)
    | Fault(p: nat, f: FaultStep)

  /** `break_if_stale`'s test; a time stamp in the future is not stale. */
  predicate IsStale(clock: nat, mtime: nat) {
    mtime <= clock && clock - mtime >= STALE_AFTER
  }

  function SetPc<S>(s: State<S>, p: nat, pc: Pc<S>): State<S>
    requires p in s.procs
  {
    s.(procs := s.procs[p := s.procs[p].(pc := pc)])
  }

  /** The store's value on disk: the empty store if there is no file, None if it does not parse. */
  function Current<S>(c: Config<S>, fs: Fs): Option<S> {
    if c.store in fs then c.decode(fs[c.store].data) else Some(c.empty)
  }

  function Break<S>(c: Config<S>, s: State<S>, p: nat): State<S>
    requires p in s.procs
  {
    SetPc(s, p, Waiting).(fs := s.fs - {LockPath(c.store)},
                          procs := s.procs[p := s.procs[p].(pc := Waiting, breaks := s.procs[p].breaks + 1)])
  }

  /** Steps up to and including the one that obtains the lock. */
  function DoAcquire<S>(c: Config<S>, s: State<S>, p: nat, a: AcquireStep): Option<State<S>>
    requires p in s.procs
  {
    var proc := s.procs[p];
    var lock := LockPath(c.store);
    match a
    case Enter =>
      if proc.pc != Start then None
      else Some(s.(procs := s.procs[p := proc.(pc := Waiting, start := s.clock, wake := s.clock)]))
    case TryCreate =>
      if proc.pc != Waiting || s.clock < proc.wake then None
      else if lock in s.fs then Some(SetPc(s, p, Exists))
      else Some(s.(fs := s.fs[lock := File(PidLine(p), false, s.clock)],
                   procs := s.procs[p := proc.(pc := Locked, since := s.clock)],
                   acquired := s.acquired + [p]))
    case CheckAndBreak(works) =>
      if proc.pc != Exists then None
      else if works && lock in s.fs && IsStale(s.clock, s.fs[lock].mtime) then Some(Break(c, s, p))
      else Some(SetPc(s, p, NotBroken))
    case Stat(readable) =>
      if proc.pc != Exists then None
      else if readable && lock in s.fs && IsStale(s.clock, s.fs[lock].mtime) then Some(SetPc(s, p, SawStale))
      else Some(SetPc(s, p, NotBroken))
    case RemoveStale(works) =>
      if proc.pc != SawStale then None
      else if works && lock in s.fs then Some(Break(c, s, p))
      else Some(SetPc(s, p, NotBroken))
    case CheckDeadline =>
      if proc.pc != NotBroken then None
      else if s.clock >= proc.start + ACQUIRE_TIMEOUT then Some(SetPc(s, p, Done(TimedOut)))
      else Some(s.(procs := s.procs[p := proc.(pc := Waiting, wake := s.clock + POLL_INTERVAL)]))
  }

  /** Steps of the lock holder. */
  function DoWork<S>(c: Config<S>, s: State<S>, p: nat, h: HolderStep): Option<State<S>>
    requires p in s.procs && p in c.mutations
  {
    var pc := s.procs[p].pc;
    var temp := TempPath(c.store, p);
    match h
    case Load =>
      if pc != Locked then None
      else
        var current := Current(c, s.fs);
        Some(SetPc(s, p, if current.None? then Releasing(Rejected) else Loaded(current.value)))
    case Mutate =>
      if !pc.Loaded? then None
      else
        var t := c.mutations[p](pc.s);
        Some(SetPc(s, p, if t.None? then Releasing(Rejected) else Mutated(t.value)))
    case CreateTemp =>
      if !pc.Mutated? then None
      else if c.createNew && temp in s.fs then Some(SetPc(s, p, Releasing(IoError)))
      else Some(SetPc(s, p, TempCreated(pc.s)).(fs := s.fs[temp := File("", false, s.clock)]))
    case WriteTemp =>
      if !pc.TempCreated? then None
      else Some(SetPc(s, p, TempWritten(pc.s)).(fs := s.fs[temp := File(c.encode(pc.s), false, s.clock)]))
    case SyncTemp =>
      if !pc.TempWritten? || temp !in s.fs then None
      else Some(SetPc(s, p, TempSynced(pc.s)).(fs := s.fs[temp := s.fs[temp].(synced := true)]))
    case RenameTemp =>
      if !pc.TempSynced? || temp !in s.fs then None
      else Some(SetPc(s, p, Releasing(Committed)).(fs := (s.fs - {temp})[c.store := s.fs[temp]], log := s.log + [p]))
    case Drop(works) =>
      if !pc.Releasing? then None
      else Some(SetPc(s, p, Done(pc.r)).(fs := if works then s.fs - {LockPath(c.store)} else s.fs))
  }

  /** Errors and crashes. */
  function DoFault<S>(c: Config<S>, s: State<S>, p: nat, f: FaultStep): Option<State<S>>
    requires p in s.procs
  {
    var pc := s.procs[p].pc;
    var temp := TempPath(c.store, p);
    match f
    case Fail(junk) =>
      if pc.Waiting? then
        if s.clock < s.procs[p].wake then None else Some(SetPc(s, p, Done(IoError)))
      else if pc.Locked? || pc.Mutated? then Some(SetPc(s, p, Releasing(IoError)))
      else if pc.TempCreated? || pc.TempWritten? then
        Some(SetPc(s, p, Releasing(IoError)).(fs := s.fs[temp := File(junk, false, s.clock)]))
      else if pc.TempSynced? then Some(SetPc(s, p, Releasing(IoError)).(fs := s.fs - {temp}))
      else None
    case Crash =>
      if !Live(pc) then None else Some(SetPc(s, p, Crashed(p in s.log)))
  }

  /** A power loss stops every process. */
  function CrashAll<S>(procs: map<nat, Proc<S>>, log: seq<nat>): map<nat, Proc<S>> {
    map p | p in procs :: if Live(procs[p].pc) then procs[p].(pc := Crashed(p in log)) else procs[p]
  }

  /** One step of the system, or None if it is not enabled. */
  ghost function Do<S>(c: Config<S>, s: State<S>, step: Step): Option<State<S>> {
    match step
    case Tick(ms) => Some(s.(clock := s.clock + ms))
    case PowerLoss(fs) =>
      if Survives(s.fs, fs) then Some(s.(fs := fs, procs := CrashAll(s.procs, s.log))) else None
    case Acquire(p, a) => if p in s.procs then DoAcquire(c, s, p, a) else None
    case Work(p, h) => if p in s.procs && p in c.mutations then DoWork(c, s, p, h) else None
    case Fault(p, f) => if p in s.procs then DoFault(c, s, p, f) else None
  }

  /** A run: the state after all steps, or None if one of them was not enabled. */
  ghost function Exec<S>(c: Config<S>, s: State<S>, steps: seq<Step>): Option<State<S>>
    decreases |steps|
  {
    if steps == [] then Some(s)
    else
      var before := Exec(c, s, steps[..|steps| - 1]);
      if before.None? then None else Do(c, before.value, steps[|steps| - 1])
  }
}
