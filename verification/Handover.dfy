/** Letting go of the lock: what a drop does to the files, who can go in afterwards, and whole updates from the first
    call to the last. */
module Handover {
  import opened FileSystem
  import opened LostUpdate
  import opened ProtocolSafety
  import opened StoreProtocol
  import opened Wrappers

  // ---------- the drop ----------

  /** A drop whose unlink works removes the lock file and no other; one whose unlink fails changes no file. Either way
      the update is over with the outcome it had. */
  lemma {:induction false} DropEffect<S>(c: Config<S>, s: State<S>, p: nat, works: bool)
    requires p in s.procs && p in c.mutations && s.procs[p].pc.Releasing?
    ensures var end := Exec(c, s, [Work(p, Drop(works))]);
            && end.Some?
            && (works ==> LockPath(c.store) !in end.value.fs)
            && (forall path :: path != LockPath(c.store) ==> SameFile(s.fs, end.value.fs, path))
            && (!works ==> end.value.fs == s.fs)
            && end.value.procs == s.procs[p := s.procs[p].(pc := Done(s.procs[p].pc.r))]
            && end.value.clock == s.clock && end.value.log == s.log && end.value.acquired == s.acquired
  {
    ExecOne(c, s, Work(p, Drop(works)));
    hide Exec, LockPath, TempPath, Current;
  }

  /** `create_new`: a waiting process whose sleep is over goes in if there is no lock file, and else finds it there. */
  lemma {:induction false} TryCreateEffect<S>(c: Config<S>, s: State<S>, q: nat)
    requires q in s.procs && s.procs[q].pc == Waiting && s.procs[q].wake <= s.clock
    ensures var end := Exec(c, s, [Acquire(q, TryCreate)]);
            && end.Some?
            && if LockPath(c.store) in s.fs then end.value == SetPc(s, q, Exists)
               else end.value == s.(fs := s.fs[LockPath(c.store) := File(PidLine(q), false, s.clock)],
                                    procs := s.procs[q := s.procs[q].(pc := Locked, since := s.clock)],
                                    acquired := s.acquired + [q])
  {
    ExecOne(c, s, Acquire(q, TryCreate));
    hide Exec, LockPath, PidLine;
  }

  /** While somebody is inside, a waiting process cannot go in. */
  lemma {:induction false} LockedOut<S>(c: Config<S>, s: State<S>, steps: seq<Step>, p: nat, q: nat)
    requires GentleRun(c, s, steps)
    requires var end := Exec(c, s, steps).value;
             InCs(end, p) && q in end.procs && end.procs[q].pc == Waiting && end.procs[q].wake <= end.clock
    ensures var end := Exec(c, s, steps).value;
            Exec(c, s, steps + [Acquire(q, TryCreate)]) == Some(SetPc(end, q, Exists))
  {
    var end := Exec(c, s, steps).value;
    RunKeepsCore(c, s, steps);
    CoreGives(c, end, p);
    hide Exec, Core, GentleRun, LockPath, PidLine;
    TryCreateEffect(c, end, q);
    ExecAppend(c, s, steps, [Acquire(q, TryCreate)]);
  }

  /** The run that ends with `p` letting go and `q` trying to go in. */
  function HandoverSteps(p: nat, works: bool, q: nat): seq<Step> {
    [Work(p, Drop(works)), Acquire(q, TryCreate)]
  }

  /** Progress: at the end of a gentle run, once the releasing holder has unlinked its lock file, a waiting process
      whose sleep is over is inside after its next attempt, alone, with its own lock file; all other files are as they
      were. If the unlink failed it meets the lock file of the process that has finished. */
  lemma {:induction false} NextGoesIn<S>(c: Config<S>, s: State<S>, steps: seq<Step>, p: nat, works: bool, q: nat)
    requires GentleRun(c, s, steps)
    requires var end := Exec(c, s, steps).value;
             && p in end.procs && end.procs[p].pc.Releasing?
             && q in end.procs && end.procs[q].pc == Waiting && end.procs[q].wake <= end.clock
    ensures GentleRun(c, s, steps + HandoverSteps(p, works, q))
    ensures var end := Exec(c, s, steps).value;
            var after := Exec(c, s, steps + HandoverSteps(p, works, q)).value;
            var lock := LockPath(c.store);
            && p in after.procs && after.procs[p].pc == Done(end.procs[p].pc.r)
            && q in after.procs && after.procs[q].pc == (if works then Locked else Exists)
            && lock in end.fs && lock in after.fs
            && (if works then after.fs[lock] == File(PidLine(q), false, end.clock)
                else after.fs[lock] == end.fs[lock] && after.fs[lock].data == PidLine(p))
            && (forall path :: path != lock ==> SameFile(end.fs, after.fs, path))
            && (forall r :: InCs(after, r) <==> works && r == q)
  {
    assert Exec(c, s, steps).Some?;
    hide *;
    var end := Exec(c, s, steps).value;
    RunKeepsCore(c, s, steps);
    EndOfRelease(c, end, p);
    HandoverEffect(c, end, p, works, q);
    ExecAppend(c, s, steps, HandoverSteps(p, works, q));
    ExecAppend(c, s, steps, [Work(p, Drop(works))]);
    DropEffect(c, end, p, works);
    GentleMore(c, s, steps, Work(p, Drop(works)));
    assert steps + [Work(p, Drop(works))] + [Acquire(q, TryCreate)] == steps + HandoverSteps(p, works, q) by {
      TwoSteps(p, works, q);
    }
    GentleMore(c, s, steps + [Work(p, Drop(works))], Acquire(q, TryCreate));
  }

  lemma {:induction false} TwoSteps(p: nat, works: bool, q: nat)
    ensures HandoverSteps(p, works, q) == [Work(p, Drop(works))] + [Acquire(q, TryCreate)]
  {
  }

  /** What the invariant says of a process about to drop the lock. */
  lemma {:induction false} EndOfRelease<S>(c: Config<S>, s: State<S>, p: nat)
    requires Core(c, s) && p in s.procs && s.procs[p].pc.Releasing?
    ensures s.procs.Keys == c.mutations.Keys
    ensures LockPath(c.store) in s.fs && s.fs[LockPath(c.store)].data == PidLine(p)
    ensures forall r :: InCs(s, r) <==> r == p
  {
    CoreGives(c, s, p);
    hide LockPath, PidLine, WorkOk;
    forall r | InCs(s, r)
      ensures r == p
    {
      OnlyOneHolder(c, s, r, p);
    }
  }

  lemma {:induction false} HandoverEffect<S>(c: Config<S>, s: State<S>, p: nat, works: bool, q: nat)
    requires p in s.procs && p in c.mutations && s.procs[p].pc.Releasing?
    requires q in s.procs && s.procs[q].pc == Waiting && s.procs[q].wake <= s.clock
    requires LockPath(c.store) in s.fs && forall r :: InCs(s, r) <==> r == p
    ensures Exec(c, s, HandoverSteps(p, works, q)).Some?
    ensures var after := Exec(c, s, HandoverSteps(p, works, q)).value;
            var lock := LockPath(c.store);
            && p in after.procs && after.procs[p].pc == Done(s.procs[p].pc.r)
            && q in after.procs && after.procs[q].pc == (if works then Locked else Exists)
            && lock in after.fs
            && after.fs[lock] == (if works then File(PidLine(q), false, s.clock) else s.fs[lock])
            && (forall path :: path != lock ==> SameFile(s.fs, after.fs, path))
            && (forall r :: InCs(after, r) <==> works && r == q)
  {
    DropEffect(c, s, p, works);
    var mid := Exec(c, s, [Work(p, Drop(works))]).value;
    hide Exec, PidLine, LockPath, Do;
    TryCreateEffect(c, mid, q);
    ExecAppend(c, s, [Work(p, Drop(works))], [Acquire(q, TryCreate)]);
    TwoSteps(p, works, q);
    var after := Exec(c, s, HandoverSteps(p, works, q)).value;
    forall r
      ensures InCs(after, r) <==> works && r == q
    {
      assert InCs(s, r) <==> r == p;
      assert r in after.procs && r != p && r != q ==> after.procs[r] == s.procs[r];
    }
  }

  /** A gentle run stays gentle with one more step that is no break. */
  lemma {:induction false} GentleMore<S>(c: Config<S>, s: State<S>, steps: seq<Step>, step: Step)
    requires GentleRun(c, s, steps) && Exec(c, s, steps + [step]).Some?
    requires step.Acquire? ==> step.a.TryCreate?
    ensures GentleRun(c, s, steps + [step])
  {
    hide Exec, Do, LockPath, Init;
    var more := steps + [step];
    assert more[..|more| - 1] == steps;
    assert !BreaksLock(c, Exec(c, s, steps).value, step);
  }

  // ---------- a lock file left behind ----------

  /** A working check removes the lock file exactly when it is sixty seconds old; nothing else changes on disk. */
  lemma {:induction false} CheckEffect<S>(c: Config<S>, s: State<S>, q: nat, works: bool)
    requires q in s.procs && s.procs[q].pc == Exists && LockPath(c.store) in s.fs
    ensures var end := Exec(c, s, [Acquire(q, CheckAndBreak(works))]);
            && end.Some? && q in end.value.procs && end.value.clock == s.clock
            && end.value.procs[q].wake == s.procs[q].wake
            && (LockPath(c.store) !in end.value.fs <==> works && s.clock >= s.fs[LockPath(c.store)].mtime + 60_000)
            && (LockPath(c.store) in end.value.fs ==> end.value.fs == s.fs && end.value.procs[q].pc == NotBroken)
            && (LockPath(c.store) !in end.value.fs ==> end.value.procs[q].pc == Waiting)
            && (forall path :: path != LockPath(c.store) ==> SameFile(s.fs, end.value.fs, path))
  {
    ExecOne(c, s, Acquire(q, CheckAndBreak(works)));
    hide Exec, LockPath;
  }

  /** The second call of a break removes whatever lock file is there, old or new. */
  lemma {:induction false} RemoveEffect<S>(c: Config<S>, s: State<S>, q: nat, works: bool)
    requires q in s.procs && s.procs[q].pc == SawStale
    ensures var end := Exec(c, s, [Acquire(q, RemoveStale(works))]);
            && end.Some? && q in end.value.procs
            && (end.value.procs[q].pc == Waiting <==> works && LockPath(c.store) in s.fs)
            && (works ==> LockPath(c.store) !in end.value.fs)
            && (!works ==> end.value.fs == s.fs && end.value.procs[q].pc == NotBroken)
            && (forall path :: path != LockPath(c.store) ==> SameFile(s.fs, end.value.fs, path))
  {
    ExecOne(c, s, Acquire(q, RemoveStale(works)));
    hide Exec, LockPath;
  }

  /** A process that broke nothing gives up ten seconds after it came, and else sleeps for ten milliseconds. */
  lemma {:induction false} DeadlineEffect<S>(c: Config<S>, s: State<S>, q: nat)
    requires q in s.procs && s.procs[q].pc == NotBroken
    ensures var end := Exec(c, s, [Acquire(q, CheckDeadline)]);
            && end.Some? && q in end.value.procs && end.value.fs == s.fs
            && (end.value.procs[q].pc == Done(TimedOut) <==> s.clock >= s.procs[q].start + 10_000)
            && (end.value.procs[q].pc != Done(TimedOut) ==>
                  end.value.procs[q].pc == Waiting && end.value.procs[q].wake == s.clock + 10)
  {
    ExecOne(c, s, Acquire(q, CheckDeadline));
    hide Exec, LockPath;
  }

  /** Where a call can fail, and what is left then: a waiting process gives up; a holder lets go with an I/O error, a
      failed write may leave anything in the temporary file, and a failed rename removes it. */
  lemma {:induction false} FailEffect<S>(c: Config<S>, s: State<S>, p: nat, junk: string)
    requires p in s.procs
    ensures var t := DoFault(c, s, p, Fail(junk));
            var (pc, temp) := (s.procs[p].pc, TempPath(c.store, p));
            && (t.Some? <==> (pc.Waiting? && s.procs[p].wake <= s.clock) || pc.Locked? || pc.Mutated? || pc.TempCreated?
                             || pc.TempWritten? || pc.TempSynced?)
            && (t.Some? ==>
                  && p in t.value.procs
                  && t.value.procs[p].pc == (if pc.Waiting? then Done(IoError) else Releasing(IoError))
                  && (pc.Waiting? || pc.Locked? || pc.Mutated? ==> t.value.fs == s.fs)
                  && (pc.TempCreated? || pc.TempWritten? ==>
                        t.value.fs == s.fs[temp := File(junk, false, s.clock)])
                  && (pc.TempSynced? ==> t.value.fs == s.fs - {temp}))
  {
    hide TempPath;
  }

  /** A process can crash anywhere before its end; that changes no file, so the lock file of a holder stays. */
  lemma {:induction false} CrashEffect<S>(c: Config<S>, s: State<S>, p: nat)
    requires p in s.procs
    ensures var t := DoFault(c, s, p, Crash);
            && (t.Some? <==> !s.procs[p].pc.Done? && !s.procs[p].pc.Crashed?)
            && (t.Some? ==> t.value == s.(procs := s.procs[p := s.procs[p].(pc := Crashed(p in s.log))]))
  {
    hide TempPath;
  }

  /** Recovery: sixty seconds after it was created, a lock file whose owner will never remove it no longer keeps a
      waiting process out; three calls later that process is inside. */
  lemma {:induction false} CrashDoesNotWedge<S>(c: Config<S>, s: State<S>, q: nat)
    requires q in s.procs && s.procs[q].pc == Waiting && s.procs[q].wake <= s.clock
    requires LockPath(c.store) in s.fs && s.clock >= s.fs[LockPath(c.store)].mtime + 60_000
    ensures var again := [Acquire(q, CheckAndBreak(true))] + [Acquire(q, TryCreate)];
            var end := Exec(c, s, [Acquire(q, TryCreate)] + again);
            && end.Some? && q in end.value.procs && end.value.procs[q].pc == Locked
            && LockPath(c.store) in end.value.fs
            && end.value.fs[LockPath(c.store)] == File(PidLine(q), false, s.clock)
            && (forall path :: path != LockPath(c.store) ==> SameFile(s.fs, end.value.fs, path))
  {
    TryCreateEffect(c, s, q);
    var s1 := SetPc(s, q, Exists);
    CheckEffect(c, s1, q, true);
    var s2 := Exec(c, s1, [Acquire(q, CheckAndBreak(true))]).value;
    hide Exec, LockPath, PidLine;
    TryCreateEffect(c, s2, q);
    ExecAppend(c, s1, [Acquire(q, CheckAndBreak(true))], [Acquire(q, TryCreate)]);
    ExecAppend(c, s, [Acquire(q, TryCreate)], [Acquire(q, CheckAndBreak(true))] + [Acquire(q, TryCreate)]);
  }

  // ---------- the temporary file ----------

  /** The temporary file is created empty and written whole, and only the sync makes it safe from a power loss: until
      then it can come back with any data. */
  lemma {:induction false} TempIsUnsafeUntilSynced<S>(c: Config<S>, s: State<S>, p: nat, h: HolderStep, junk: File)
    requires p in s.procs && p in c.mutations && TempPath(c.store, p) in s.fs
    requires (h.CreateTemp? && s.procs[p].pc.Mutated? && !c.createNew)
          || (h.WriteTemp? && s.procs[p].pc.TempCreated?)
          || (h.SyncTemp? && s.procs[p].pc.TempWritten?)
    ensures var end := Exec(c, s, [Work(p, h)]);
            var temp := TempPath(c.store, p);
            && end.Some? && temp in end.value.fs
            && end.value.fs[temp].data == (if h.CreateTemp? then ""
                                           else if h.WriteTemp? then c.encode(s.procs[p].pc.s)
                                           else s.fs[temp].data)
            && (Survives(end.value.fs, end.value.fs[temp := junk])
                <==> !h.SyncTemp? || junk == end.value.fs[temp])
            && (forall path :: path != temp ==> SameFile(s.fs, end.value.fs, path))
  {
    ExecOne(c, s, Work(p, h));
    hide Exec, TempPath, LockPath, Current;
    OnlySyncedIsSafe(Exec(c, s, [Work(p, h)]).value.fs, TempPath(c.store, p), junk);
  }

  // ---------- whole updates ----------

  /** Up to the mutation. */
  function BeginSteps(p: nat): seq<Step> {
    [Acquire(p, Enter), Acquire(p, TryCreate), Work(p, Load), Work(p, Mutate)]
  }

  /** The state after `p` has come, taken the lock, loaded, and its mutation has led to `pc`. */
  ghost function Begun<S>(c: Config<S>, s: State<S>, p: nat, pc: Pc<S>): State<S>
    requires p in s.procs
  {
    s.(fs := s.fs[LockPath(c.store) := File(PidLine(p), false, s.clock)],
       procs := s.procs[p := s.procs[p].(pc := pc, start := s.clock, since := s.clock, wake := s.clock)],
       acquired := s.acquired + [p])
  }

  lemma {:induction false} BeginRuns<S>(c: Config<S>, s: State<S>, p: nat, w: S)
    requires p in s.procs && p in c.mutations && s.procs[p].pc == Start && LockPath(c.store) !in s.fs
    requires Current(c, s.fs) == Some(w)
    ensures var t := c.mutations[p](w);
            Exec(c, s, BeginSteps(p))
            == Some(Begun(c, s, p, if t.None? then Releasing(Rejected) else Mutated(t.value)))
  {
    var s1 := Do(c, s, Acquire(p, Enter)).value;
    var s2 := Do(c, s1, Acquire(p, TryCreate)).value;
    PathsDiffer(c.store, p, p);
    assert Current(c, s2.fs) == Some(w);
    hide LockPath, PidLine, Current;
    var s3 := Do(c, s2, Work(p, Load)).value;
    assert s3.procs[p].pc == Loaded(w);
    var s4 := Do(c, s3, Work(p, Mutate));
    var t := c.mutations[p](w);
    var want := Begun(c, s, p, if t.None? then Releasing(Rejected) else Mutated(t.value));
    assert s4.value.procs == want.procs;
    assert s4 == Some(want);
    hide Do;
    ExecFour(c, s, Acquire(p, Enter), Acquire(p, TryCreate), Work(p, Load), Work(p, Mutate));
  }

  /** An undisturbed update commits: it ends with the encoding of the mutated store on disk, synced, with neither lock
      nor temporary file left, and every other file as it was. */
  lemma {:induction false} UpdateCommits<S>(c: Config<S>, s: State<S>, p: nat, w: S, x: S)
    requires p in s.procs && p in c.mutations && s.procs[p].pc == Start && LockPath(c.store) !in s.fs
    requires Current(c, s.fs) == Some(w) && c.mutations[p](w) == Some(x)
    requires c.createNew ==> TempPath(c.store, p) !in s.fs
    ensures var end := Exec(c, s, BeginSteps(p) + (CommitSteps(p) + [Work(p, Drop(true))]));
            && end.Some? && p in end.value.procs
            && end.value.procs[p].pc == Done(Committed)
            && end.value.log == s.log + [p]
            && c.store in end.value.fs && end.value.fs[c.store] == File(c.encode(x), true, s.clock)
            && LockPath(c.store) !in end.value.fs && TempPath(c.store, p) !in end.value.fs
            && forall path :: path != c.store && path != LockPath(c.store) && path != TempPath(c.store, p) ==>
                 SameFile(s.fs, end.value.fs, path)
  {
    PathsDiffer(c.store, p, p);
    hide *;
    BeginRuns(c, s, p, w);
    var s1 := Begun(c, s, p, Mutated(x));
    BeginFiles(c, s, p, x);
    CommitRuns(c, s1, p, x);
    var s2 := Written(c, s1, p, x);
    DropEffect(c, s2, p, true);
    var end := Exec(c, s2, [Work(p, Drop(true))]).value;
    ExecAppend(c, s1, CommitSteps(p), [Work(p, Drop(true))]);
    ExecAppend(c, s, BeginSteps(p), CommitSteps(p) + [Work(p, Drop(true))]);
    forall path | path != c.store && path != LockPath(c.store) && path != TempPath(c.store, p)
      ensures SameFile(s.fs, end.fs, path)
    {
      SameFileTwice(s.fs, s2.fs, end.fs, path);
    }
    SameFileGives(s2.fs, end.fs, c.store);
    SameFileGives(s2.fs, end.fs, TempPath(c.store, p));
  }

  lemma {:induction false} SameFileGives(s: Fs, t: Fs, path: Path)
    requires SameFile(s, t, path)
    ensures (path in t <==> path in s) && (path in s ==> t[path] == s[path])
  {
  }

  lemma {:induction false} SameFileTwice(s: Fs, t: Fs, u: Fs, path: Path)
    requires SameFile(s, t, path) && SameFile(t, u, path)
    ensures SameFile(s, u, path)
  {
  }

  /** The first update of a store that has no file yet starts from the empty store; any other from what the file
      parses to. */
  lemma {:induction false} UpdateStartsFrom<S>(c: Config<S>, s: State<S>, p: nat, x: S)
    requires p in s.procs && p in c.mutations && s.procs[p].pc == Start && LockPath(c.store) !in s.fs
    requires c.store !in s.fs || c.decode(s.fs[c.store].data).Some?
    requires c.mutations[p](if c.store in s.fs then c.decode(s.fs[c.store].data).value else c.empty) == Some(x)
    requires c.createNew ==> TempPath(c.store, p) !in s.fs
    ensures var end := Exec(c, s, BeginSteps(p) + (CommitSteps(p) + [Work(p, Drop(true))]));
            && end.Some? && p in end.value.procs && end.value.procs[p].pc == Done(Committed)
            && c.store in end.value.fs && end.value.fs[c.store].data == c.encode(x)
  {
    var w := if c.store in s.fs then c.decode(s.fs[c.store].data).value else c.empty;
    assert Current(c, s.fs) == Some(w);
    hide *;
    UpdateCommits(c, s, p, w, x);
  }

  lemma {:induction false} BeginFiles<S>(c: Config<S>, s: State<S>, p: nat, x: S)
    requires p in s.procs
    ensures var t := Begun(c, s, p, Mutated(x)); var u := Written(c, t, p, x);
            && p in t.procs && t.procs[p].pc == Mutated(x)
            && (TempPath(c.store, p) !in s.fs ==> TempPath(c.store, p) !in t.fs)
            && p in u.procs && u.procs[p].pc == Releasing(Committed) && u.log == s.log + [p] && u.clock == s.clock
            && c.store in u.fs && u.fs[c.store] == File(c.encode(x), true, s.clock) && TempPath(c.store, p) !in u.fs
            && forall path :: path != c.store && path != LockPath(c.store) && path != TempPath(c.store, p) ==>
                 SameFile(s.fs, u.fs, path)
  {
    PathsDiffer(c.store, p, p);
    hide LockPath, TempPath, PidLine;
  }

  /** An undisturbed update whose mutation fails leaves all files as they were. */
  lemma {:induction false} RejectedChangesNothing<S>(c: Config<S>, s: State<S>, p: nat, w: S)
    requires p in s.procs && p in c.mutations && s.procs[p].pc == Start && LockPath(c.store) !in s.fs
    requires Current(c, s.fs) == Some(w) && c.mutations[p](w).None?
    ensures var end := Exec(c, s, BeginSteps(p) + [Work(p, Drop(true))]);
            && end.Some? && p in end.value.procs && end.value.procs[p].pc == Done(Rejected)
            && end.value.fs == s.fs && end.value.log == s.log
  {
    BeginRuns(c, s, p, w);
    var s1 := Begun(c, s, p, Releasing(Rejected));
    DropEffect(c, s1, p, true);
    hide LockPath, Exec, PidLine, Current;
    ExecAppend(c, s, BeginSteps(p), [Work(p, Drop(true))]);
  }

  /** Where temporary files are created exclusively, one left behind by a process of the same number makes the update
      fail, and it changes no file. */
  lemma {:induction false} LeftoverTempFails<S>(c: Config<S>, s: State<S>, p: nat, w: S, x: S)
    requires p in s.procs && p in c.mutations && s.procs[p].pc == Start && LockPath(c.store) !in s.fs
    requires Current(c, s.fs) == Some(w) && c.mutations[p](w) == Some(x)
    requires c.createNew && TempPath(c.store, p) in s.fs
    ensures var end := Exec(c, s, BeginSteps(p) + ([Work(p, CreateTemp)] + [Work(p, Drop(true))]));
            && end.Some? && p in end.value.procs && end.value.procs[p].pc == Done(IoError)
            && end.value.fs == s.fs && end.value.log == s.log
  {
    PathsDiffer(c.store, p, p);
    BeginRuns(c, s, p, w);
    var s1 := Begun(c, s, p, Mutated(x));
    hide LockPath, TempPath, Exec, PidLine, Current;
    ExecOne(c, s1, Work(p, CreateTemp));
    var s2 := SetPc(s1, p, Releasing(IoError));
    assert Do(c, s1, Work(p, CreateTemp)) == Some(s2);
    DropEffect(c, s2, p, true);
    ExecAppend(c, s1, [Work(p, CreateTemp)], [Work(p, Drop(true))]);
    ExecAppend(c, s, BeginSteps(p), [Work(p, CreateTemp)] + [Work(p, Drop(true))]);
  }

  lemma {:induction false} BrokenLoad<S>(c: Config<S>, s: State<S>, p: nat)
    requires p in s.procs && p in c.mutations && s.procs[p].pc == Start && LockPath(c.store) !in s.fs
    requires c.store in s.fs && c.decode(s.fs[c.store].data).None?
    ensures Exec(c, s, [Acquire(p, Enter), Acquire(p, TryCreate), Work(p, Load)])
         == Some(Begun(c, s, p, Releasing(Rejected)))
  {
    var s1 := Do(c, s, Acquire(p, Enter)).value;
    var s2 := Do(c, s1, Acquire(p, TryCreate)).value;
    PathsDiffer(c.store, p, p);
    assert Current(c, s2.fs).None?;
    hide LockPath, PidLine, TempPath, Current;
    var s3 := Do(c, s2, Work(p, Load));
    assert s3.value.procs == Begun(c, s, p, Releasing(Rejected)).procs;
    assert s3 == Some(Begun(c, s, p, Releasing(Rejected)));
    hide Do, Exec, Begun;
    ExecThree(c, s, Acquire(p, Enter), Acquire(p, TryCreate), Work(p, Load));
  }

  /** A store that does not parse makes the update fail before the mutation, and it changes no file. */
  lemma {:induction false} BrokenStoreFails<S>(c: Config<S>, s: State<S>, p: nat)
    requires p in s.procs && p in c.mutations && s.procs[p].pc == Start && LockPath(c.store) !in s.fs
    requires c.store in s.fs && c.decode(s.fs[c.store].data).None?
    ensures var end := Exec(c, s, [Acquire(p, Enter), Acquire(p, TryCreate), Work(p, Load)] + [Work(p, Drop(true))]);
            && end.Some? && p in end.value.procs && end.value.procs[p].pc == Done(Rejected)
            && end.value.fs == s.fs && end.value.log == s.log
  {
    BrokenLoad(c, s, p);
    var s1 := Begun(c, s, p, Releasing(Rejected));
    hide LockPath, Exec, PidLine, Current, Do;
    DropEffect(c, s1, p, true);
    ExecAppend(c, s, [Acquire(p, Enter), Acquire(p, TryCreate), Work(p, Load)], [Work(p, Drop(true))]);
  }
}
