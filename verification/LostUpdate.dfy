/** What an ungentle break costs: the update of the process that broke the lock is lost. */
module LostUpdate {
  import opened FileSystem
  import opened StoreProtocol
  import opened ProtocolSafety
  import opened Wrappers

  lemma {:induction false} ExecOne<S>(c: Config<S>, s: State<S>, x: Step)
    ensures Exec(c, s, [x]) == Do(c, s, x)
  {
    hide Do;
    assert [x][..0] == [];
    assert Exec(c, s, []) == Some(s);
  }

  /** A run that goes on. */
  lemma {:induction false} ExecAppend<S>(c: Config<S>, s: State<S>, a: seq<Step>, b: seq<Step>)
    requires Exec(c, s, a).Some?
    ensures Exec(c, s, a + b) == Exec(c, Exec(c, s, a).value, b)
    decreases |b|
  {
    hide Do;
    if b == [] {
      assert a + b == a;
    } else {
      var front := b[..|b| - 1];
      assert (a + b)[..|a + b| - 1] == a + front;
      ExecAppend(c, s, a, front);
    }
  }

  lemma {:induction false} ExecCons<S>(c: Config<S>, s: State<S>, x: Step, more: seq<Step>)
    requires Do(c, s, x).Some?
    ensures Exec(c, s, [x] + more) == Exec(c, Do(c, s, x).value, more)
  {
    hide Do, Exec;
    ExecOne(c, s, x);
    ExecAppend(c, s, [x], more);
  }

  lemma {:induction false} ExecFour<S>(c: Config<S>, s: State<S>, x: Step, y: Step, z: Step, w: Step)
    requires Do(c, s, x).Some? && Do(c, Do(c, s, x).value, y).Some?
    requires Do(c, Do(c, Do(c, s, x).value, y).value, z).Some?
    ensures Exec(c, s, [x, y, z, w]) == Do(c, Do(c, Do(c, Do(c, s, x).value, y).value, z).value, w)
  {
    hide Do, Exec;
    var s1 := Do(c, s, x).value;
    var s2 := Do(c, s1, y).value;
    assert [x, y, z, w] == [x] + ([y] + ([z] + [w]));
    ExecCons(c, s, x, [y] + ([z] + [w]));
    ExecCons(c, s1, y, [z] + [w]);
    ExecCons(c, s2, z, [w]);
    ExecOne(c, Do(c, s2, z).value, w);
  }

  // ---------- the two halves of an update ----------

  function TakeSteps(p: nat, wake: nat): seq<Step> {
    [Tick(wake), Acquire(p, TryCreate), Work(p, Load), Work(p, Mutate)]
  }

  /** The state after `p` has woken, taken the lock, loaded and mutated. */
  ghost function Taken<S>(c: Config<S>, s: State<S>, p: nat, x: S): State<S>
    requires p in s.procs
  {
    var now := s.clock + s.procs[p].wake;
    s.(fs := s.fs[LockPath(c.store) := File(PidLine(p), false, now)], clock := now,
       procs := s.procs[p := s.procs[p].(pc := Mutated(x), since := now)], acquired := s.acquired + [p])
  }

  lemma {:induction false} TakeRuns<S>(c: Config<S>, s: State<S>, p: nat, w: S, x: S)
    requires p in s.procs && p in c.mutations && s.procs[p].pc == Waiting && LockPath(c.store) !in s.fs
    requires Current(c, s.fs) == Some(w) && c.mutations[p](w) == Some(x)
    ensures Exec(c, s, TakeSteps(p, s.procs[p].wake)) == Some(Taken(c, s, p, x))
  {
    var s1 := Do(c, s, Tick(s.procs[p].wake)).value;
    var s2 := Do(c, s1, Acquire(p, TryCreate)).value;
    PathsDiffer(c.store, p, p);
    assert Current(c, s2.fs) == Some(w);
    hide LockPath, PidLine, Current;
    var s3 := Do(c, s2, Work(p, Load)).value;
    assert s3.procs[p].pc == Loaded(w);
    var s4 := Do(c, s3, Work(p, Mutate));
    assert s4.value.procs == Taken(c, s, p, x).procs;
    assert s4 == Some(Taken(c, s, p, x));
    hide Do;
    ExecFour(c, s, Tick(s.procs[p].wake), Acquire(p, TryCreate), Work(p, Load), Work(p, Mutate));
  }

  function CommitSteps(p: nat): seq<Step> {
    [Work(p, CreateTemp), Work(p, WriteTemp), Work(p, SyncTemp), Work(p, RenameTemp)]
  }

  /** The state after `p` has written `x`. */
  ghost function Written<S>(c: Config<S>, s: State<S>, p: nat, x: S): State<S>
    requires p in s.procs
  {
    s.(fs := (s.fs - {TempPath(c.store, p)})[c.store := File(c.encode(x), true, s.clock)],
       procs := s.procs[p := s.procs[p].(pc := Releasing(Committed))], log := s.log + [p])
  }

  lemma {:induction false} CommitRuns<S>(c: Config<S>, s: State<S>, p: nat, x: S)
    requires p in s.procs && p in c.mutations && s.procs[p].pc == Mutated(x)
    requires c.createNew ==> TempPath(c.store, p) !in s.fs
    ensures Exec(c, s, CommitSteps(p)) == Some(Written(c, s, p, x))
  {
    hide TempPath, PidLine, Current, LockPath;
    var temp := TempPath(c.store, p);
    var s1 := Do(c, s, Work(p, CreateTemp)).value;
    var s2 := Do(c, s1, Work(p, WriteTemp)).value;
    var s3 := Do(c, s2, Work(p, SyncTemp)).value;
    assert s3.fs[temp] == File(c.encode(x), true, s.clock);
    var s4 := Do(c, s3, Work(p, RenameTemp));
    assert s4.value.fs == Written(c, s, p, x).fs;
    assert s4.value.procs == Written(c, s, p, x).procs;
    assert s4 == Some(Written(c, s, p, x));
    hide Do;
    ExecFour(c, s, Work(p, CreateTemp), Work(p, WriteTemp), Work(p, SyncTemp), Work(p, RenameTemp));
  }

  // ---------- the lost update ----------

  /** After the break: the breaker updates the store, and then the process whose lock it broke goes on. */
  function LosingSteps(p: nat, wake: nat, q: nat): seq<Step> {
    TakeSteps(p, wake) + (CommitSteps(p) + ([Work(q, Mutate)] + CommitSteps(q)))
  }

  lemma {:induction false} MutateRuns<S>(c: Config<S>, s: State<S>, q: nat, v: S, y: S)
    requires q in s.procs && q in c.mutations && s.procs[q].pc == Loaded(v) && c.mutations[q](v) == Some(y)
    ensures Do(c, s, Work(q, Mutate)) == Some(SetPc(s, q, Mutated(y)))
  {
    hide LockPath, TempPath, Current;
  }

  lemma {:induction false} AfterBreak<S>(c: Config<S>, s: State<S>, step: Step, q: nat)
    requires BreaksLock(c, s, step) && InCs(s, q)
    ensures var t := Do(c, s, step).value;
            && step.p in s.procs && q != step.p && t.procs.Keys == s.procs.Keys && t.log == s.log
            && t.procs[step.p].pc == Waiting && t.procs[q] == s.procs[q]
            && t.fs == s.fs - {LockPath(c.store)} && Current(c, t.fs) == Current(c, s.fs)
  {
    var t := Do(c, s, step).value;
    AcquireEffect(c, s, step.p, step.a, t);
    AcquireLeavesStore(c, s, step.p, step.a, t);
    hide DoAcquire, LockPath, PidLine;
  }

  lemma {:induction false} TempsStayFree<S>(c: Config<S>, s: State<S>, t: State<S>, p: nat, q: nat, x: S)
    requires p in t.procs && t.fs == s.fs - {LockPath(c.store)} && p != q
    requires TempPath(c.store, p) !in s.fs && TempPath(c.store, q) !in s.fs
    ensures TempPath(c.store, p) !in Taken(c, t, p, x).fs
    ensures TempPath(c.store, q) !in Written(c, Taken(c, t, p, x), p, x).fs
  {
    PathsDiffer(c.store, p, q);
    PathsDiffer(c.store, q, p);
    hide LockPath, TempPath, PidLine;
  }

  /** Wherever a break is not gentle because somebody has loaded the store, both processes can commit, and the store is
      then what the second made of the store it had loaded before the first, not what it makes of the first one's: the
      first update is lost. */
  lemma {:induction false} UngentleBreakLosesUpdate<S(!new)>(c: Config<S>, s: State<S>, step: Step, q: nat, v: S, w: S,
                                                             x: S, y: S)
    requires InversePair(c) && s.procs.Keys == c.mutations.Keys
    requires BreaksLock(c, s, step) && q in s.procs && s.procs[q].pc == Loaded(v)
    requires Current(c, s.fs) == Some(w) && step.p in c.mutations && c.mutations[step.p](w) == Some(x)
    requires c.mutations[q](v) == Some(y)
    requires c.createNew ==> TempPath(c.store, step.p) !in s.fs && TempPath(c.store, q) !in s.fs
    ensures var t := Do(c, s, step).value;
            var run := [step] + LosingSteps(step.p, t.procs[step.p].wake, q);
            && Exec(c, s, run).Some?
            && var end := Exec(c, s, run).value;
               && end.log == s.log + [step.p, q]
               && step.p in end.procs && end.procs[step.p].pc == Releasing(Committed)
               && q in end.procs && end.procs[q].pc == Releasing(Committed)
               && Current(c, end.fs) == c.mutations[q](v)
               && Replay(c, Current(c, s.fs), [step.p, q]) == c.mutations[q](x)
  {
    var p := step.p;
    var t := Do(c, s, step).value;
    assert InCs(s, q);
    AfterBreak(c, s, step, q);
    hide Do, Exec, Current, BreaksLock, InversePair, TempPath, LockPath, PidLine;
    var wake := t.procs[p].wake;
    var s1 := Taken(c, t, p, x);
    TakeRuns(c, t, p, w, x);
    if c.createNew {
      TempsStayFree(c, s, t, p, q, x);
    }
    var s2 := Written(c, s1, p, x);
    CommitRuns(c, s1, p, x);
    assert s2.procs[q].pc == Loaded(v);
    MutateRuns(c, s2, q, v, y);
    var s3 := SetPc(s2, q, Mutated(y));
    CommitRuns(c, s3, q, y);
    var end := Written(c, s3, q, y);
    var last := [Work(q, Mutate)] + CommitSteps(q);
    ExecCons(c, s2, Work(q, Mutate), CommitSteps(q));
    ExecAppend(c, s1, CommitSteps(p), last);
    ExecAppend(c, t, TakeSteps(p, wake), CommitSteps(p) + last);
    ExecCons(c, s, step, LosingSteps(p, wake, q));
    assert Exec(c, s, [step] + LosingSteps(p, wake, q)) == Some(end);
    assert end.log == s.log + [p, q];
    ReadsBack(c, end.fs, s3.clock, y);
    ReplayTwo(c, Current(c, s.fs), p, q, x);
  }

  lemma {:induction false} ReadsBack<S(!new)>(c: Config<S>, fs: Fs, clock: nat, y: S)
    requires InversePair(c) && c.store in fs && fs[c.store] == File(c.encode(y), true, clock)
    ensures Current(c, fs) == Some(y)
  {
  }

  lemma {:induction false} ReplayTwo<S>(c: Config<S>, init: Option<S>, p: nat, q: nat, x: S)
    requires init.Some? && p in c.mutations && q in c.mutations && c.mutations[p](init.value) == Some(x)
    ensures Replay(c, init, [p, q]) == c.mutations[q](x)
  {
    assert [p, q][..1] == [p] && [p][..0] == [];
    assert Replay(c, init, [p]) == Some(x);
  }
}
