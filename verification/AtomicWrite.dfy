/** `write_atomic`: one call with injected I/O errors, and any number of concurrent writers of one file without a lock,
    with crashes and power losses. */
module AtomicWrite {
  import opened FileSystem
  import opened Wrappers

  // ---------- one call ----------

  /** The first system call that fails, if any; a failed write leaves junk in the temporary file. */
  datatype Failure = Nothing | CreateFails | WriteFails(junk: string) | SyncFails | RenameFails

  /** The files after a call that nobody interrupts, and whether it succeeds. */
  function AfterCall(files: Fs, now: nat, path: Path, pid: nat, contents: string, createNew: bool, failure: Failure):
    (Fs, bool)
  {
    var temp := TempPath(path, pid);
    if failure.CreateFails? || (createNew && temp in files) then (files, false)
    else
      match failure
      case WriteFails(junk) => (files[temp := File(junk, false, now)], false)
      case SyncFails => (files[temp := File(contents, false, now)], false)
      case RenameFails => (files - {temp}, false)
      case _ => ((files - {temp})[path := File(contents, true, now)], true)
  }

  class Disk {
    var files: Fs
    var now: nat

    constructor (files: Fs, now: nat)
      ensures this.files == files && this.now == now
    {
      this.files, this.now := files, now;
    }

    /** `write_atomic_inner`. On success the destination holds exactly `contents`, on disk, and no temporary file is
        left; on failure the destination is untouched. Either way no other file changes. */
    method WriteAtomic(path: Path, pid: nat, contents: string, createNew: bool, failure: Failure) returns (ok: bool)
      modifies this`files
      ensures (files, ok) == AfterCall(old(files), now, path, pid, contents, createNew, failure)
      ensures var temp := TempPath(path, pid);
              && (ok <==> failure.Nothing? && !(createNew && temp in old(files)))
              && (ok ==> files == (old(files) - {temp})[path := File(contents, true, now)])
              && (!ok ==> files - {temp} == old(files) - {temp})
              && (failure.RenameFails? && !(createNew && temp in old(files)) ==> temp !in files)
    {
      var temp := TempPath(path, pid);
      PathsDiffer(path, pid, pid);
      if failure.CreateFails? || (createNew && temp in files) {
        return false;
      }
      files := files[temp := File("", false, now)];
      if failure.WriteFails? {
        files := files[temp := File(failure.junk, false, now)];
        assert files == old(files)[temp := File(failure.junk, false, now)];
        return false;
      }
      files := files[temp := File(contents, false, now)];
      assert files == old(files)[temp := File(contents, false, now)];
      if failure.SyncFails? {
        return false;
      }
      files := files[temp := files[temp].(synced := true)];
      if failure.RenameFails? {
        files := files - {temp};
        assert files == old(files) - {temp};
        return false;
      }
      var file := files[temp];
      files := (files - {temp})[path := file];
      assert files == (old(files) - {temp})[path := File(contents, true, now)];
      ok := true;
    }
  }

  // ---------- many writers ----------

  datatype Pc = Start | Created | Written | Synced | Done(ok: bool) | Crashed

  /** What each writer, by process id, wants the file to hold. */
  datatype Config = Config(path: Path, contents: map<nat, string>, createNew: bool)

  /** `log` records whose renames took effect, in order. */
  datatype State = State(fs: Fs, clock: nat, pcs: map<nat, Pc>, log: seq<nat>)

  datatype Step =
    | Create(p: nat)
    | WriteSome(p: nat, junk: string)   // part of the data has reached the file
    | WriteAll(p: nat)
    | Sync(p: nat)
    | Rename(p: nat)
    | Fail(p: nat)                      // an I/O error in the call that comes next
    | Crash(p: nat)
    | PowerLoss(fs: Fs)
    | Tick(ms: nat)

  function CrashAll(pcs: map<nat, Pc>): map<nat, Pc> {
    map p | p in pcs :: if pcs[p].Done? then pcs[p] else Crashed
  }

  /** A step of writer `p`. */
  function DoWriter(c: Config, s: State, step: Step): Option<State>
    requires !step.PowerLoss? && !step.Tick? && step.p in s.pcs && step.p in c.contents
  {
    var p := step.p;
    var pc := s.pcs[p];
    var temp := TempPath(c.path, p);
    match step
    case Create(_) =>
      if pc != Start then None
      else if c.createNew && temp in s.fs then Some(s.(pcs := s.pcs[p := Done(false)]))
      else Some(s.(fs := s.fs[temp := File("", false, s.clock)], pcs := s.pcs[p := Created]))
    case WriteSome(_, junk) =>
      if pc != Created then None else Some(s.(fs := s.fs[temp := File(junk, false, s.clock)]))
    case WriteAll(_) =>
      if pc != Created then None
      else Some(s.(fs := s.fs[temp := File(c.contents[p], false, s.clock)], pcs := s.pcs[p := Written]))
    case Sync(_) =>
      if pc != Written || temp !in s.fs then None
      else Some(s.(fs := s.fs[temp := s.fs[temp].(synced := true)], pcs := s.pcs[p := Synced]))
    case Rename(_) =>
      if pc != Synced || temp !in s.fs then None
      else Some(s.(fs := (s.fs - {temp})[c.path := s.fs[temp]], pcs := s.pcs[p := Done(true)], log := s.log + [p]))
    case Fail(_) =>
      if pc.Done? || pc.Crashed? then None
      else Some(s.(fs := if pc.Synced? then s.fs - {temp} else s.fs, pcs := s.pcs[p := Done(false)]))
    case Crash(_) =>
      if pc.Done? || pc.Crashed? then None else Some(s.(pcs := s.pcs[p := Crashed]))
  }

  ghost function Do(c: Config, s: State, step: Step): Option<State> {
    match step
    case Tick(ms) => Some(s.(clock := s.clock + ms))
    case PowerLoss(fs) => if Survives(s.fs, fs) then Some(s.(fs := fs, pcs := CrashAll(s.pcs))) else None
    case _ => if step.p in s.pcs && step.p in c.contents then DoWriter(c, s, step) else None
  }

  ghost function Exec(c: Config, s: State, steps: seq<Step>): Option<State>
    decreases |steps|
  {
    if steps == [] then Some(s)
    else
      var before := Exec(c, s, steps[..|steps| - 1]);
      if before.None? then None else Do(c, before.value, steps[|steps| - 1])
  }

  ghost predicate Init(c: Config, s: State) {
    && s.pcs.Keys == c.contents.Keys && s.log == []
    && (forall p :: p in s.pcs ==> s.pcs[p] == Start)
    && (c.path in s.fs ==> s.fs[c.path].synced)
  }

  // ---------- the invariant ----------

  ghost predicate WriterOk(c: Config, s: State, p: nat)
    requires p in s.pcs
  {
    var temp := TempPath(c.path, p);
    && p in c.contents
    && (s.pcs[p].Written? || s.pcs[p].Synced? ==> temp in s.fs && s.fs[temp].data == c.contents[p])
    && (s.pcs[p].Synced? ==> s.fs[temp].synced)
    && (p in s.log <==> s.pcs[p] == Done(true))
  }

  /** The file is the initial one, or holds the complete contents of the writer that renamed last. */
  ghost predicate PathOk(c: Config, initial: Fs, fs: Fs, log: seq<nat>) {
    if log == [] then
      (c.path in fs <==> c.path in initial) && (c.path in fs ==> fs[c.path] == initial[c.path] && fs[c.path].synced)
    else
      var last := log[|log| - 1];
      c.path in fs && last in c.contents && fs[c.path].data == c.contents[last] && fs[c.path].synced
  }

  ghost predicate Inv(c: Config, initial: Fs, s: State) {
    && (forall p :: p in s.pcs ==> WriterOk(c, s, p))
    && PathOk(c, initial, s.fs, s.log)
  }

  lemma {:induction false} OtherWriterOk(c: Config, s: State, step: Step, t: State, q: nat)
    requires !step.PowerLoss? && !step.Tick? && step.p in s.pcs && step.p in c.contents
    requires DoWriter(c, s, step) == Some(t)
    requires q in s.pcs && q != step.p && WriterOk(c, s, q)
    ensures q in t.pcs && WriterOk(c, t, q)
  {
    PathsDiffer(c.path, step.p, q);
    PathsDiffer(c.path, q, q);
    hide TempPath;
  }

  lemma {:induction false} OwnWriterOk(c: Config, initial: Fs, s: State, step: Step, t: State)
    requires !step.PowerLoss? && !step.Tick? && step.p in s.pcs && step.p in c.contents
    requires DoWriter(c, s, step) == Some(t)
    requires WriterOk(c, s, step.p) && PathOk(c, initial, s.fs, s.log)
    ensures WriterOk(c, t, step.p) && PathOk(c, initial, t.fs, t.log)
  {
    PathsDiffer(c.path, step.p, step.p);
    hide TempPath;
  }

  lemma {:induction false} PowerLossOk(c: Config, initial: Fs, s: State, fs: Fs, t: State)
    requires Inv(c, initial, s) && Do(c, s, PowerLoss(fs)) == Some(t)
    ensures Inv(c, initial, t)
  {
    forall q | q in t.pcs
      ensures WriterOk(c, t, q)
    {
      assert WriterOk(c, s, q);
    }
  }

  lemma {:induction false} StepKeepsInv(c: Config, initial: Fs, s: State, step: Step, t: State)
    requires Inv(c, initial, s) && Do(c, s, step) == Some(t)
    ensures Inv(c, initial, t)
  {
    match step
    case Tick(_) =>
      forall q | q in t.pcs ensures WriterOk(c, t, q) {
        assert WriterOk(c, s, q);
      }
    case PowerLoss(fs) => PowerLossOk(c, initial, s, fs, t);
    case _ =>
      assert t.pcs.Keys == s.pcs.Keys;
      assert WriterOk(c, s, step.p);
      hide DoWriter, WriterOk, PathOk;
      OwnWriterOk(c, initial, s, step, t);
      forall q | q in t.pcs && q != step.p ensures WriterOk(c, t, q) {
        OtherWriterOk(c, s, step, t, q);
      }
  }

  lemma {:induction false} RunKeepsInv(c: Config, s: State, steps: seq<Step>)
    requires Init(c, s) && Exec(c, s, steps).Some?
    ensures Inv(c, s.fs, Exec(c, s, steps).value)
    decreases |steps|
  {
    if steps != [] {
      var front := steps[..|steps| - 1];
      RunKeepsInv(c, s, front);
      hide Do, Inv;
      StepKeepsInv(c, s.fs, Exec(c, s, front).value, steps[|steps| - 1], Exec(c, s, steps).value);
    }
  }

  /** Crash atomicity with many writers: after any interleaving of any prefix of their steps, with I/O errors, crashes
      and power losses, the file is untouched if nobody has renamed, and otherwise holds exactly the contents of the
      last writer that did. A writer reports success exactly if its rename took effect. */
  lemma {:induction false} CrashAtomicity(c: Config, s: State, steps: seq<Step>)
    requires Init(c, s) && Exec(c, s, steps).Some?
    ensures var end := Exec(c, s, steps).value;
            && PathOk(c, s.fs, end.fs, end.log)
            && forall p :: p in end.pcs ==> (end.pcs[p] == Done(true) <==> p in end.log)
  {
    RunKeepsInv(c, s, steps);
    var end := Exec(c, s, steps).value;
    forall p | p in end.pcs
      ensures end.pcs[p] == Done(true) <==> p in end.log
    {
      assert WriterOk(c, end, p);
    }
  }

  // ---------- one writer alone ----------

  /** The steps of a writer whose call fails in this way, if at all. */
  function CallSteps(p: nat, collides: bool, failure: Failure): seq<Step> {
    if failure.CreateFails? then [Fail(p)]
    else if collides then [Create(p)]
    else
      match failure
      case WriteFails(junk) => [Create(p), WriteSome(p, junk), Fail(p)]
      case SyncFails => [Create(p), WriteAll(p), Fail(p)]
      case RenameFails => [Create(p), WriteAll(p), Sync(p), Fail(p)]
      case _ => [Create(p), WriteAll(p), Sync(p), Rename(p)]
  }

  lemma {:induction false} ExecSteps(c: Config, s: State, x: Step, y: Step, z: Step, w: Step)
    ensures Exec(c, s, [x]) == Do(c, s, x)
    ensures Exec(c, s, [x, y, z]) == Then(c, Then(c, Do(c, s, x), y), z)
    ensures Exec(c, s, [x, y, z, w]) == Then(c, Then(c, Then(c, Do(c, s, x), y), z), w)
  {
    hide Do;
    assert [x][..0] == [] && [x, y][..1] == [x] && [x, y, z][..2] == [x, y] && [x, y, z, w][..3] == [x, y, z];
    assert Exec(c, s, []) == Some(s);
    assert Exec(c, s, [x]) == Do(c, s, x);
    assert Exec(c, s, [x, y]) == Then(c, Do(c, s, x), y);
  }

  ghost function Then(c: Config, s: Option<State>, step: Step): Option<State> {
    if s.None? then None else Do(c, s.value, step)
  }

  ghost predicate EndsAs(r: Option<State>, p: nat, files: Fs, ok: bool) {
    r.Some? && r.value.fs == files && p in r.value.pcs && r.value.pcs[p] == Done(ok)
  }

  /** Where writer `p` is after `Create` and `WriteAll`. */
  function WrittenState(c: Config, s: State, p: nat): State
    requires p in c.contents
  {
    s.(fs := s.fs[TempPath(c.path, p) := File(c.contents[p], false, s.clock)], pcs := s.pcs[p := Written])
  }

  lemma {:induction false} CreateThenWrite(c: Config, s: State, p: nat)
    requires p in s.pcs && p in c.contents && s.pcs[p] == Start && !(c.createNew && TempPath(c.path, p) in s.fs)
    ensures Then(c, Do(c, s, Create(p)), WriteAll(p)) == Some(WrittenState(c, s, p))
    ensures Do(c, s, Create(p)).value.fs == s.fs[TempPath(c.path, p) := File("", false, s.clock)]
  {
    hide TempPath;
    var t := Then(c, Do(c, s, Create(p)), WriteAll(p));
    assert t.value.fs == WrittenState(c, s, p).fs && t.value.pcs == WrittenState(c, s, p).pcs;
  }

  lemma {:induction false} FirstCallFails(c: Config, s: State, p: nat, junk: string)
    requires p in s.pcs && p in c.contents && s.pcs[p] == Start
    ensures EndsAs(Do(c, s, Fail(p)), p, s.fs, false)
    ensures var temp := TempPath(c.path, p);
            if c.createNew && temp in s.fs then EndsAs(Do(c, s, Create(p)), p, s.fs, false)
            else EndsAs(Then(c, Then(c, Do(c, s, Create(p)), WriteSome(p, junk)), Fail(p)), p,
                        s.fs[temp := File(junk, false, s.clock)], false)
  {
    hide TempPath;
  }

  lemma {:induction false} LaterCallFails(c: Config, s: State, p: nat)
    requires p in s.pcs && p in c.contents && TempPath(c.path, p) != c.path
    ensures var t := WrittenState(c, s, p); var temp := TempPath(c.path, p);
            && EndsAs(Do(c, t, Fail(p)), p, t.fs, false)
            && EndsAs(Then(c, Do(c, t, Sync(p)), Fail(p)), p, s.fs - {temp}, false)
            && EndsAs(Then(c, Do(c, t, Sync(p)), Rename(p)), p,
                      (s.fs - {temp})[c.path := File(c.contents[p], true, s.clock)], true)
  {
    hide TempPath;
  }

  /** The writer of the many-writer machine, run without interruption, does to the files what the method does, for every
      way in which its call can fail. */
  lemma {:induction false} AloneIsOneCall(c: Config, s: State, p: nat, failure: Failure)
    requires p in s.pcs && p in c.contents && s.pcs[p] == Start
    ensures var steps := CallSteps(p, c.createNew && TempPath(c.path, p) in s.fs, failure);
            var (files, ok) := AfterCall(s.fs, s.clock, c.path, p, c.contents[p], c.createNew, failure);
            EndsAs(Exec(c, s, steps), p, files, ok)
  {
    PathsDiffer(c.path, p, p);
    FirstCallFails(c, s, p, if failure.WriteFails? then failure.junk else "");
    LaterCallFails(c, s, p);
    hide TempPath, Exec, Do, EndsAs;
    if failure.CreateFails? {
      ExecSteps(c, s, Fail(p), Fail(p), Fail(p), Fail(p));
    } else if c.createNew && TempPath(c.path, p) in s.fs {
      ExecSteps(c, s, Create(p), Fail(p), Fail(p), Fail(p));
    } else {
      CreateThenWrite(c, s, p);
      match failure
      case WriteFails(junk) => ExecSteps(c, s, Create(p), WriteSome(p, junk), Fail(p), Fail(p));
      case SyncFails => ExecSteps(c, s, Create(p), WriteAll(p), Fail(p), Fail(p));
      case RenameFails => ExecSteps(c, s, Create(p), WriteAll(p), Sync(p), Fail(p));
      case _ => ExecSteps(c, s, Create(p), WriteAll(p), Sync(p), Rename(p));
    }
  }
}
