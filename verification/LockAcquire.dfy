/** The retry loop that takes the store lock, on a directory that other processes change between any two of its calls.
    What it sees is a sequence of rounds, and the statements hold for every such sequence. */
module LockAcquire {
  import opened FileSystem
  import opened StoreProtocol
  import opened Wrappers

  datatype Create = Created | AlreadyExists | OtherError

  /** One round: the answer to the exclusive create; the lock file's time stamp, if it can be read; the clock when the
      stamp is compared; whether the removal of a stale file works; the clock when the deadline is compared. */
  datatype Round = Round(create: Create, modified: Option<nat>, checkedAt: nat, removed: bool, deadlineAt: nat)

  /** Pending: the loop is still going after all the rounds given. */
  datatype Answer = Acquired | GaveUp | Failed | Pending

  /** The round removes a stale lock file, and the loop retries at once. */
  predicate Breaks(o: Round) {
    o.create == AlreadyExists && o.modified.Some? && IsStale(o.checkedAt, o.modified.value) && o.removed
  }

  /** The round sleeps. */
  predicate Waits(start: nat, o: Round) {
    o.create == AlreadyExists && !Breaks(o) && o.deadlineAt < start + ACQUIRE_TIMEOUT
  }

  /** The round leaves the loop with `a`. */
  predicate Ends(start: nat, o: Round, a: Answer) {
    match a
    case Acquired => o.create == Created
    case Failed => o.create == OtherError
    case GaveUp => o.create == AlreadyExists && !Breaks(o) && o.deadlineAt >= start + ACQUIRE_TIMEOUT
    case Pending => false
  }

  function BreakCount(rounds: seq<Round>): nat {
    if rounds == [] then 0
    else BreakCount(rounds[..|rounds| - 1]) + if Breaks(rounds[|rounds| - 1]) then 1 else 0
  }

  /** The loop ends with `answer` in round `used`, the first that neither breaks nor waits. */
  predicate Runs(start: nat, rounds: seq<Round>, answer: Answer, used: nat) {
    && used <= |rounds|
    && (answer == Pending ==> used == |rounds|)
    && (answer != Pending ==> used > 0 && Ends(start, rounds[used - 1], answer))
    && forall i :: 0 <= i < (if answer == Pending then used else used - 1) ==>
         Breaks(rounds[i]) || Waits(start, rounds[i])
  }

  lemma {:induction false} EndsIsLast(start: nat, o: Round, a: Answer)
    ensures Ends(start, o, a) ==> !Breaks(o) && !Waits(start, o)
  {
  }

  /** There is one way for the loop to go. */
  lemma {:induction false} RunsIsDeterministic(start: nat, rounds: seq<Round>, a: Answer, m: nat, b: Answer, n: nat)
    requires Runs(start, rounds, a, m) && Runs(start, rounds, b, n)
    ensures a == b && m == n
  {
    if m > 0 {
      EndsIsLast(start, rounds[m - 1], a);
    }
    if n > 0 {
      EndsIsLast(start, rounds[n - 1], b);
    }
  }

  // ---------- the loop, on a directory ----------

  /** What other processes have made of the files, and the clock, by the time of a call. */
  datatype Moment = Moment(files: Fs, clock: nat)

  /** The moments of one round's calls, and which of them fail. */
  datatype Turn = Turn(create: Moment, createFails: bool, stat: Moment, readable: bool, remove: Moment, works: bool,
                       deadlineAt: nat)

  /** The round that a turn comes to. */
  function Seen(lock: Path, turn: Turn): Round {
    Round(if turn.createFails then OtherError else if lock in turn.create.files then AlreadyExists else Created,
          if turn.readable && lock in turn.stat.files then Some(turn.stat.files[lock].mtime) else None,
          turn.stat.clock,
          turn.works && lock in turn.remove.files,
          turn.deadlineAt)
  }

  function AllSeen(lock: Path, turns: seq<Turn>): (r: seq<Round>)
    ensures |r| == |turns| && forall i :: 0 <= i < |turns| ==> r[i] == Seen(lock, turns[i])
  {
    seq(|turns|, i requires 0 <= i < |turns| => Seen(lock, turns[i]))
  }

  class Directory {
    const lock: Path
    const pid: nat
    var files: Fs
    var clock: nat

    constructor (lock: Path, pid: nat, files: Fs, clock: nat)
      ensures this.lock == lock && this.pid == pid && this.files == files && this.clock == clock
    {
      this.lock, this.pid, this.files, this.clock := lock, pid, files, clock;
    }

    /** The other processes run up to this moment. */
    method Meanwhile(m: Moment)
      modifies this
      ensures files == m.files && clock == m.clock
    {
      files, clock := m.files, m.clock;
    }

    /** `try_create` */
    method TryCreate(fails: bool) returns (r: Create)
      modifies this`files
      ensures r == if fails then OtherError else if lock in old(files) then AlreadyExists else Created
      ensures files == if r == Created then old(files)[lock := File(PidLine(pid), false, clock)] else old(files)
    {
      if fails {
        return OtherError;
      }
      if lock in files {
        return AlreadyExists;
      }
      files := files[lock := File(PidLine(pid), false, clock)];
      return Created;
    }

    /** `remove_file` of the lock: what `Drop` does, whoever owns the file. */
    method Unlink(works: bool) returns (ok: bool)
      modifies this`files
      ensures ok == (works && lock in old(files))
      ensures files == if ok then old(files) - {lock} else old(files)
    {
      ok := works && lock in files;
      if ok {
        files := files - {lock};
      }
    }

    /** `break_if_stale`: the stat and the removal are two calls, and others may run in between. */
    method BreakIfStale(turn: Turn) returns (broken: bool)
      requires Seen(lock, turn).create == AlreadyExists
      modifies this
      ensures broken == Breaks(Seen(lock, turn))
      ensures broken ==> files == turn.remove.files - {lock}
      ensures !broken ==> files == turn.stat.files || files == turn.remove.files
    {
      Meanwhile(turn.stat);
      if !turn.readable || lock !in files {
        return false;
      }
      var modified := files[lock].mtime;
      if modified > clock {
        return false;
      }
      var age := clock - modified;
      if age < STALE_AFTER {
        return false;
      }
      Meanwhile(turn.remove);
      broken := Unlink(turn.works);
    }

    /** `acquire`, over the turns that the schedule gives it. */
    method Acquire(start: nat, turns: seq<Turn>) returns (answer: Answer, used: nat, breaks: nat, slept: nat)
      modifies this
      ensures Runs(start, AllSeen(lock, turns), answer, used)
      ensures breaks == BreakCount(AllSeen(lock, turns)[..used])
      ensures slept == 10 * (used - breaks - if answer == Pending then 0 else 1)
      ensures answer == Acquired ==>
                var m := turns[used - 1].create;
                lock !in m.files && files == m.files[lock := File(PidLine(pid), false, m.clock)]
      ensures answer == Failed ==> files == turns[used - 1].create.files
      ensures answer == GaveUp ==> files == turns[used - 1].stat.files || files == turns[used - 1].remove.files
    {
      var deadline := start + ACQUIRE_TIMEOUT;
      ghost var rounds := AllSeen(lock, turns);
      used, breaks, slept := 0, 0, 0;
      while used < |turns|
        invariant used <= |turns| && rounds == AllSeen(lock, turns)
        invariant forall i :: 0 <= i < used ==> Breaks(rounds[i]) || Waits(start, rounds[i])
        invariant breaks == BreakCount(rounds[..used])
        invariant slept == POLL_INTERVAL * (used - breaks)
      {
        var turn := turns[used];
        used := used + 1;
        BreakCountStep(rounds, used);
        assert rounds[..used][..used - 1] == rounds[..used - 1];
        Meanwhile(turn.create);
        var created := TryCreate(turn.createFails);
        match created {
          case Created =>
            return Acquired, used, breaks, slept;
          case AlreadyExists =>
            var broken := BreakIfStale(turn);
            if broken {
              breaks := breaks + 1;
              continue;
            }
            if turn.deadlineAt >= deadline {
              return GaveUp, used, breaks, slept;
            }
            slept := slept + POLL_INTERVAL;
          case OtherError =>
            return Failed, used, breaks, slept;
        }
      }
      return Pending, used, breaks, slept;
    }
  }

  // ---------- what the clock and the file system guarantee ----------

  /** The clock never goes back, and a round that waits is followed by at least the sleep. */
  predicate Clocked(start: nat, rounds: seq<Round>) {
    && (forall i :: 0 <= i < |rounds| ==> start <= rounds[i].checkedAt <= rounds[i].deadlineAt)
    && (forall i :: 0 <= i < |rounds| - 1 ==>
          rounds[i + 1].checkedAt >=
          if Breaks(rounds[i]) then rounds[i].checkedAt else rounds[i].deadlineAt + POLL_INTERVAL)
  }

  /** Once a lock file has been removed, one seen later was created later. */
  predicate FreshAfterBreak(rounds: seq<Round>) {
    forall i, j :: 0 <= i < j < |rounds| && Breaks(rounds[i]) && rounds[j].modified.Some? ==>
      rounds[j].modified.value >= rounds[i].checkedAt
  }

  /** The checks run within the acquire timeout and the 50 seconds by which the stale age exceeds it. */
  predicate InTime(start: nat, rounds: seq<Round>) {
    forall i :: 0 <= i < |rounds| && rounds[i].create == AlreadyExists ==>
      rounds[i].checkedAt < start + ACQUIRE_TIMEOUT + (STALE_AFTER - ACQUIRE_TIMEOUT)
  }

  predicate Goes(start: nat, rounds: seq<Round>) {
    forall i :: 0 <= i < |rounds| ==> Breaks(rounds[i]) || Waits(start, rounds[i])
  }

  lemma {:induction false} SecondBreakIsImpossible(start: nat, rounds: seq<Round>, i: nat, j: nat)
    requires i < j < |rounds|
    requires Clocked(start, rounds) && FreshAfterBreak(rounds) && InTime(start, rounds)
    ensures !(Breaks(rounds[i]) && Breaks(rounds[j]))
  {
    if Breaks(rounds[i]) && rounds[j].modified.Some? {
      assert rounds[j].modified.value >= rounds[i].checkedAt;
    }
  }

  lemma {:induction false} NoBreaksCountZero(rounds: seq<Round>)
    requires forall i :: 0 <= i < |rounds| ==> !Breaks(rounds[i])
    ensures BreakCount(rounds) == 0
    decreases |rounds|
  {
    if rounds != [] {
      NoBreaksCountZero(rounds[..|rounds| - 1]);
    }
  }

  /** After one break, a file seen in time is too young for another. */
  lemma {:induction false} AtMostOneBreak(start: nat, rounds: seq<Round>)
    requires Clocked(start, rounds) && FreshAfterBreak(rounds) && InTime(start, rounds)
    ensures BreakCount(rounds) <= 1
    decreases |rounds|
  {
    if rounds != [] {
      var n := |rounds| - 1;
      ShorterTrace(start, rounds, n);
      if Breaks(rounds[n]) {
        forall i | 0 <= i < n ensures !Breaks(rounds[..n][i]) {
          SecondBreakIsImpossible(start, rounds, i, n);
        }
        NoBreaksCountZero(rounds[..n]);
      } else {
        AtMostOneBreak(start, rounds[..n]);
      }
    }
  }

  lemma {:induction false} ShorterTrace(start: nat, rounds: seq<Round>, n: nat)
    requires n <= |rounds|
    ensures Clocked(start, rounds) ==> Clocked(start, rounds[..n])
    ensures FreshAfterBreak(rounds) ==> FreshAfterBreak(rounds[..n])
    ensures InTime(start, rounds) ==> InTime(start, rounds[..n])
    ensures Goes(start, rounds) ==> Goes(start, rounds[..n])
  {
    var r := rounds[..n];
    assert forall i :: 0 <= i < n ==> r[i] == rounds[i];
    if Clocked(start, rounds) {
      forall i | 0 <= i < |r| - 1
        ensures r[i + 1].checkedAt >= if Breaks(r[i]) then r[i].checkedAt else r[i].deadlineAt + POLL_INTERVAL
      {
        assert rounds[i + 1].checkedAt >=
               if Breaks(rounds[i]) then rounds[i].checkedAt else rounds[i].deadlineAt + POLL_INTERVAL;
      }
    }
  }

  lemma {:induction false} BreakCountStep(rounds: seq<Round>, n: nat)
    requires n <= |rounds|
    ensures BreakCount(rounds[..n])
         == if n == 0 then 0
            else BreakCount(rounds[..n][..n - 1]) + if Breaks(rounds[n - 1]) then 1 else 0
  {
    hide Breaks;
  }

  /** Each round that sleeps moves the clock on by the poll interval. */
  lemma {:induction false} SleepTakesTime(start: nat, rounds: seq<Round>)
    requires Clocked(start, rounds) && rounds != []
    requires Goes(start, rounds[..|rounds| - 1])
    ensures rounds[|rounds| - 1].checkedAt
            >= start + POLL_INTERVAL * (|rounds| - 1 - BreakCount(rounds[..|rounds| - 1]))
    decreases |rounds|
  {
    hide IsStale, BreakCount;
    var n := |rounds| - 1;
    BreakCountStep(rounds, n);
    if n > 0 {
      ShorterTrace(start, rounds, n);
      ShorterTrace(start, rounds[..n], n - 1);
      SleepTakesTime(start, rounds[..n]);
      assert rounds[(n - 1) + 1].checkedAt >=
             if Breaks(rounds[n - 1]) then rounds[n - 1].checkedAt else rounds[n - 1].deadlineAt + POLL_INTERVAL;
    }
  }

  /** The number of sleeps fits into the timeout, whatever happens. */
  lemma {:induction false} FewSleeps(start: nat, rounds: seq<Round>)
    requires Clocked(start, rounds) && Goes(start, rounds)
    ensures 10 * (|rounds| - BreakCount(rounds)) <= 10_000
    decreases |rounds|
  {
    if rounds != [] {
      var n := |rounds| - 1;
      ShorterTrace(start, rounds, n);
      if Breaks(rounds[n]) {
        FewSleeps(start, rounds[..n]);
      } else {
        SleepTakesTime(start, rounds);
        assert Waits(start, rounds[n]);
      }
    }
  }

  // ---------- main results ----------

  /** On a clock that does not go back, with checks in time: one call breaks at most one lock, runs for at most
      1002 rounds, and ends with the lock, an I/O error, or a timeout that is reported only past the deadline. */
  lemma {:induction false} AcquireInTime(start: nat, rounds: seq<Round>, answer: Answer, used: nat)
    requires Clocked(start, rounds) && FreshAfterBreak(rounds) && InTime(start, rounds)
    requires Runs(start, rounds, answer, used)
    ensures BreakCount(rounds[..used]) <= 1
    ensures used <= 1002
    ensures |rounds| >= 1002 ==> answer != Pending
    ensures answer == GaveUp ==> forall i :: 0 <= i < used - 1 && !Breaks(rounds[i]) ==>
                                  rounds[i].deadlineAt < start + 10_000 <= rounds[used - 1].deadlineAt
  {
    ShorterTrace(start, rounds, used);
    AtMostOneBreak(start, rounds[..used]);
    var going := if answer == Pending then used else used - 1;
    assert Goes(start, rounds[..going]);
    ShorterTrace(start, rounds, going);
    AtMostOneBreak(start, rounds[..going]);
    FewSleeps(start, rounds[..going]);
  }

  /** A lock created after the wait began is broken by a round at the earliest sixty seconds into the wait, and one
      created just when it began exactly from then on. */
  lemma {:induction false} NeverBreaksNewLock(start: nat, o: Round)
    requires o.modified.Some? && o.modified.value >= start
    ensures Breaks(o) ==> o.checkedAt >= start + 60_000
    ensures o.create == AlreadyExists && o.modified.value == start && o.removed ==>
              (Breaks(o) <==> o.checkedAt >= start + 60_000)
  {
  }
}
