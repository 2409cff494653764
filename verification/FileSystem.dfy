/** Paths and files as the store protocol sees them. `rename`, exclusive create and unlink are atomic steps. */
module FileSystem {
  datatype Path = Path(dir: string, name: string)

  /** `synced` says whether the data would survive a power loss; `mtime` is in milliseconds. */
  datatype File = File(data: string, synced: bool, mtime: nat)

  type Fs = map<Path, File>

  // ---------- names ----------

  function Digit(d: nat): char
    requires d < 10
  {
    ['0', '1', '2', '3', '4', '5', '6', '7', '8', '9'][d]
  }

  function Decimal(n: nat): (s: string)
    ensures s != ""
  {
    if n < 10 then [Digit(n)] else Decimal(n / 10) + [Digit(n % 10)]
  }

  /** `lock_path`: a sibling of the store. */
  function LockPath(store: Path): Path {
    store.(name := store.name + ".lock")
  }

  /** `temp_path`: a sibling of the store, one per process. */
  function TempPath(store: Path, pid: nat): Path {
    store.(name := store.name + (".tmp." + Decimal(pid)))
  }

  /** What a lock file records about its creator. */
  function PidLine(pid: nat): string {
    Decimal(pid) + ['\n']
  }

  /** The number that decimal digits denote. */
  ghost function ValueOf(s: string): int {
    if s == "" then 0 else 10 * ValueOf(s[..|s| - 1]) + (s[|s| - 1] as int - '0' as int)
  }

  /** Decimal digits, without leading zeros, that denote the number. */
  lemma {:induction false} DecimalDenotes(n: nat)
    ensures ValueOf(Decimal(n)) == n
    ensures forall i :: 0 <= i < |Decimal(n)| ==> '0' <= Decimal(n)[i] <= '9'
    ensures n > 0 ==> Decimal(n)[0] != '0'
    decreases n
  {
    var s := Decimal(n);
    assert s[|s| - 1] == Digit(n % 10);
    if n >= 10 {
      DecimalDenotes(n / 10);
      assert s[..|s| - 1] == Decimal(n / 10);
    } else {
      assert s[..0] == "";
    }
  }

  /** The files beside a store: its lock file, and the temporary file of process 4711. */
  lemma {:induction false} PathNames(dir: string, name: string)
    ensures LockPath(Path(dir, name)) == Path(dir, name + ".lock")
    ensures TempPath(Path(dir, name), 4711) == Path(dir, name + ".tmp.4711")
    ensures PidLine(4711) == "4711\n"
  {
    assert Decimal(4) == ['4'] && Decimal(47) == ['4', '7'] && Decimal(471) == ['4', '7', '1'];
    assert Decimal(4711) == ['4', '7', '1', '1'];
    assert Decimal(4711) == "4711";
    assert ".tmp." + "4711" == ".tmp.4711";
    assert "4711" + ['\n'] == "4711\n";
  }

  lemma {:induction false} DecimalInjective(m: nat, n: nat)
    requires Decimal(m) == Decimal(n)
    ensures m == n
    decreases m
  {
    var (s, t) := (Decimal(m), Decimal(n));
    assert |s| >= 2 <==> m >= 10;
    assert |t| >= 2 <==> n >= 10;
    assert s[|s| - 1] == Digit(m % 10) && t[|t| - 1] == Digit(n % 10);
    if m >= 10 {
      assert s[..|s| - 1] == Decimal(m / 10) && t[..|t| - 1] == Decimal(n / 10);
      DecimalInjective(m / 10, n / 10);
    }
  }

  lemma {:induction false} PidLineInjective(m: nat, n: nat)
    requires PidLine(m) == PidLine(n)
    ensures m == n
  {
    assert PidLine(m)[..|PidLine(m)| - 1] == Decimal(m);
    assert PidLine(n)[..|PidLine(n)| - 1] == Decimal(n);
    DecimalInjective(m, n);
  }

  /** The store, its lock file and the temporary files of different processes never collide. */
  lemma {:induction false} PathsDiffer(store: Path, m: nat, n: nat)
    ensures LockPath(store) != store && TempPath(store, m) != store && TempPath(store, m) != LockPath(store)
    ensures m != n ==> TempPath(store, m) != TempPath(store, n)
  {
    var (lock, temp, other) := (LockPath(store).name, TempPath(store, m).name, TempPath(store, n).name);
    assert lock[|store.name| + 1] == 'l' && temp[|store.name| + 1] == 't';
    if temp == other {
      assert temp[|store.name| + 5..] == Decimal(m);
      assert other[|store.name| + 5..] == Decimal(n);
      DecimalInjective(m, n);
    }
  }

  // ---------- power loss ----------

  /** What may be on disk after a power loss: synced files as they were, unsynced ones with any data or gone. */
  ghost predicate Survives(before: Fs, after: Fs) {
    && (forall p :: p in after ==> p in before)
    && (forall p :: p in before && before[p].synced ==> p in after && after[p] == before[p])
  }

  /** Exactly the synced files are safe: one that is not may come back with any data, or not at all. */
  lemma {:induction false} OnlySyncedIsSafe(before: Fs, path: Path, junk: File)
    requires path in before
    ensures Survives(before, before[path := junk]) <==> !before[path].synced || junk == before[path]
    ensures Survives(before, before - {path}) <==> !before[path].synced
  {
    assert path in before[path := junk] && path !in before - {path};
  }
}
