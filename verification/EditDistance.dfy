/** The three edit-distance routines behind the "did you mean" hints, and the theory they rest on.

    `Lev` is the textbook recurrence. It is tied to a definition that mentions no recurrence: the length of
    a shortest script of single-character insertions, deletions and substitutions (`Edit`, `Run`).
  */
module EditDistance {
  import opened Wrappers

  function Min(x: nat, y: nat): nat { if x <= y then x else y }

  function Max(x: nat, y: nat): nat { if x >= y then x else y }

  function Cost<T(==)>(x: T, y: T): nat { if x == y then 0 else 1 }

  function Lev<T(==)>(a: seq<T>, b: seq<T>): nat
    decreases |a| + |b|
  {
    if a == [] then |b|
    else if b == [] then |a|
    else
      var (p, q) := (a[..|a| - 1], b[..|b| - 1]);
      Min(Min(Lev(p, b) + 1, Lev(a, q) + 1), Lev(p, q) + Cost(a[|a| - 1], b[|b| - 1]))
  }

  // ---------- edit scripts ----------

  datatype Edit<T> = Insert(pos: nat, x: T) | Delete(pos: nat) | Substitute(pos: nat, x: T)

  /** One edit; None when the position does not exist. */
  function Apply<T>(e: Edit<T>, s: seq<T>): Option<seq<T>> {
    match e
    case Insert(i, x) => if i <= |s| then Some(s[..i] + [x] + s[i..]) else None
    case Delete(i) => if i < |s| then Some(s[..i] + s[i + 1..]) else None
    case Substitute(i, x) => if i < |s| then Some(s[..i] + [x] + s[i + 1..]) else None
  }

  /** The edits of `script`, first to last. */
  function Run<T>(script: seq<Edit<T>>, s: seq<T>): Option<seq<T>> {
    if script == [] then Some(s)
    else
      var t := Apply(script[0], s);
      if t.None? then None else Run(script[1..], t.value)
  }

  // ---------- elementary bounds ----------

  lemma {:induction false} LevBase<T>(a: seq<T>)
    ensures Lev(a, []) == Lev([], a) == |a|
  {
  }

  lemma {:induction false} LevUnfold<T>(a: seq<T>, b: seq<T>)
    requires a != [] && b != []
    ensures Lev(a, b) == Min(Min(Lev(a[..|a| - 1], b) + 1, Lev(a, b[..|b| - 1]) + 1),
                             Lev(a[..|a| - 1], b[..|b| - 1]) + Cost(a[|a| - 1], b[|b| - 1]))
  {
    hide Min, Cost;
  }

  lemma {:induction false} LevOfEqual<T>(a: seq<T>)
    ensures Lev(a, a) == 0
  {
    hide Lev;
    LevBase(a);
    if a != [] {
      LevUnfold(a, a);
      LevOfEqual(a[..|a| - 1]);
    }
  }

  lemma {:induction false} LevZeroOnlyIfEqual<T>(a: seq<T>, b: seq<T>)
    requires Lev(a, b) == 0
    ensures a == b
  {
    hide Lev;
    LevBase(a);
    LevBase(b);
    if a != [] && b != [] {
      var (p, q) := (a[..|a| - 1], b[..|b| - 1]);
      LevUnfold(a, b);
      LevZeroOnlyIfEqual(p, q);
      assert a == p + [a[|a| - 1]] && b == q + [b[|b| - 1]];
    }
  }

  lemma {:induction false} LevSymmetric<T>(a: seq<T>, b: seq<T>)
    ensures Lev(a, b) == Lev(b, a)
    decreases |a| + |b|
  {
    hide Lev;
    LevBase(a);
    LevBase(b);
    if a != [] && b != [] {
      var (p, q) := (a[..|a| - 1], b[..|b| - 1]);
      LevUnfold(a, b);
      LevUnfold(b, a);
      LevSymmetric(p, b);
      LevSymmetric(a, q);
      LevSymmetric(p, q);
    }
  }

  lemma {:induction false} LevLengthBound<T>(a: seq<T>, b: seq<T>)
    ensures |a| <= Lev(a, b) + |b|
    ensures |b| <= Lev(a, b) + |a|
    decreases |a| + |b|
  {
    hide Lev;
    LevBase(a);
    LevBase(b);
    if a != [] && b != [] {
      var (p, q) := (a[..|a| - 1], b[..|b| - 1]);
      LevUnfold(a, b);
      LevLengthBound(p, b);
      LevLengthBound(a, q);
      LevLengthBound(p, q);
    }
  }

  /** Dropping the last element of `a` saves at most one edit. */
  lemma {:induction false} LevDropLeft<T>(a: seq<T>, c: seq<T>)
    requires a != []
    ensures Lev(a, c) <= Lev(a[..|a| - 1], c) + 1
  {
    hide Lev;
    LevBase(a);
    LevBase(a[..|a| - 1]);
    if c != [] {
      LevUnfold(a, c);
    }
  }

  lemma {:induction false} LevDropRight<T>(a: seq<T>, c: seq<T>)
    requires c != []
    ensures Lev(a, c) <= Lev(a, c[..|c| - 1]) + 1
  {
    hide Lev;
    LevBase(c);
    LevBase(c[..|c| - 1]);
    if a != [] {
      LevUnfold(a, c);
    }
  }

  /** Going through `b` is never shorter. */
  lemma {:induction false} LevTriangle<T>(a: seq<T>, b: seq<T>, c: seq<T>)
    ensures Lev(a, c) <= Lev(a, b) + Lev(b, c)
    decreases |a| + |b| + |c|
  {
    hide Lev;
    if a == [] || b == [] || c == [] {
      LevLengthBound(a, b);
      LevLengthBound(b, c);
      LevAtMostBoth(a, c);
      LevBase(a);
      LevBase(b);
      LevBase(c);
    } else {
      LevUnfold(a, b);
      LevUnfold(b, c);
      LevUnfold(a, c);
      var (p, q, r) := (a[..|a| - 1], b[..|b| - 1], c[..|c| - 1]);
      if Lev(a, b) == Lev(p, b) + 1 {
        LevTriangle(p, b, c);
      } else if Lev(b, c) == Lev(b, r) + 1 {
        LevTriangle(a, b, r);
      } else if Lev(a, b) == Lev(a, q) + 1 {
        if Lev(b, c) == Lev(q, c) + 1 {
          LevTriangle(a, q, c);
        } else {
          LevTriangle(a, q, r);
        }
      } else if Lev(b, c) == Lev(q, c) + 1 {
        LevTriangle(p, q, c);
      } else {
        LevTriangle(p, q, r);
      }
    }
  }

  /** Deleting everything and inserting everything is always a script. */
  lemma {:induction false} LevAtMostBoth<T>(a: seq<T>, b: seq<T>)
    ensures Lev(a, b) <= |a| + |b|
    decreases |a|
  {
    hide Lev;
    LevBase(a);
    LevBase(b);
    if a != [] && b != [] {
      LevUnfold(a, b);
      LevAtMostBoth(a[..|a| - 1], b);
    }
  }

  /** The edit distance is a metric. */
  lemma {:induction false} LevIsAMetric<T>(a: seq<T>, b: seq<T>, c: seq<T>)
    ensures Lev(a, b) == 0 <==> a == b
    ensures Lev(a, b) == Lev(b, a)
    ensures Lev(a, c) <= Lev(a, b) + Lev(b, c)
  {
    LevOfEqual(a);
    if Lev(a, b) == 0 {
      LevZeroOnlyIfEqual(a, b);
    }
    LevSymmetric(a, b);
    LevTriangle(a, b, c);
  }

  // ---------- suffixes ----------

  lemma {:induction false} LevSnoc<T>(a: seq<T>, b: seq<T>, x: T, y: T)
    ensures Lev(a + [x], b + [y]) == Min(Min(Lev(a, b + [y]) + 1, Lev(a + [x], b) + 1), Lev(a, b) + Cost(x, y))
  {
    hide *;
    assert (a + [x])[..|a + [x]| - 1] == a;
    assert (b + [y])[..|b + [y]| - 1] == b;
    LevUnfold(a + [x], b + [y]);
  }

  lemma {:induction false} LevSnocRight<T>(a: seq<T>, b: seq<T>, y: T)
    ensures Lev(a, b + [y]) <= Lev(a, b) + 1
    ensures Lev(a, b) <= Lev(a, b + [y]) + 1
  {
    assert (b + [y])[..|b + [y]| - 1] == b;
    LevOfEqual(b);
    LevDropRight(b, b + [y]);
    LevDropLeft(b + [y], b);
    LevTriangle(a, b, b + [y]);
    LevTriangle(a, b + [y], b);
  }

  lemma {:induction false} LevCommonSuffix<T>(a: seq<T>, b: seq<T>, s: seq<T>)
    ensures Lev(a + s, b + s) == Lev(a, b)
    decreases |s|
  {
    hide Lev;
    if s == [] {
      assert a + s == a && b + s == b;
    } else {
      var (t, y) := (s[..|s| - 1], s[|s| - 1]);
      LevCommonSuffix(a, b, t);
      assert a + s == (a + t) + [y] && b + s == (b + t) + [y];
      LevSnoc(a + t, b + t, y, y);
      LevSnocRight(a + t, b + t, y);
      LevSymmetric(a + t, b + t);
      LevSymmetric((a + t) + [y], b + t);
      LevSnocRight(b + t, a + t, y);
    }
  }

  /** Two scripts can be run side by side. */
  lemma {:induction false} LevConcat<T>(a: seq<T>, b: seq<T>, s: seq<T>, t: seq<T>)
    ensures Lev(a + s, b + t) <= Lev(a, b) + Lev(s, t)
    decreases |s| + |t|
  {
    hide Lev;
    LevBase(s);
    LevBase(t);
    if s != [] && t != [] {
      LevUnfold(s, t);
    }
    if s == [] && t == [] {
      assert a + s == a && b + t == b;
    } else if s == [] || (t != [] && Lev(s, t) == Lev(s, t[..|t| - 1]) + 1) {
      var (u, y) := (t[..|t| - 1], t[|t| - 1]);
      LevBase(u);
      LevConcat(a, b, s, u);
      assert b + t == (b + u) + [y];
      LevSnocRight(a + s, b + u, y);
    } else if t == [] || Lev(s, t) == Lev(s[..|s| - 1], t) + 1 {
      var (u, x) := (s[..|s| - 1], s[|s| - 1]);
      LevBase(u);
      LevConcat(a, b, u, t);
      assert a + s == (a + u) + [x];
      LevSymmetric((a + u) + [x], b + t);
      LevSymmetric(a + u, b + t);
      LevSnocRight(b + t, a + u, x);
    } else {
      var (u, v) := (s[..|s| - 1], t[..|t| - 1]);
      LevConcat(a, b, u, v);
      assert a + s == (a + u) + [s[|s| - 1]] && b + t == (b + v) + [t[|t| - 1]];
      LevSnoc(a + u, b + v, s[|s| - 1], t[|t| - 1]);
    }
  }

  // ---------- optimality ----------

  lemma {:induction false} LevAfterOneEdit<T>(e: Edit<T>, s: seq<T>)
    requires Apply(e, s).Some?
    ensures Lev(s, Apply(e, s).value) <= 1
  {
    hide Lev;
    var t := Apply(e, s).value;
    var i := e.pos;
    LevOfEqual(s[..i]);
    match e {
      case Insert(_, x) =>
        assert s == s[..i] + s[i..] && t == (s[..i] + [x]) + s[i..];
        LevCommonSuffix(s[..i], s[..i] + [x], s[i..]);
        LevSnocRight(s[..i], s[..i], x);
      case Delete(_) =>
        assert s == (s[..i] + [s[i]]) + s[i + 1..] && t == s[..i] + s[i + 1..];
        LevCommonSuffix(s[..i] + [s[i]], s[..i], s[i + 1..]);
        LevSymmetric(s[..i] + [s[i]], s[..i]);
        LevSnocRight(s[..i], s[..i], s[i]);
      case Substitute(_, x) =>
        assert s == (s[..i] + [s[i]]) + s[i + 1..] && t == (s[..i] + [x]) + s[i + 1..];
        LevCommonSuffix(s[..i] + [s[i]], s[..i] + [x], s[i + 1..]);
        LevSnoc(s[..i], s[..i], s[i], x);
    }
  }

  lemma {:induction false} NoScriptIsShorter<T>(script: seq<Edit<T>>, a: seq<T>, b: seq<T>)
    requires Run(script, a) == Some(b)
    ensures Lev(a, b) <= |script|
    decreases |script|
  {
    if script == [] {
      LevOfEqual(a);
    } else {
      var t := Apply(script[0], a).value;
      NoScriptIsShorter(script[1..], t, b);
      LevAfterOneEdit(script[0], a);
      LevTriangle(a, t, b);
    }
  }

  /** A script also works in front of a longer tail. */
  lemma {:induction false} RunBeforeTail<T>(script: seq<Edit<T>>, s: seq<T>, x: T)
    requires Run(script, s).Some?
    ensures Run(script, s + [x]) == Some(Run(script, s).value + [x])
    decreases |script|
  {
    if script != [] {
      var e := script[0];
      var t := Apply(e, s).value;
      var i := e.pos;
      assert (s + [x])[..i] == s[..i];
      assert (s + [x])[i..] == s[i..] + [x];
      if !e.Insert? {
        assert (s + [x])[i + 1..] == s[i + 1..] + [x];
      }
      assert Apply(e, s + [x]).value == t + [x];
      RunBeforeTail(script[1..], t, x);
    }
  }

  lemma {:induction false} RunThenEdit<T>(script: seq<Edit<T>>, e: Edit<T>, s: seq<T>)
    requires Run(script, s).Some?
    ensures Run(script + [e], s) == Apply(e, Run(script, s).value)
    decreases |script|
  {
    if script == [] {
      assert script + [e] == [e];
      assert Run([e][1..], s) == Some(s);
    } else {
      assert (script + [e])[1..] == script[1..] + [e];
      RunThenEdit(script[1..], e, Apply(script[0], s).value);
    }
  }

  lemma {:induction false} ScriptOfThatLength<T>(a: seq<T>, b: seq<T>) returns (script: seq<Edit<T>>)
    ensures |script| == Lev(a, b)
    ensures Run(script, a) == Some(b)
    decreases |a| + |b|
  {
    hide Lev;
    LevBase(a);
    LevBase(b);
    if a != [] && b != [] {
      LevUnfold(a, b);
    }
    if a == [] && b == [] {
      script := [];
    } else if a != [] && (b == [] || Lev(a, b) == Lev(a[..|a| - 1], b) + 1) {
      var p := a[..|a| - 1];
      LevBase(p);
      var rest := ScriptOfThatLength(p, b);
      script := [Delete(|p|)] + rest;
      assert p + [] == p && Apply(script[0], a).value == p;
      assert script[1..] == rest;
    } else if b != [] && (a == [] || Lev(a, b) == Lev(a, b[..|b| - 1]) + 1) {
      var q := b[..|b| - 1];
      LevBase(q);
      var rest := ScriptOfThatLength(a, q);
      var e := Insert(|q|, b[|b| - 1]);
      RunThenEdit(rest, e, a);
      script := rest + [e];
      assert Apply(e, q).value == b;
    } else {
      var (p, q) := (a[..|a| - 1], b[..|b| - 1]);
      var (x, y) := (a[|a| - 1], b[|b| - 1]);
      assert a == p + [x] && b == q + [y];
      var rest := ScriptOfThatLength(p, q);
      RunBeforeTail(rest, p, x);
      if x == y {
        script := rest;
      } else {
        var e := Substitute(|q|, y);
        RunThenEdit(rest, e, a);
        script := rest + [e];
        assert Apply(e, q + [x]).value == b;
      }
    }
  }

  /** `Lev` is the length of a shortest edit script, for all sequences. */
  lemma {:induction false} LevIsShortestScript<T(!new)>(a: seq<T>, b: seq<T>)
    ensures exists script: seq<Edit<T>> :: |script| == Lev(a, b) && Run(script, a) == Some(b)
    ensures forall script: seq<Edit<T>> :: Run(script, a) == Some(b) ==> Lev(a, b) <= |script|
  {
    var best := ScriptOfThatLength(a, b);
    forall script: seq<Edit<T>> | Run(script, a) == Some(b)
      ensures Lev(a, b) <= |script|
    {
      NoScriptIsShorter(script, a, b);
    }
  }

  // ---------- the full matrix ----------

  lemma {:induction false} LevOfPrefixes<T>(a: seq<T>, b: seq<T>, i: nat, j: nat)
    requires 0 < i <= |a| && 0 < j <= |b|
    ensures Lev(a[..i], b[..j])
         == Min(Min(Lev(a[..i - 1], b[..j]) + 1, Lev(a[..i], b[..j - 1]) + 1),
                Lev(a[..i - 1], b[..j - 1]) + Cost(a[i - 1], b[j - 1]))
  {
    hide *;
    assert a[..i][..i - 1] == a[..i - 1];
    assert b[..j][..j - 1] == b[..j - 1];
    LevUnfold(a[..i], b[..j]);
  }

  /** `edit_distance`: every cell of an (m+1) x (n+1) matrix, row by row. */
  method FullMatrix<T(==)>(a: seq<T>, b: seq<T>) returns (d: nat)
    ensures d == Lev(a, b)
  {
    hide Lev;
    var (m, n) := (|a|, |b|);
    var dp := new nat[m + 1, n + 1];
    for i := 0 to m + 1
      invariant forall k :: 0 <= k < i ==> dp[k, 0] == k
    {
      dp[i, 0] := i;
    }
    for j := 0 to n + 1
      invariant forall k :: 0 <= k <= m ==> dp[k, 0] == k
      invariant forall k :: 0 <= k < j ==> dp[0, k] == k
    {
      dp[0, j] := j;
    }
    forall l | 0 <= l <= n
      ensures dp[0, l] == Lev(a[..0], b[..l])
    {
      LevBase(b[..l]);
    }
    for i := 1 to m + 1
      invariant forall k :: i <= k <= m ==> dp[k, 0] == k
      invariant forall l :: 0 <= l <= n ==> dp[i - 1, l] == Lev(a[..i - 1], b[..l])
    {
      LevBase(a[..i]);
      for j := 1 to n + 1
        invariant forall k :: i < k <= m ==> dp[k, 0] == k
        invariant forall l :: 0 <= l <= n ==> dp[i - 1, l] == Lev(a[..i - 1], b[..l])
        invariant forall l :: 0 <= l < j ==> dp[i, l] == Lev(a[..i], b[..l])
      {
        var cost := if a[i - 1] == b[j - 1] then 0 else 1;
        LevOfPrefixes(a, b, i, j);
        dp[i, j] := Min(Min(dp[i - 1, j] + 1, dp[i, j - 1] + 1), dp[i - 1, j - 1] + cost);
      }
    }
    d := dp[m, n];
    assert a[..m] == a && b[..n] == b;
  }

  // ---------- two rows ----------

  /** The first `n` cells of the row for the prefix `p`. */
  ghost predicate IsRow<T>(row: seq<nat>, p: seq<T>, b: seq<T>, n: nat)
    requires n <= |b| + 1
  {
    |row| == n && forall j :: 0 <= j < n ==> row[j] == Lev(p, b[..j])
  }

  lemma {:induction false} NextCell<T>(previous: seq<nat>, current: seq<nat>, a: seq<T>, b: seq<T>, i: nat, j: nat,
                                       cell: nat)
    requires i < |a| && j < |b|
    requires IsRow(previous, a[..i], b, |b| + 1) && IsRow(current, a[..i + 1], b, j + 1)
    requires cell == Min(Min(previous[j + 1] + 1, current[j] + 1), previous[j] + Cost(a[i], b[j]))
    ensures IsRow(current + [cell], a[..i + 1], b, j + 2)
  {
    hide Lev;
    LevOfPrefixes(a, b, i + 1, j + 1);
  }

  /** `levenshtein_distance` of the deploy crate: only the previous row is kept. */
  method TwoRows<T(==)>(left: seq<T>, right: seq<T>) returns (d: nat)
    ensures d == Lev(left, right)
  {
    var previous: seq<nat> := seq(|right| + 1, j => j);
    hide Lev;
    forall j | 0 <= j <= |right|
      ensures Lev(left[..0], right[..j]) == j
    {
      LevBase(right[..j]);
    }
    for i := 0 to |left|
      invariant IsRow(previous, left[..i], right, |right| + 1)
    {
      var current: seq<nat> := [i + 1];
      LevBase(left[..i + 1]);
      for j := 0 to |right|
        invariant IsRow(current, left[..i + 1], right, j + 1)
      {
        var replacement := previous[j] + (if left[i] != right[j] then 1 else 0);
        var cell := Min(Min(previous[j + 1] + 1, current[j] + 1), replacement);
        NextCell(previous, current, left, right, i, j, cell);
        current := current + [cell];
      }
      previous := current;
    }
    assert left[..|left|] == left && right[..|right|] == right;
    d := previous[|right|];
  }
}
