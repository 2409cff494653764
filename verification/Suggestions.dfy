/** "Did you mean": the byte-sized distance matrix of the invoke crate, when it agrees with the true edit
    distance, and the three candidate searches. */
module Suggestions {
  import opened EditDistance
  import Text
  import opened Wrappers

  // ---------- the byte-sized matrix ----------

  /** `chars().nth(i)`: None past the last character. */
  function Nth(s: string, i: nat): Option<char> {
    if i < |s| then Some(s[i]) else None
  }

  /** What a loop over the byte length sees of `s`: its characters, then one None per excess byte. */
  function Padded(s: string): (p: seq<Option<char>>) {
    Chars(s) + Nones(Excess(s))
  }

  function Chars(s: string): seq<Option<char>> {
    seq(|s|, i requires 0 <= i < |s| => Some(s[i]))
  }

  function Nones(n: nat): seq<Option<char>> {
    seq(n, _ => None)
  }

  /** Bytes beyond one per character. */
  function Excess(s: string): nat {
    Text.ByteLen(s) - |s|
  }

  lemma {:induction false} PaddedAt(s: string)
    ensures |Padded(s)| == Text.ByteLen(s)
    ensures forall i :: 0 <= i < Text.ByteLen(s) ==> Padded(s)[i] == Nth(s, i)
  {
  }

  /** `levenshtein_distance` of the invoke crate: the matrix is sized by bytes but filled by characters. */
  method ByteMatrix(s1: string, s2: string) returns (d: nat)
    ensures d == Lev(Padded(s1), Padded(s2))
  {
    hide Lev, Padded, Text.ByteLen, Nth;
    ghost var (a, b) := (Padded(s1), Padded(s2));
    PaddedAt(s1);
    PaddedAt(s2);
    var (len1, len2) := (Text.ByteLen(s1), Text.ByteLen(s2));
    var matrix := new nat[len1 + 1, len2 + 1];
    for i := 0 to len1 + 1
      invariant forall k :: 0 <= k < i ==> matrix[k, 0] == k
    {
      matrix[i, 0] := i;
    }
    for j := 0 to len2 + 1
      invariant forall k :: 0 <= k <= len1 ==> matrix[k, 0] == k
      invariant forall k :: 0 <= k < j ==> matrix[0, k] == k
    {
      matrix[0, j] := j;
    }
    forall l | 0 <= l <= len2
      ensures matrix[0, l] == Lev(a[..0], b[..l])
    {
      LevBase(b[..l]);
    }
    for i := 1 to len1 + 1
      invariant forall k :: i <= k <= len1 ==> matrix[k, 0] == k
      invariant forall l :: 0 <= l <= len2 ==> matrix[i - 1, l] == Lev(a[..i - 1], b[..l])
    {
      LevBase(a[..i]);
      for j := 1 to len2 + 1
        invariant forall k :: i < k <= len1 ==> matrix[k, 0] == k
        invariant forall l :: 0 <= l <= len2 ==> matrix[i - 1, l] == Lev(a[..i - 1], b[..l])
        invariant forall l :: 0 <= l < j ==> matrix[i, l] == Lev(a[..i], b[..l])
      {
        var cost := if Nth(s1, i - 1) == Nth(s2, j - 1) then 0 else 1;
        LevOfPrefixes(a, b, i, j);
        matrix[i, j] := Min(Min(matrix[i - 1, j] + 1, matrix[i, j - 1] + 1), matrix[i - 1, j - 1] + cost);
      }
    }
    d := matrix[len1, len2];
    assert a[..len1] == a && b[..len2] == b;
  }

  // ---------- what padding does to the distance ----------

  lemma {:induction false} LevOfChars(a: string, b: string)
    ensures Lev(Chars(a), Chars(b)) == Lev(a, b)
    decreases |a| + |b|
  {
    hide Lev;
    LevBase(a);
    LevBase(b);
    LevBase(Chars(a));
    LevBase(Chars(b));
    if a != "" && b != "" {
      var (p, q) := (a[..|a| - 1], b[..|b| - 1]);
      assert Chars(a)[..|a| - 1] == Chars(p) && Chars(b)[..|b| - 1] == Chars(q);
      LevUnfold(a, b);
      LevUnfold(Chars(a), Chars(b));
      LevOfChars(p, b);
      LevOfChars(a, q);
      LevOfChars(p, q);
    }
  }

  /** `d` unmatched elements against `n` elements that differ from all of them. */
  lemma {:induction false} LevNonesChars(d: nat, b: string)
    ensures Lev(Nones(d), Chars(b)) <= Max(d, |b|)
    decreases d
  {
    hide Lev;
    LevBase(Nones(d));
    LevBase(Chars(b));
    if d > 0 && b != "" {
      var q := b[..|b| - 1];
      assert Nones(d)[..d - 1] == Nones(d - 1) && Chars(b)[..|b| - 1] == Chars(q);
      LevUnfold(Nones(d), Chars(b));
      LevNonesChars(d - 1, q);
    }
  }

  /** Padding the left side by `d` costs as if the padding were aligned with some tail `b[j..]`. */
  lemma {:induction false} PaddedUpper(a: string, b: string, d: nat, j: nat)
    requires j <= |b|
    ensures Lev(Chars(a) + Nones(d), Chars(b)) <= Lev(a, b[..j]) + Max(d, |b| - j)
  {
    hide Lev;
    assert Chars(b) == Chars(b[..j]) + Chars(b[j..]);
    LevConcat(Chars(a), Chars(b[..j]), Nones(d), Chars(b[j..]));
    LevOfChars(a, b[..j]);
    LevNonesChars(d, b[j..]);
  }

  lemma {:induction false} PaddedLower(a: string, b: string, d: nat) returns (j: nat)
    ensures j <= |b|
    ensures Lev(a, b[..j]) + Max(d, |b| - j) <= Lev(Chars(a) + Nones(d), Chars(b))
    decreases d + |b|
  {
    hide Lev;
    var left := Chars(a) + Nones(d);
    if d == 0 {
      j := |b|;
      assert left == Chars(a) && b[..j] == b;
      LevOfChars(a, b);
    } else if b == "" {
      j := 0;
      assert b[..0] == "" && Chars(b) == [];
      LevBase(a);
      LevBase(left);
    } else {
      var q := b[..|b| - 1];
      var shorter := Chars(a) + Nones(d - 1);
      assert left[..|left| - 1] == shorter && Chars(b)[..|b| - 1] == Chars(q);
      LevUnfold(left, Chars(b));
      if Lev(left, Chars(b)) == Lev(shorter, Chars(b)) + 1 {
        j := PaddedLower(a, b, d - 1);
      } else if Lev(left, Chars(b)) == Lev(left, Chars(q)) + 1 {
        j := PaddedLower(a, q, d);
        assert q[..j] == b[..j];
      } else {
        j := PaddedLower(a, q, d - 1);
        assert q[..j] == b[..j];
      }
    }
  }

  /** Only the difference of the two excesses matters. */
  lemma {:induction false} ExcessCancels(s1: string, s2: string)
    requires Excess(s1) >= Excess(s2)
    ensures Lev(Padded(s1), Padded(s2)) == Lev(Chars(s1) + Nones(Excess(s1) - Excess(s2)), Chars(s2))
  {
    hide Lev;
    var (k1, k2) := (Excess(s1), Excess(s2));
    assert Padded(s1) == (Chars(s1) + Nones(k1 - k2)) + Nones(k2);
    LevCommonSuffix(Chars(s1) + Nones(k1 - k2), Chars(s2), Nones(k2));
  }

  /** Some shortest script from `a` to `b` ends by inserting at least the last `d` characters of `b`. */
  ghost predicate EndsByInserting(a: string, b: string, d: nat) {
    exists j: nat :: j + d <= |b| && Lev(a, b[..j]) + (|b| - j) == Lev(a, b)
  }

  lemma {:induction false} SplitNeverBeats(a: string, b: string, j: nat)
    requires j <= |b|
    ensures Lev(a, b) <= Lev(a, b[..j]) + (|b| - j)
  {
    hide Lev;
    assert b == b[..j] + b[j..] && a == a + "";
    LevConcat(a, b[..j], "", b[j..]);
    LevBase(b[j..]);
  }

  lemma {:induction false} HeavierFirst(s1: string, s2: string)
    requires Excess(s1) >= Excess(s2)
    ensures Lev(s1, s2) <= Lev(Padded(s1), Padded(s2)) <= Lev(s1, s2) + (Excess(s1) - Excess(s2))
    ensures Lev(Padded(s1), Padded(s2)) == Lev(s1, s2) <==> EndsByInserting(s1, s2, Excess(s1) - Excess(s2))
  {
    hide Lev;
    var d := Excess(s1) - Excess(s2);
    ExcessCancels(s1, s2);
    var j := PaddedLower(s1, s2, d);
    SplitNeverBeats(s1, s2, j);
    PaddedUpper(s1, s2, d, |s2|);
    assert s2[..|s2|] == s2;
    if EndsByInserting(s1, s2, d) {
      var i: nat :| i + d <= |s2| && Lev(s1, s2[..i]) + (|s2| - i) == Lev(s1, s2);
      PaddedUpper(s1, s2, d, i);
    }
    if Lev(Padded(s1), Padded(s2)) == Lev(s1, s2) {
      assert j + d <= |s2|;
    }
  }

  lemma {:induction false} ByteMatrixSymmetric(s1: string, s2: string)
    ensures Lev(Padded(s1), Padded(s2)) == Lev(Padded(s2), Padded(s1)) && Lev(s1, s2) == Lev(s2, s1)
  {
    LevSymmetric(Padded(s1), Padded(s2));
    LevSymmetric(s1, s2);
  }

  /** The byte-sized matrix never undershoots, and overshoots by at most the difference in excess bytes. It is exact
      precisely when some shortest script from the string with more of them to the other ends in that many insertions;
      so always when there is no difference, as on ASCII. */
  lemma {:induction false} ByteMatrixAgreement(s1: string, s2: string)
    ensures var (more, fewer) := if Excess(s1) >= Excess(s2) then (s1, s2) else (s2, s1);
            var d := Excess(more) - Excess(fewer);
            && Lev(s1, s2) <= Lev(Padded(s1), Padded(s2)) <= Lev(s1, s2) + d
            && (Lev(Padded(s1), Padded(s2)) == Lev(s1, s2) <==> EndsByInserting(more, fewer, d))
  {
    hide Lev, EndsByInserting, Excess;
    if Excess(s1) >= Excess(s2) {
      HeavierFirst(s1, s2);
    } else {
      ByteMatrixSymmetric(s1, s2);
      HeavierFirst(s2, s1);
    }
  }

  lemma {:induction false} NoInsertionsNeeded(a: string, b: string)
    ensures EndsByInserting(a, b, 0)
  {
    hide Lev;
    assert b[..|b|] == b;
  }

  /** An accented letter is enough to overshoot. */
  lemma {:induction false} ByteMatrixOvershoots()
    ensures Lev("\U{E9}", "") == 1
    ensures Lev(Padded("\U{E9}"), Padded("")) == 2
  {
    var e := "\U{E9}";
    assert e[1..] == "" && Text.ByteLen(e) == 2;
    LevBase(e);
    LevBase(Padded(e));
    assert Padded("") == [];
  }

  lemma {:induction false} ByteMatrixOnAscii(s1: string, s2: string)
    requires Text.IsAscii(s1) && Text.IsAscii(s2)
    ensures Lev(Padded(s1), Padded(s2)) == Lev(s1, s2)
  {
    hide Lev;
    Text.ByteLenOfAscii(s1);
    Text.ByteLenOfAscii(s2);
    NoInsertionsNeeded(s1, s2);
    HeavierFirst(s1, s2);
  }

  // ---------- the candidate searches ----------

  /** `r` is the first of the nearest candidates, or None when no candidate is within the threshold. */
  ghost predicate IsFirstNearest(distance: seq<nat>, threshold: nat, r: Option<nat>) {
    match r
    case None => forall i :: 0 <= i < |distance| ==> distance[i] > threshold
    case Some(k) =>
      && k < |distance| && distance[k] <= threshold
      && (forall i :: 0 <= i < |distance| ==> distance[k] <= distance[i])
      && (forall i :: 0 <= i < k ==> distance[k] < distance[i])
  }

  lemma FirstNearestIsUnique(distance: seq<nat>, threshold: nat, r: Option<nat>, s: Option<nat>)
    requires IsFirstNearest(distance, threshold, r) && IsFirstNearest(distance, threshold, s)
    ensures r == s
  {
    if r.Some? && s.Some? {
      assert !(r.value < s.value) && !(s.value < r.value);
    }
  }

  lemma NearestOfOneMore(distance: seq<nat>, threshold: nat, k: nat, r: Option<nat>)
    requires k < |distance| && IsFirstNearest(distance[..k], threshold, r)
    ensures IsFirstNearest(distance[..k + 1], threshold,
                           if distance[k] <= threshold
                              && (r.None? || distance[k] < distance[r.value]) then Some(k) else r)
  {
    assert distance[..k + 1][k] == distance[k];
    forall i | 0 <= i < k ensures distance[..k + 1][i] == distance[..k][i] {}
  }

  ghost function Distances(input: string, candidates: seq<string>): seq<nat> {
    seq(|candidates|, i requires 0 <= i < |candidates| => Lev(input, candidates[i]))
  }

  ghost function ByteDistances(input: string, candidates: seq<string>): seq<nat> {
    seq(|candidates|, i requires 0 <= i < |candidates| => Lev(Padded(input), Padded(candidates[i])))
  }

  /** `closest_match`: keep the candidates within the threshold, take the first minimum. */
  method ClosestMatch(input: string, candidates: seq<string>, threshold: nat) returns (r: Option<nat>)
    ensures IsFirstNearest(Distances(input, candidates), threshold, r)
  {
    hide Lev;
    r := None;
    var best := 0;
    for k := 0 to |candidates|
      invariant r.Some? ==> r.value < k && best == Lev(input, candidates[r.value])
      invariant IsFirstNearest(Distances(input, candidates)[..k], threshold, r)
    {
      var d := FullMatrix(input, candidates[k]);
      NearestOfOneMore(Distances(input, candidates), threshold, k, r);
      if d <= threshold && (r.None? || d < best) {
        r, best := Some(k), d;
      }
    }
    assert Distances(input, candidates)[..|candidates|] == Distances(input, candidates);
  }

  /** `closest_identity_name`: the nearest name overall, kept only if it is near enough. */
  method ClosestIdentityName(source: string, names: seq<string>) returns (r: Option<nat>)
    ensures IsFirstNearest(Distances(source, names), Max(Max(|source|, 3) / 3, 1), r)
  {
    hide Lev;
    var closest: Option<nat> := None;
    var best := 0;
    for k := 0 to |names|
      invariant closest.None? ==> k == 0
      invariant closest.Some? ==> closest.value < k && best == Lev(source, names[closest.value])
      invariant closest.Some? ==> IsFirstNearest(Distances(source, names)[..k], best, closest)
    {
      var distance := TwoRows(source, names[k]);
      if closest.None? || distance < best {
        closest, best := Some(k), distance;
      }
    }
    assert Distances(source, names)[..|names|] == Distances(source, names);
    var threshold := Max(Max(|source|, 3) / 3, 1);
    r := if closest.Some? && best <= threshold then closest else None;
  }

  /** `suggest_identity` over the sorted stored names. */
  method SuggestIdentity(given: string, stored: seq<string>) returns (r: Option<nat>)
    ensures IsFirstNearest(ByteDistances(given, stored), 2, r)
  {
    hide Lev, Padded;
    r := None;
    var minDistance := 0xFFFF_FFFF;
    for k := 0 to |stored|
      invariant r.None? ==> minDistance == 0xFFFF_FFFF
      invariant r.Some? ==> r.value < k && minDistance == Lev(Padded(given), Padded(stored[r.value]))
      invariant IsFirstNearest(ByteDistances(given, stored)[..k], 2, r)
    {
      var distance := ByteMatrix(given, stored[k]);
      NearestOfOneMore(ByteDistances(given, stored), 2, k, r);
      if distance < minDistance && distance <= 2 {
        r, minDistance := Some(k), distance;
      }
    }
    assert ByteDistances(given, stored)[..|stored|] == ByteDistances(given, stored);
  }

  /** On ASCII names the invoke hint is the one `closest_match` would give with threshold 2. */
  lemma {:induction false} SuggestionsAgreeOnAscii(given: string, stored: seq<string>, r: Option<nat>, s: Option<nat>)
    requires Text.IsAscii(given) && forall i :: 0 <= i < |stored| ==> Text.IsAscii(stored[i])
    requires IsFirstNearest(ByteDistances(given, stored), 2, r)
    requires IsFirstNearest(Distances(given, stored), 2, s)
    ensures r == s
  {
    hide Lev;
    forall i | 0 <= i < |stored|
      ensures ByteDistances(given, stored)[i] == Distances(given, stored)[i]
    {
      ByteMatrixOnAscii(given, stored[i]);
    }
    assert ByteDistances(given, stored) == Distances(given, stored);
    FirstNearestIsUnique(Distances(given, stored), 2, r, s);
  }
}
