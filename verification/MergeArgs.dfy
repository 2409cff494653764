/** `merge_args`: arguments from a file, overridden by the ones given inline. */
module MergeArgs {
  predicate IsFlag(token: string) {
    |token| >= 2 && token[0] == '-' && token[1] == '-'
  }

  /** A flag of the file that also appears inline. */
  predicate IsOverridden(token: string, inline: seq<string>) {
    IsFlag(token) && token in inline
  }

  /** The fate of file token `i` depends only on itself and its predecessor: it goes if it is an overridden flag, or
      the value (not itself a flag) directly after one. */
  predicate Kept(file: seq<string>, inline: seq<string>, i: nat)
    requires i < |file|
  {
    && !IsOverridden(file[i], inline)
    && (IsFlag(file[i]) || i == 0 || !IsOverridden(file[i - 1], inline))
  }

  /** The kept tokens among the first `n`, in order. */
  function KeptTokens(file: seq<string>, inline: seq<string>, n: nat): seq<string>
    requires n <= |file|
  {
    if n == 0 then []
    else KeptTokens(file, inline, n - 1) + (if Kept(file, inline, n - 1) then [file[n - 1]] else [])
  }

  lemma {:induction false} KeptTokensStep(file: seq<string>, inline: seq<string>, i: nat)
    requires i < |file|
    ensures KeptTokens(file, inline, i + 1)
         == if Kept(file, inline, i) then KeptTokens(file, inline, i) + [file[i]] else KeptTokens(file, inline, i)
  {
    assert KeptTokens(file, inline, i) + [] == KeptTokens(file, inline, i);
  }

  lemma NoTokens(file: seq<string>, inline: seq<string>)
    ensures KeptTokens(file, inline, 0) == []
  {
  }

  /** `merge_args` */
  method Merge(file: seq<string>, inline: seq<string>) returns (merged: seq<string>)
    ensures merged == KeptTokens(file, inline, |file|) + inline
  {
    hide IsFlag, KeptTokens;
    var inlineFlags := set a | a in inline && IsFlag(a);
    merged := [];
    assert KeptTokens(file, inline, 0) == [] by { NoTokens(file, inline); }
    var i := 0;
    while i < |file|
      invariant i <= |file|
      invariant merged == KeptTokens(file, inline, i)
      // The walk never stops between an overridden flag and its value.
      invariant 0 < i < |file| && IsOverridden(file[i - 1], inline) ==> IsFlag(file[i])
    {
      var token := file[i];
      KeptTokensStep(file, inline, i);
      if i + 1 < |file| {
        KeptTokensStep(file, inline, i + 1);
      }
      if IsFlag(token) {
        var overridden := token in inlineFlags;
        assert overridden <==> IsOverridden(token, inline);
        var hasValue := i + 1 < |file| && !IsFlag(file[i + 1]);
        if overridden {
          i := if hasValue then i + 2 else i + 1;
        } else {
          merged := merged + [token];
          if hasValue {
            merged := merged + [file[i + 1]];
            i := i + 2;
          } else {
            i := i + 1;
          }
        }
      } else {
        merged := merged + [token];
        i := i + 1;
      }
    }
    merged := merged + inline;
  }

  // ---------- what the merge promises ----------

  /** `sub` selects tokens of `s` in order, at these positions. */
  ghost predicate Selects(s: seq<string>, at: seq<nat>, sub: seq<string>) {
    && |at| == |sub|
    && (forall k :: 0 <= k < |at| ==> at[k] < |s| && sub[k] == s[at[k]])
    && (forall k, l :: 0 <= k < l < |at| ==> at[k] < at[l])
  }

  function KeptPositions(file: seq<string>, inline: seq<string>, n: nat): seq<nat>
    requires n <= |file|
  {
    if n == 0 then []
    else KeptPositions(file, inline, n - 1) + (if Kept(file, inline, n - 1) then [n - 1] else [])
  }

  lemma {:induction false} KeptPositionsAreKept(file: seq<string>, inline: seq<string>, n: nat, i: nat)
    requires n <= |file|
    ensures i in KeptPositions(file, inline, n) <==> i < n && Kept(file, inline, i)
    decreases n
  {
    hide Kept;
    if n > 0 {
      KeptPositionsAreKept(file, inline, n - 1, i);
    }
  }

  /** The file part is a subsequence of the file tokens: the kept ones, each once and in order. */
  lemma {:induction false} FilePartIsASubsequence(file: seq<string>, inline: seq<string>, n: nat)
    requires n <= |file|
    ensures Selects(file, KeptPositions(file, inline, n), KeptTokens(file, inline, n))
    ensures forall k :: 0 <= k < |KeptPositions(file, inline, n)| ==> KeptPositions(file, inline, n)[k] < n
    decreases n
  {
    hide Kept, Selects;
    if n == 0 {
      SelectsNothing(file);
    } else {
      FilePartIsASubsequence(file, inline, n - 1);
      if Kept(file, inline, n - 1) {
        SelectsMore(file, KeptPositions(file, inline, n - 1), KeptTokens(file, inline, n - 1), n - 1);
      } else {
        assert KeptPositions(file, inline, n - 1) + [] == KeptPositions(file, inline, n - 1);
        assert KeptTokens(file, inline, n - 1) + [] == KeptTokens(file, inline, n - 1);
      }
    }
  }

  lemma {:induction false} SelectsNothing(s: seq<string>)
    ensures Selects(s, [], [])
  {
  }

  lemma {:induction false} SelectsMore(s: seq<string>, at: seq<nat>, sub: seq<string>, i: nat)
    requires Selects(s, at, sub) && i < |s| && forall k :: 0 <= k < |at| ==> at[k] < i
    ensures Selects(s, at + [i], sub + [s[i]])
  {
  }

  /** No flag in the file part is given inline as well. */
  lemma {:induction false} FilePartHasNoInlineFlag(file: seq<string>, inline: seq<string>, n: nat, token: string)
    requires n <= |file|
    requires token in KeptTokens(file, inline, n) && IsFlag(token)
    ensures token !in inline
    decreases n
  {
    if token in KeptTokens(file, inline, n - 1) {
      FilePartHasNoInlineFlag(file, inline, n - 1, token);
    }
  }

  datatype Arg = Arg(flag: string, value: string)

  /** The tokens of flag/value pairs. */
  function Tokens(pairs: seq<Arg>): (t: seq<string>)
    ensures |t| == 2 * |pairs|
  {
    if pairs == [] then [] else Tokens(pairs[..|pairs| - 1]) + [pairs[|pairs| - 1].flag, pairs[|pairs| - 1].value]
  }

  /** What `load_args_file` pushes: flags with any values, also values that look like flags. */
  ghost predicate AreFlags(pairs: seq<Arg>) {
    forall k :: 0 <= k < |pairs| ==> IsFlag(pairs[k].flag)
  }

  /** If the value looks like a flag, it is given inline exactly when the pair's flag is. */
  predicate Agrees(pair: Arg, inline: seq<string>) {
    IsFlag(pair.value) ==> (pair.flag in inline <==> pair.value in inline)
  }

  /** The pairs whose flag is not given inline. */
  function NotOverridden(pairs: seq<Arg>, inline: seq<string>): seq<Arg> {
    if pairs == [] then []
    else
      var last := pairs[|pairs| - 1];
      NotOverridden(pairs[..|pairs| - 1], inline) + (if last.flag in inline then [] else [last])
  }

  lemma {:induction false} KeptTokensOfPrefix(file: seq<string>, more: seq<string>, inline: seq<string>, n: nat)
    requires n <= |file|
    ensures KeptTokens(file + more, inline, n) == KeptTokens(file, inline, n)
    decreases n
  {
    if n > 0 {
      KeptTokensOfPrefix(file, more, inline, n - 1);
    }
  }

  /** What the walk keeps of one pair: a value that looks like a flag is judged as one. */
  function PairKept(pair: Arg, inline: seq<string>): seq<string> {
    (if pair.flag in inline then [] else [pair.flag])
    + (if (if IsFlag(pair.value) then pair.value else pair.flag) in inline then [] else [pair.value])
  }

  lemma {:induction false} LastPairKept(pairs: seq<Arg>, inline: seq<string>)
    requires AreFlags(pairs) && pairs != []
    ensures var front := pairs[..|pairs| - 1];
            KeptTokens(Tokens(pairs), inline, |Tokens(pairs)|)
            == KeptTokens(Tokens(front), inline, |Tokens(front)|) + PairKept(pairs[|pairs| - 1], inline)
  {
    hide IsFlag, KeptTokens;
    var (front, last) := (pairs[..|pairs| - 1], pairs[|pairs| - 1]);
    var (before, file) := (Tokens(front), Tokens(pairs));
    var n := |before|;
    KeptTokensOfPrefix(before, [last.flag, last.value], inline, n);
    assert file[n] == last.flag && file[n + 1] == last.value;
    KeptTokensStep(file, inline, n);
    KeptTokensStep(file, inline, n + 1);
  }

  lemma {:induction false} LastPairExpected(pairs: seq<Arg>, inline: seq<string>)
    requires pairs != []
    ensures var last := pairs[|pairs| - 1];
            Tokens(NotOverridden(pairs, inline))
            == Tokens(NotOverridden(pairs[..|pairs| - 1], inline))
               + (if last.flag in inline then [] else [last.flag, last.value])
  {
    var (kept, last) := (NotOverridden(pairs[..|pairs| - 1], inline), pairs[|pairs| - 1]);
    if last.flag in inline {
      assert kept + [] == kept;
    } else {
      assert (kept + [last])[..|kept|] == kept;
    }
  }

  /** Values that are no flags, or agree with theirs, go and stay with their flags. */
  lemma {:induction false} AgreeingPairs(pairs: seq<Arg>, inline: seq<string>)
    requires AreFlags(pairs) && forall k :: 0 <= k < |pairs| ==> Agrees(pairs[k], inline)
    ensures KeptTokens(Tokens(pairs), inline, |Tokens(pairs)|) == Tokens(NotOverridden(pairs, inline))
    decreases |pairs|
  {
    hide IsFlag, KeptTokens, Tokens, NotOverridden;
    if pairs == [] {
      NoPairs(inline);
    } else {
      var last := pairs[|pairs| - 1];
      AgreeingPairs(pairs[..|pairs| - 1], inline);
      LastPairKept(pairs, inline);
      LastPairExpected(pairs, inline);
      assert PairKept(last, inline) == if last.flag in inline then [] else [last.flag, last.value];
    }
  }

  lemma {:induction false} NoPairs(inline: seq<string>)
    ensures KeptTokens(Tokens([]), inline, |Tokens([])|) == Tokens(NotOverridden([], inline)) == []
  {
  }

  /** A value of a pair that is not overridden is expected to stay. */
  lemma {:induction false} ExpectedValue(pairs: seq<Arg>, inline: seq<string>, k: nat)
    requires k < |pairs| && pairs[k].flag !in inline
    ensures pairs[k].value in Tokens(NotOverridden(pairs, inline))
    decreases |pairs|
  {
    hide Tokens, NotOverridden;
    LastPairExpected(pairs, inline);
    if k < |pairs| - 1 {
      ExpectedValue(pairs[..|pairs| - 1], inline, k);
    }
  }

  /** If no value is dropped on its own account, a disagreement only adds tokens. */
  lemma {:induction false} StrayValuesAdd(pairs: seq<Arg>, inline: seq<string>)
    requires AreFlags(pairs)
    requires forall k :: 0 <= k < |pairs| && IsFlag(pairs[k].value) && pairs[k].value in inline ==>
               pairs[k].flag in inline
    ensures |KeptTokens(Tokens(pairs), inline, |Tokens(pairs)|)| >= |Tokens(NotOverridden(pairs, inline))|
    ensures (exists k :: 0 <= k < |pairs| && !Agrees(pairs[k], inline)) ==>
              |KeptTokens(Tokens(pairs), inline, |Tokens(pairs)|)| > |Tokens(NotOverridden(pairs, inline))|
    decreases |pairs|
  {
    hide IsFlag, KeptTokens, Tokens, NotOverridden;
    if pairs == [] {
      NoPairs(inline);
    } else {
      StrayValuesAdd(pairs[..|pairs| - 1], inline);
      LastPairKept(pairs, inline);
      LastPairExpected(pairs, inline);
      if k :| 0 <= k < |pairs| && !Agrees(pairs[k], inline) {
        if k < |pairs| - 1 {
          assert pairs[..|pairs| - 1][k] == pairs[k];
        }
      }
    }
  }

  /** On flag/value pairs the file part is exactly the pairs that are not overridden, in order, if and only if no value
      that looks like a flag disagrees with its flag about being given inline. */
  lemma {:induction false} MergeOfPairs(pairs: seq<Arg>, inline: seq<string>)
    requires AreFlags(pairs)
    ensures KeptTokens(Tokens(pairs), inline, |Tokens(pairs)|) == Tokens(NotOverridden(pairs, inline))
       <==> forall k :: 0 <= k < |pairs| ==> Agrees(pairs[k], inline)
  {
    hide IsFlag, KeptTokens, Tokens, NotOverridden;
    var kept := KeptTokens(Tokens(pairs), inline, |Tokens(pairs)|);
    if forall k :: 0 <= k < |pairs| ==> Agrees(pairs[k], inline) {
      AgreeingPairs(pairs, inline);
    } else if k :| 0 <= k < |pairs| && IsFlag(pairs[k].value) && pairs[k].value in inline && pairs[k].flag !in inline {
      ExpectedValue(pairs, inline, k);
      if pairs[k].value in kept {
        FilePartHasNoInlineFlag(Tokens(pairs), inline, |Tokens(pairs)|, pairs[k].value);
      }
    } else {
      StrayValuesAdd(pairs, inline);
    }
  }

  /** An overridden flag whose value looks like a flag leaves that value behind, on its own. */
  lemma {:induction false} StrayValue(flag: string, value: string, inline: seq<string>)
    requires IsFlag(flag) && IsFlag(value) && flag in inline && value !in inline
    ensures KeptTokens(Tokens([Arg(flag, value)]), inline, 2) == [value]
    ensures Tokens(NotOverridden([Arg(flag, value)], inline)) == []
  {
    var pairs := [Arg(flag, value)];
    assert pairs[..0] == [];
    LastPairKept(pairs, inline);
    LastPairExpected(pairs, inline);
    NoPairs(inline);
  }

  /** For instance the file {"memo": "--x"} with `--memo y` given inline. */
  lemma {:induction false} StrayMemo()
    ensures KeptTokens(Tokens([Arg("--memo", "--x")]), ["--memo", "y"], 2) == ["--x"]
  {
    StrayValue("--memo", "--x", ["--memo", "y"]);
  }

  /** Only two dashes make a flag: any other value, a negative number for one, goes and stays with its flag. */
  lemma {:induction false} ValueGoesWithFlag(flag: string, value: string, inline: seq<string>)
    requires "--" <= flag && !("--" <= value)
    ensures KeptTokens([flag, value], inline, 2) == if flag in inline then [] else [flag, value]
  {
    var pairs := [Arg(flag, value)];
    assert pairs[..0] == [];
    assert Tokens(pairs) == [flag, value];
    LastPairKept(pairs, inline);
    NoPairs(inline);
  }

  /** For instance the file {"amount": -5} with `--amount 7` given inline, and without. */
  lemma {:induction false} NegativeAmount()
    ensures KeptTokens(["--amount", "-5"], ["--amount", "7"], 2) == []
    ensures KeptTokens(["--amount", "-5"], ["--memo", "x"], 2) == ["--amount", "-5"]
  {
    assert "-5"[1] == '5' && "--"[1] == '-';
    ValueGoesWithFlag("--amount", "-5", ["--amount", "7"]);
    ValueGoesWithFlag("--amount", "-5", ["--memo", "x"]);
    assert |"--amount"| != |"--memo"| && |"--amount"| != |"x"|;
  }
}
