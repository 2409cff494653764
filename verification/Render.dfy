/** `render_str`: one pass of `{{variable}}` substitution, and how passes compose. */
module Render {
  import opened Text
  import opened Wrappers

  type Vars = map<string, string>

  /** What a placeholder with this text between its braces becomes. */
  function Fill(inner: string, vars: Vars): string {
    if Trim(inner) in vars then vars[Trim(inner)] else "{{" + inner + "}}"
  }

  function Render(s: string, vars: Vars): string {
    var start := FindTwin(s, '{');
    if start.None? then s
    else
      var after := s[start.value + 2..];
      var end := FindTwin(after, '}');
      if end.None? then s[..start.value] + ("{{" + Render(after, vars))
      else s[..start.value] + (Fill(after[..end.value], vars) + Render(after[end.value + 2..], vars))
  }

  lemma {:induction false} RenderClosed(s: string, start: nat, end: nat, vars: Vars)
    requires FindTwin(s, '{') == Some(start) && FindTwin(s[start + 2..], '}') == Some(end)
    ensures Render(s, vars)
         == s[..start] + (Fill(s[start + 2..][..end], vars) + Render(s[start + 2..][end + 2..], vars))
  {
    hide FindTwin, Fill;
  }

  lemma {:induction false} RenderOpen(s: string, start: nat, vars: Vars)
    requires FindTwin(s, '{') == Some(start) && FindTwin(s[start + 2..], '}').None?
    ensures Render(s, vars) == s[..start] + ("{{" + Render(s[start + 2..], vars))
  {
    hide FindTwin, Fill;
  }

  lemma {:induction false} RenderPlain(s: string, vars: Vars)
    requires FindTwin(s, '{').None?
    ensures Render(s, vars) == s
  {
    hide FindTwin, Fill;
  }

  lemma {:induction false} Regroup(a: string, b: string, c: string, d: string)
    ensures ((a + b) + c) + d == a + (b + (c + d))
  {
  }

  /** A text is what stands before, inside and after its first closed placeholder. */
  lemma {:induction false} Reassemble(s: string, start: nat, end: nat)
    requires FindTwin(s, '{') == Some(start) && FindTwin(s[start + 2..], '}') == Some(end)
    ensures s == s[..start] + (("{{" + s[start + 2..][..end] + "}}") + s[start + 2..][end + 2..])
  {
    hide FindTwin;
    var after := s[start + 2..];
    assert after == (after[..end] + "}}") + after[end + 2..];
    assert s == (s[..start] + "{{") + after;
  }

  /** `render_str` */
  method RenderStr(input: string, vars: Vars) returns (out: string)
    ensures out == Render(input, vars)
  {
    hide Render, FindTwin, Trim;
    out := "";
    var rest := input;
    var start := FindTwin(rest, '{');
    while start.Some?
      invariant start == FindTwin(rest, '{')
      invariant out + Render(rest, vars) == Render(input, vars)
      decreases |rest|
    {
      ghost var (was, before) := (out, rest);
      out := out + rest[..start.value];
      var afterOpen := rest[start.value + 2..];
      var end := FindTwin(afterOpen, '}');
      if end.Some? {
        RenderClosed(rest, start.value, end.value, vars);
        var inner := afterOpen[..end.value];
        var key := Trim(inner);
        if key in vars {
          out := out + vars[key];
        } else {
          out := out + ("{{" + inner + "}}");
        }
        Regroup(was, before[..start.value], Fill(inner, vars), Render(afterOpen[end.value + 2..], vars));
        rest := afterOpen[end.value + 2..];
      } else {
        RenderOpen(rest, start.value, vars);
        out := out + "{{";
        Regroup(was, before[..start.value], "{{", Render(afterOpen, vars));
        rest := afterOpen;
      }
      start := FindTwin(rest, '{');
    }
    RenderPlain(rest, vars);
    out := out + rest;
  }

  // ---------- what rendering does to each kind of text ----------

  lemma {:induction false} TwinAfter(p: string, s: string, i: nat)
    ensures TwinAt(p + s, '{', |p| + i) <==> TwinAt(s, '{', i)
  {
  }

  /** A literal prefix shifts the first opening. */
  lemma {:induction false} FindTwinAfter(p: string, s: string)
    requires forall i :: 0 <= i < |p| ==> !TwinAt(p + s, '{', i)
    ensures FindTwin(s, '{').Some? ==> FindTwin(p + s, '{') == Some(|p| + FindTwin(s, '{').value)
    ensures FindTwin(s, '{').None? ==> FindTwin(p + s, '{').None?
  {
    hide FindTwin, TwinAt;
    var start := FindTwin(s, '{');
    if start.Some? {
      forall i | 0 <= i < |p| + start.value
        ensures !TwinAt(p + s, '{', i)
      {
        if i >= |p| {
          TwinAfter(p, s, i - |p|);
        }
      }
      TwinAfter(p, s, start.value);
      FindTwinIs(p + s, '{', |p| + start.value);
    } else {
      var again := FindTwin(p + s, '{');
      if again.Some? {
        assert again.value >= |p|;
        TwinAfter(p, s, again.value - |p|);
        TwinInside(s, again.value - |p|);
      }
    }
  }

  lemma {:induction false} TwinFits(s: string, c: char, i: nat)
    requires TwinAt(s, c, i)
    ensures i + 2 <= |s|
  {
  }

  lemma {:induction false} TwinInside(s: string, i: nat)
    requires TwinAt(s, '{', i)
    ensures i < |s|
  {
  }

  /** Text in which no placeholder opens is copied. */
  lemma {:induction false} RenderLiteral(p: string, s: string, vars: Vars)
    requires forall i :: 0 <= i < |p| ==> !TwinAt(p + s, '{', i)
    ensures Render(p + s, vars) == p + Render(s, vars)
  {
    hide *;
    FindTwinAfter(p, s);
    var start := FindTwin(s, '{');
    if start.Some? {
      TwinFits(s, '{', start.value);
      var (whole, k) := (p + s, |p| + start.value);
      var after := s[start.value + 2..];
      assert whole[..k] == p + s[..start.value];
      assert whole[k + 2..] == after;
      var end := FindTwin(after, '}');
      if end.Some? {
        RenderClosed(s, start.value, end.value, vars);
        RenderClosed(whole, k, end.value, vars);
      } else {
        RenderOpen(s, start.value, vars);
        RenderOpen(whole, k, vars);
      }
    } else {
      RenderPlain(s, vars);
      RenderPlain(p + s, vars);
    }
  }

  /** `inner` runs up to the first closing braces. */
  ghost predicate IsInner(inner: string) {
    FindTwin(inner + "}}", '}') == Some(|inner|)
  }

  /** A closed placeholder is filled when its trimmed name is known, and copied otherwise. */
  lemma {:induction false} RenderPlaceholder(inner: string, s: string, vars: Vars)
    requires IsInner(inner)
    ensures Render("{{" + inner + "}}" + s, vars)
         == (if Trim(inner) in vars then vars[Trim(inner)] else "{{" + inner + "}}") + Render(s, vars)
  {
    hide Render, FindTwin, Trim;
    var text := "{{" + inner + "}}" + s;
    FindTwinIs(text, '{', 0);
    var after := text[2..];
    assert after == inner + "}}" + s;
    forall i | 0 <= i < |inner|
      ensures !TwinAt(after, '}', i)
    {
      assert !TwinAt(inner + "}}", '}', i);
    }
    FindTwinIs(after, '}', |inner|);
    RenderClosed(text, 0, |inner|, vars);
    assert after[..|inner|] == inner && after[|inner| + 2..] == s;
  }

  lemma {:induction false} BraceFreeIsInner(inner: string)
    requires '}' !in inner
    ensures IsInner(inner)
  {
    hide FindTwin;
    forall i | 0 <= i < |inner|
      ensures !TwinAt(inner + "}}", '}', i)
    {
      assert (inner + "}}")[i] in inner;
    }
    FindTwinIs(inner + "}}", '}', |inner|);
  }

  lemma {:induction false} SpaceHasNoBrace(a: string)
    requires IsSpace(a)
    ensures '{' !in a && '}' !in a
  {
  }

  /** White space around the name inside the braces does not matter: a known name becomes its value, and an unknown one
      stays as it was written. */
  lemma {:induction false} RenderPadded(a: string, name: string, b: string, s: string, vars: Vars)
    requires IsSpace(a) && IsSpace(b)
    requires '{' !in name && '}' !in name && IsTrimmed(name)
    ensures Render("{{" + (a + name + b) + "}}" + s, vars)
         == (if name in vars then vars[name] else "{{" + (a + name + b) + "}}") + Render(s, vars)
  {
    hide Render, FindTwin, Trim, IsInner, IsTrimmed;
    SpaceHasNoBrace(a);
    SpaceHasNoBrace(b);
    TrimOfPadded(a, name, b);
    BraceFreeIsInner(a + name + b);
    RenderPlaceholder(a + name + b, s, vars);
  }

  /** Text in which nothing closes is copied, opening braces included. */
  lemma {:induction false} RenderUnterminated(s: string, vars: Vars)
    requires FindTwin(s, '}').None?
    ensures Render(s, vars) == s
    decreases |s|
  {
    hide Render, FindTwin;
    var start := FindTwin(s, '{');
    if start.Some? {
      var after := s[start.value + 2..];
      var end := FindTwin(after, '}');
      assert end.Some? ==> TwinAt(s, '}', start.value + 2 + end.value);
      RenderOpen(s, start.value, vars);
      RenderUnterminated(after, vars);
      assert s == s[..start.value] + ("{{" + after);
    } else {
      RenderPlain(s, vars);
    }
  }

  // ---------- composition ----------

  ghost predicate BraceFree(s: string) {
    '{' !in s && '}' !in s
  }

  ghost predicate BraceFreeValues(vars: Vars) {
    forall k :: k in vars ==> BraceFree(vars[k])
  }

  /** The text before a first opening does not run into whatever follows it. */
  lemma {:induction false} BeforeOpening(s: string, start: nat, x: string, t: string)
    requires FindTwin(s, '{') == Some(start)
    requires '{' !in x
    ensures forall i :: 0 <= i < |s[..start] + x| ==> !TwinAt(s[..start] + x + t, '{', i)
  {
    hide FindTwin;
    var p := s[..start];
    forall i | 0 <= i < |p + x|
      ensures !TwinAt(p + x + t, '{', i)
    {
      if i < |p| {
        assert !TwinAt(s, '{', i);
      } else {
        assert (p + x + t)[i] in x;
      }
    }
  }

  lemma {:induction false} FirstClose(after: string, end: nat)
    requires FindTwin(after, '}') == Some(end)
    ensures IsInner(after[..end])
  {
    hide FindTwin;
    var inner := after[..end];
    forall i | 0 <= i < end
      ensures !TwinAt(inner + "}}", '}', i)
    {
      assert !TwinAt(after, '}', i);
    }
    FindTwinIs(inner + "}}", '}', end);
  }

  /** Two passes are one: rendering with `v1` and then with `v2` is rendering once with both, `v1` winning, as long
      as no value of `v1` contains a brace. Holds for every input, unterminated and nested braces included. */
  lemma {:induction false} RenderComposes(s: string, v1: Vars, v2: Vars)
    requires BraceFreeValues(v1)
    ensures Render(Render(s, v1), v2) == Render(s, v2 + v1)
    decreases |s|
  {
    hide Render, FindTwin, Trim;
    var both := v2 + v1;
    var start := FindTwin(s, '{');
    if start.None? {
      RenderPlain(s, v1);
      RenderPlain(s, v2);
      RenderPlain(s, both);
      return;
    }
    var p := s[..start.value];
    var after := s[start.value + 2..];
    var end := FindTwin(after, '}');
    if end.None? {
      RenderOpen(s, start.value, v1);
      RenderOpen(s, start.value, v2);
      RenderOpen(s, start.value, both);
      RenderUnterminated(after, v1);
      RenderUnterminated(after, v2);
      RenderUnterminated(after, both);
      assert s == p + ("{{" + after);
    } else {
      var inner := after[..end.value];
      var t := Render(after[end.value + 2..], v1);
      RenderClosed(s, start.value, end.value, v1);
      RenderClosed(s, start.value, end.value, both);
      RenderComposes(after[end.value + 2..], v1, v2);
      FillThenRender(s, start.value, end.value, t, v1, v2);
    }
  }

  /** The second pass over a placeholder that the first pass filled or copied. */
  lemma {:induction false} FillThenRender(s: string, start: nat, end: nat, t: string, v1: Vars, v2: Vars)
    requires BraceFreeValues(v1)
    requires FindTwin(s, '{') == Some(start) && FindTwin(s[start + 2..], '}') == Some(end)
    ensures var inner := s[start + 2..][..end];
            Render(s[..start] + (Fill(inner, v1) + t), v2) == s[..start] + (Fill(inner, v2 + v1) + Render(t, v2))
  {
    hide Render, FindTwin, Trim;
    var p := s[..start];
    var inner := s[start + 2..][..end];
    if Trim(inner) in v1 {
      var value := v1[Trim(inner)];
      BeforeOpening(s, start, value, t);
      RenderLiteral(p + value, t, v2);
      assert p + (value + t) == p + value + t;
      assert p + (value + Render(t, v2)) == p + value + Render(t, v2);
    } else {
      var hole := "{{" + inner + "}}" + t;
      assert p + "" == p;
      BeforeOpening(s, start, "", hole);
      RenderLiteral(p, hole, v2);
      FirstClose(s[start + 2..], end);
      RenderPlaceholder(inner, t, v2);
    }
  }

  /** Rendering with no variables changes nothing. */
  lemma {:induction false} RenderNothing(s: string)
    ensures Render(s, map[]) == s
    decreases |s|
  {
    hide Render, FindTwin, Trim;
    var start := FindTwin(s, '{');
    if start.None? {
      RenderPlain(s, map[]);
      return;
    }
    var after := s[start.value + 2..];
    var end := FindTwin(after, '}');
    if end.Some? {
      RenderClosed(s, start.value, end.value, map[]);
      RenderNothing(after[end.value + 2..]);
      Reassemble(s, start.value, end.value);
    } else {
      RenderOpen(s, start.value, map[]);
      RenderNothing(after);
      assert s == s[..start.value] + ("{{" + after);
    }
  }

  /** Rendering twice with the same variables is rendering once. */
  lemma {:induction false} RenderIdempotent(s: string, vars: Vars)
    requires BraceFreeValues(vars)
    ensures Render(Render(s, vars), vars) == Render(s, vars)
  {
    hide Render;
    RenderComposes(s, vars, vars);
    assert vars + vars == vars;
  }

  lemma {:induction false} RenderOneVariable(name: string, value: string, vars: Vars)
    requires name != "" && BraceFree(name) && Trim(name) == name
    requires name in vars && vars[name] == value
    ensures Render("{{" + name + "}}", vars) == value
  {
    hide Render, FindTwin, Trim;
    forall i | 0 <= i < |name|
      ensures !TwinAt(name + "}}", '}', i)
    {
      assert (name + "}}")[i] in name;
    }
    FindTwinIs(name + "}}", '}', |name|);
    RenderPlaceholder(name, "", vars);
    RenderPlain("", vars);
    assert "{{" + name + "}}" + "" == "{{" + name + "}}";
  }

  /** Names that a placeholder can refer to. */
  ghost predicate IsName(name: string) {
    name != "" && BraceFree(name) && Trim(name) == name
  }

  /** The brace condition is needed: when the value of one variable is a placeholder of another, two passes fill it and
      one pass does not. */
  lemma {:induction false} BracesBreakComposition(a: string, b: string, x: string)
    requires IsName(a) && IsName(b)
    ensures var hole := "{{" + b + "}}";
            var v1: Vars := map[a := hole];
            var v2: Vars := map[b := x];
            && Render(Render("{{" + a + "}}", v1), v2) == x
            && Render("{{" + a + "}}", v2 + v1) == hole
  {
    hide Render, FindTwin, Trim, BraceFree;
    var hole := "{{" + b + "}}";
    var v1: Vars := map[a := hole];
    var v2: Vars := map[b := x];
    RenderOneVariable(a, hole, v1);
    RenderOneVariable(a, hole, v2 + v1);
    RenderOneVariable(b, x, v2);
  }
}
