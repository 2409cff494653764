/** `render_preset`: cutting a rendered workflow into plain lines and marked steps, and splicing overrides in. */
module Preset {
  import opened Text
  import Render
  import Indent
  import opened Wrappers

  const STEP_MARKER := "# ci-init-step: "

  // ---------- cutting ----------

  /** A line outside every marked step; or a step: its marker line and the blank lines after it (which the output
      drops), and the lines of the step itself. */
  datatype Segment = Plain(line: string) | Step(marker: string, dropped: seq<string>, indent: nat, block: seq<string>)

  function MarkerOf(line: string): Option<string> {
    var t := TrimStart(line);
    if STEP_MARKER <= t then Some(Trim(t[|STEP_MARKER|..])) else None
  }

  /** The first non-blank line from `i` on. */
  function SkipBlank(lines: seq<string>, i: nat): (k: nat)
    requires i <= |lines|
    ensures i <= k <= |lines|
    decreases |lines| - i
  {
    hide IsBlank;
    if i < |lines| && IsBlank(lines[i]) then SkipBlank(lines, i + 1) else i
  }

  /** The line belongs to a step that starts at this indentation. */
  predicate Inside(line: string, indent: nat) {
    IsBlank(line) || ByteIndent(line) > indent
  }

  /** The first line from `i` on that is outside the step. */
  function StepEnd(lines: seq<string>, i: nat, indent: nat): (k: nat)
    requires i <= |lines|
    ensures i <= k <= |lines|
    decreases |lines| - i
  {
    hide Inside;
    if i < |lines| && Inside(lines[i], indent) then StepEnd(lines, i + 1, indent) else i
  }

  predicate StartsItem(line: string) {
    Indent.IsItem(TrimStart(line))
  }

  /** The segments of the lines from `i` on, up to the first misplaced marker. Overrides play no part. */
  datatype Cut = Cut(segments: seq<Segment>, error: Option<Indent.Error>)

  function Consed(seg: Segment, rest: Cut): Cut {
    Cut([seg] + rest.segments, rest.error)
  }

  function CutFrom(lines: seq<string>, i: nat): Cut
    requires i <= |lines|
    decreases |lines| - i
  {
    if i == |lines| then Cut([], None)
    else
      var marker := MarkerOf(lines[i]);
      if marker.None? then
        Consed(Plain(lines[i]), CutFrom(lines, i + 1))
      else
        var start := SkipBlank(lines, i + 1);
        if start == |lines| then Cut([], Some(Indent.MarkerWithoutStep(marker.value)))
        else if !StartsItem(lines[start]) then Cut([], Some(Indent.MarkerNotAtStep(marker.value)))
        else
          var indent := ByteIndent(lines[start]);
          var end := StepEnd(lines, start + 1, indent);
          Consed(Step(marker.value, lines[i..start], indent, lines[start..end]), CutFrom(lines, end))
  }

  // ---------- splicing ----------

  /** What one segment contributes. `overrides` holds the override files by marker. */
  function Piece(seg: Segment, overrides: map<string, string>, vars: Render.Vars): Indent.Result<string> {
    match seg
    case Plain(line) => Indent.Ok(line)
    case Step(marker, _, indent, block) =>
      if marker in overrides then Indent.IndentLines(Lines(Render.Render(overrides[marker], vars)), indent)
      else Indent.Ok(Concat(block))
  }

  /** All pieces in order; the first error wins, and a cutting error comes after the pieces before it. */
  function Splice(cut: Cut, overrides: map<string, string>, vars: Render.Vars): Indent.Result<string>
    decreases |cut.segments|
  {
    if cut.segments == [] then
      if cut.error.None? then Indent.Ok("") else Indent.Err(cut.error.value)
    else
      var piece := Piece(cut.segments[0], overrides, vars);
      if piece.Err? then piece
      else
        var rest := Splice(cut.(segments := cut.segments[1..]), overrides, vars);
        if rest.Err? then rest else Indent.Ok(piece.value + rest.value)
  }

  /** Continue with `rest` after `output`. */
  function Prepend(output: string, rest: Indent.Result<string>): Indent.Result<string> {
    if rest.Err? then rest else Indent.Ok(output + rest.value)
  }

  lemma {:induction false} SpliceCons(seg: Segment, rest: Cut, overrides: map<string, string>, vars: Render.Vars)
    ensures var cut := Consed(seg, rest);
            var piece := Piece(seg, overrides, vars);
            Splice(cut, overrides, vars)
            == if piece.Err? then piece else Prepend(piece.value, Splice(rest, overrides, vars))
  {
    hide Piece;
    var cut := Consed(seg, rest);
    assert cut.segments[1..] == rest.segments;
    assert cut.(segments := cut.segments[1..]) == rest;
  }

  lemma {:induction false} PrependTwice(a: string, b: string, r: Indent.Result<string>)
    ensures Prepend(a, Prepend(b, r)) == Prepend(a + b, r)
  {
    if r.Ok? {
      assert a + (b + r.value) == (a + b) + r.value;
    }
  }

  lemma {:induction false} CutPlain(lines: seq<string>, i: nat)
    requires i < |lines| && MarkerOf(lines[i]).None?
    ensures CutFrom(lines, i) == Consed(Plain(lines[i]), CutFrom(lines, i + 1))
  {
    hide MarkerOf, Consed;
  }

  lemma {:induction false} CutStep(lines: seq<string>, i: nat, start: nat, end: nat)
    requires i < |lines| && MarkerOf(lines[i]).Some? && start == SkipBlank(lines, i + 1)
    requires start < |lines| && StartsItem(lines[start]) && end == StepEnd(lines, start + 1, ByteIndent(lines[start]))
    ensures CutFrom(lines, i)
         == Consed(Step(MarkerOf(lines[i]).value, lines[i..start], ByteIndent(lines[start]), lines[start..end]),
                   CutFrom(lines, end))
  {
    hide Consed, MarkerOf, SkipBlank, StepEnd, StartsItem, ByteIndent;
  }

  /** `render_preset`; `overrides` maps the marker of a step to the contents of its override file. */
  method RenderPreset(provider: string, contents: string, vars: Render.Vars, overrides: map<string, string>)
    returns (r: Indent.Result<string>)
    ensures var rendered := Render.Render(contents, vars);
            r == if provider != "github" then Indent.Ok(rendered)
                 else Splice(CutFrom(SplitInclusive(rendered), 0), overrides, vars)
  {
    hide *;
    var rendered := Render.RenderStr(contents, vars);
    if provider != "github" || !Contains(rendered, STEP_MARKER) {
      if provider == "github" {
        GateIsHarmless(rendered, overrides, vars);
      }
      return Indent.Ok(rendered);
    }
    var lines := SplitInclusive(rendered);
    ghost var whole := Splice(CutFrom(lines, 0), overrides, vars);
    var output := "";
    var index := 0;
    PrependNothing(whole);
    while index < |lines|
      invariant index <= |lines|
      invariant Prepend(output, Splice(CutFrom(lines, index), overrides, vars)) == whole
      decreases |lines| - index
    {
      var marker := MarkerOf(lines[index]);
      if marker.None? {
        CutPlain(lines, index);
        SpliceCons(Plain(lines[index]), CutFrom(lines, index + 1), overrides, vars);
        PiecePlain(lines[index], overrides, vars);
        PrependTwice(output, lines[index], Splice(CutFrom(lines, index + 1), overrides, vars));
        output := output + lines[index];
        index := index + 1;
        continue;
      }
      var stepIndex := index + 1;
      while stepIndex < |lines| && IsBlank(lines[stepIndex])
        invariant index < stepIndex <= |lines|
        invariant SkipBlank(lines, stepIndex) == SkipBlank(lines, index + 1)
      {
        SkipBlankStep(lines, stepIndex);
        stepIndex := stepIndex + 1;
      }
      SkipBlankStep(lines, stepIndex);
      if stepIndex == |lines| {
        CutError(lines, index);
        SpliceError(CutFrom(lines, index), overrides, vars, output);
        return Indent.Err(Indent.MarkerWithoutStep(marker.value));
      }
      var stepIndent := ByteIndent(lines[stepIndex]);
      if !StartsItem(lines[stepIndex]) {
        CutError(lines, index);
        SpliceError(CutFrom(lines, index), overrides, vars, output);
        return Indent.Err(Indent.MarkerNotAtStep(marker.value));
      }
      var end := stepIndex + 1;
      while end < |lines| && Inside(lines[end], stepIndent)
        invariant stepIndex < end <= |lines|
        invariant StepEnd(lines, end, stepIndent) == StepEnd(lines, stepIndex + 1, stepIndent)
      {
        StepEndStep(lines, end, stepIndent);
        end := end + 1;
      }
      StepEndStep(lines, end, stepIndent);
      ghost var seg := Step(marker.value, lines[index..stepIndex], stepIndent, lines[stepIndex..end]);
      CutStep(lines, index, stepIndex, end);
      SpliceCons(seg, CutFrom(lines, end), overrides, vars);
      PieceStep(seg, overrides, vars);
      var piece: string;
      if marker.value in overrides {
        var overrideRendered := Render.RenderStr(overrides[marker.value], vars);
        var indented := Indent.IndentStep(overrideRendered, stepIndent);
        if indented.Err? {
          PrependError(output, indented);
          return indented;
        }
        piece := indented.value;
      } else {
        piece := Concat(lines[stepIndex..end]);
      }
      PrependTwice(output, piece, Splice(CutFrom(lines, end), overrides, vars));
      output := output + piece;
      index := end;
    }
    SpliceEnd(lines, overrides, vars, output);
    r := Indent.Ok(output);
  }

  predicate OccursAt(s: string, pat: string, i: nat) {
    i + |pat| <= |s| && s[i..i + |pat|] == pat
  }

  /** `str::contains`. */
  predicate Contains(s: string, pat: string) {
    exists i :: 0 <= i <= |s| && OccursAt(s, pat, i)
  }

  lemma {:induction false} PrependNothing(r: Indent.Result<string>)
    ensures Prepend("", r) == r
  {
    if r.Ok? {
      assert "" + r.value == r.value;
    }
  }

  lemma {:induction false} PrependError(output: string, r: Indent.Result<string>)
    requires r.Err?
    ensures Prepend(output, r) == r
  {
  }

  lemma {:induction false} PiecePlain(line: string, overrides: map<string, string>, vars: Render.Vars)
    ensures Piece(Plain(line), overrides, vars) == Indent.Ok(line)
  {
  }

  lemma {:induction false} PieceStep(seg: Segment, overrides: map<string, string>, vars: Render.Vars)
    requires seg.Step?
    ensures Piece(seg, overrides, vars)
         == if seg.marker in overrides
            then Indent.IndentLines(Lines(Render.Render(overrides[seg.marker], vars)), seg.indent)
            else Indent.Ok(Concat(seg.block))
  {
  }

  lemma {:induction false} SkipBlankStep(lines: seq<string>, i: nat)
    requires i <= |lines|
    ensures SkipBlank(lines, i) == if i < |lines| && IsBlank(lines[i]) then SkipBlank(lines, i + 1) else i
  {
    hide IsBlank;
  }

  lemma {:induction false} StepEndStep(lines: seq<string>, i: nat, indent: nat)
    requires i <= |lines|
    ensures StepEnd(lines, i, indent)
         == if i < |lines| && Inside(lines[i], indent) then StepEnd(lines, i + 1, indent) else i
  {
    hide Inside;
  }

  lemma {:induction false} CutError(lines: seq<string>, i: nat)
    requires i < |lines| && MarkerOf(lines[i]).Some?
    ensures var start := SkipBlank(lines, i + 1);
            && (start == |lines| ==>
                  CutFrom(lines, i) == Cut([], Some(Indent.MarkerWithoutStep(MarkerOf(lines[i]).value))))
            && (start < |lines| && !StartsItem(lines[start]) ==>
                  CutFrom(lines, i) == Cut([], Some(Indent.MarkerNotAtStep(MarkerOf(lines[i]).value))))
  {
    hide MarkerOf, SkipBlank, StepEnd, StartsItem, ByteIndent;
  }

  lemma {:induction false} SpliceError(cut: Cut, overrides: map<string, string>, vars: Render.Vars, output: string)
    requires cut.segments == [] && cut.error.Some?
    ensures Prepend(output, Splice(cut, overrides, vars)) == Indent.Err(cut.error.value)
  {
  }

  lemma {:induction false} SpliceEnd(lines: seq<string>, overrides: map<string, string>, vars: Render.Vars,
                                     output: string)
    ensures Prepend(output, Splice(CutFrom(lines, |lines|), overrides, vars)) == Indent.Ok(output)
  {
    assert output + "" == output;
  }

  // ---------- what the cut guarantees ----------

  /** The lines a segment was cut from. */
  function SourceLines(seg: Segment): seq<string> {
    if seg.Plain? then [seg.line] else seg.dropped + seg.block
  }

  function AllSourceLines(segs: seq<Segment>): seq<string> {
    if segs == [] then [] else SourceLines(segs[0]) + AllSourceLines(segs[1..])
  }

  /** A plain line carries no marker. A step drops its marker line and blank lines only; it starts with a list item
      and holds just blank or deeper-indented lines. */
  ghost predicate IsRight(seg: Segment) {
    match seg
    case Plain(line) => MarkerOf(line).None?
    case Step(marker, dropped, indent, block) =>
      && dropped != [] && MarkerOf(dropped[0]) == Some(marker)
      && (forall k :: 0 < k < |dropped| ==> IsBlank(dropped[k]))
      && block != [] && StartsItem(block[0]) && ByteIndent(block[0]) == indent
      && (forall k :: 0 < k < |block| ==> IsBlank(block[k]) || ByteIndent(block[k]) > indent)
  }

  lemma {:induction false} SourceCons(seg: Segment, rest: Cut)
    ensures AllSourceLines(Consed(seg, rest).segments) == SourceLines(seg) + AllSourceLines(rest.segments)
  {
    hide SourceLines;
    assert Consed(seg, rest).segments[1..] == rest.segments;
  }

  /** The lines skipped are blank, and the line stopped at is not. */
  lemma {:induction false} SkipBlankStops(lines: seq<string>, i: nat)
    requires i <= |lines|
    ensures var k := SkipBlank(lines, i);
            (forall j :: i <= j < k ==> IsBlank(lines[j])) && (k < |lines| ==> !IsBlank(lines[k]))
    decreases |lines| - i
  {
    hide IsBlank;
    if i < |lines| && IsBlank(lines[i]) {
      SkipBlankStops(lines, i + 1);
    }
  }

  /** A step extends as far as it can: its lines are blank or indented deeper, and the line after it is neither. */
  lemma {:induction false} StepEndStops(lines: seq<string>, i: nat, indent: nat)
    requires i <= |lines|
    ensures var k := StepEnd(lines, i, indent);
            && (forall j :: i <= j < k ==> IsBlank(lines[j]) || ByteIndent(lines[j]) > indent)
            && (k < |lines| ==> !IsBlank(lines[k]) && ByteIndent(lines[k]) <= indent)
    decreases |lines| - i
  {
    hide IsBlank, ByteIndent;
    if i < |lines| && Inside(lines[i], indent) {
      StepEndStops(lines, i + 1, indent);
    }
  }

  lemma {:induction false} StepIsRight(lines: seq<string>, i: nat, start: nat, end: nat)
    requires i < |lines| && MarkerOf(lines[i]).Some? && start == SkipBlank(lines, i + 1)
    requires start < |lines| && StartsItem(lines[start]) && end == StepEnd(lines, start + 1, ByteIndent(lines[start]))
    ensures IsRight(Step(MarkerOf(lines[i]).value, lines[i..start], ByteIndent(lines[start]), lines[start..end]))
  {
    hide MarkerOf, SkipBlank, StepEnd, StartsItem, ByteIndent, IsBlank;
    SkipBlankStops(lines, i + 1);
    StepEndStops(lines, start + 1, ByteIndent(lines[start]));
  }

  ghost predicate AllRight(segs: seq<Segment>) {
    forall k :: 0 <= k < |segs| ==> IsRight(segs[k])
  }

  lemma {:induction false} AllRightCons(seg: Segment, rest: Cut)
    requires IsRight(seg) && AllRight(rest.segments)
    ensures AllRight(Consed(seg, rest).segments)
  {
    hide IsRight;
  }

  lemma {:induction false} NextSegment(lines: seq<string>, i: nat) returns (seg: Segment, end: nat)
    requires i < |lines| && CutFrom(lines, i).error.None?
    ensures i < end <= |lines|
    ensures CutFrom(lines, i) == Consed(seg, CutFrom(lines, end))
    ensures SourceLines(seg) == lines[i..end]
    ensures IsRight(seg)
  {
    hide *;
    var marker := MarkerOf(lines[i]);
    if marker.None? {
      seg, end := Plain(lines[i]), i + 1;
      CutPlain(lines, i);
      PlainIsRight(lines[i]);
      assert lines[i..i + 1] == [lines[i]];
    } else {
      CutError(lines, i);
      var start := SkipBlank(lines, i + 1);
      end := StepEnd(lines, start + 1, ByteIndent(lines[start]));
      seg := Step(marker.value, lines[i..start], ByteIndent(lines[start]), lines[start..end]);
      CutStep(lines, i, start, end);
      StepIsRight(lines, i, start, end);
      assert lines[i..end] == lines[i..start] + lines[start..end];
    }
    SourceOf(seg);
  }

  /** When no marker is misplaced, the segments partition the lines: every line is in exactly one segment, in order,
      and every segment is right. */
  lemma {:induction false} CutPartitions(lines: seq<string>, i: nat)
    requires i <= |lines| && CutFrom(lines, i).error.None?
    ensures AllSourceLines(CutFrom(lines, i).segments) == lines[i..]
    ensures AllRight(CutFrom(lines, i).segments)
    decreases |lines| - i
  {
    hide *;
    if i == |lines| {
      CutEnd(lines);
      assert lines[i..] == [];
    } else {
      var seg, end := NextSegment(lines, i);
      var rest := CutFrom(lines, end);
      ConsedError(seg, rest);
      CutPartitions(lines, end);
      SourceCons(seg, rest);
      AllRightCons(seg, rest);
      assert lines[i..end] + lines[end..] == lines[i..];
    }
  }

  lemma {:induction false} CutEnd(lines: seq<string>)
    ensures AllSourceLines(CutFrom(lines, |lines|).segments) == [] && AllRight(CutFrom(lines, |lines|).segments)
  {
  }

  lemma {:induction false} SourceOf(seg: Segment)
    ensures SourceLines(seg) == if seg.Plain? then [seg.line] else seg.dropped + seg.block
  {
  }

  lemma {:induction false} ConsedError(seg: Segment, rest: Cut)
    ensures Consed(seg, rest).error == rest.error
  {
  }

  lemma {:induction false} PlainIsRight(line: string)
    requires MarkerOf(line).None?
    ensures IsRight(Plain(line))
  {
  }

  // ---------- the early return ----------

  lemma {:induction false} OccursInside(a: string, s: string, b: string, pat: string)
    requires Contains(s, pat)
    ensures Contains(a + s + b, pat)
  {
    var i :| 0 <= i <= |s| && OccursAt(s, pat, i);
    var whole := a + s + b;
    assert whole[|a| + i..|a| + i + |pat|] == s[i..i + |pat|];
    assert OccursAt(whole, pat, |a| + i);
  }

  lemma {:induction false} MarkedLineContains(line: string)
    requires MarkerOf(line).Some?
    ensures Contains(line, STEP_MARKER)
  {
    hide TrimStart, Trim;
    TrimStartCuts(line);
    var t := TrimStart(line);
    var i := |line| - |t|;
    assert line[i..i + |STEP_MARKER|] == STEP_MARKER;
    assert OccursAt(line, STEP_MARKER, i);
  }

  lemma {:induction false} PartOfConcat(parts: seq<string>, k: nat)
    requires k < |parts|
    ensures Concat(parts) == Concat(parts[..k]) + parts[k] + Concat(parts[k + 1..])
  {
    ConcatAppend(parts[..k], parts[k..]);
    assert parts == parts[..k] + parts[k..];
    assert parts[k..][1..] == parts[k + 1..];
  }

  lemma {:induction false} UnmarkedLines(lines: seq<string>, i: nat, overrides: map<string, string>, vars: Render.Vars)
    requires i <= |lines| && forall k :: 0 <= k < |lines| ==> MarkerOf(lines[k]).None?
    ensures Splice(CutFrom(lines, i), overrides, vars) == Indent.Ok(Concat(lines[i..]))
    decreases |lines| - i
  {
    hide *;
    if i == |lines| {
      NothingLeft(lines, overrides, vars);
      assert lines[i..] == [];
    } else {
      UnmarkedLines(lines, i + 1, overrides, vars);
      CutPlain(lines, i);
      SpliceCons(Plain(lines[i]), CutFrom(lines, i + 1), overrides, vars);
      PiecePlain(lines[i], overrides, vars);
      PrependOk(lines[i], Concat(lines[i + 1..]));
      ConcatUnfold(lines, i);
    }
  }

  lemma {:induction false} NothingLeft(lines: seq<string>, overrides: map<string, string>, vars: Render.Vars)
    ensures Splice(CutFrom(lines, |lines|), overrides, vars) == Indent.Ok(Concat([]))
  {
  }

  lemma {:induction false} PrependOk(a: string, b: string)
    ensures Prepend(a, Indent.Ok(b)) == Indent.Ok(a + b)
  {
  }

  lemma {:induction false} ConcatUnfold(parts: seq<string>, i: nat)
    requires i < |parts|
    ensures Concat(parts[i..]) == parts[i] + Concat(parts[i + 1..])
  {
    assert parts[i..][1..] == parts[i + 1..];
  }

  /** A text without the marker's words has no marked line, and splicing gives it back. */
  lemma {:induction false} GateIsHarmless(text: string, overrides: map<string, string>, vars: Render.Vars)
    requires !Contains(text, STEP_MARKER)
    ensures Splice(CutFrom(SplitInclusive(text), 0), overrides, vars) == Indent.Ok(text)
  {
    hide *;
    var lines := SplitInclusive(text);
    ConcatOfLines(text);
    forall k | 0 <= k < |lines|
      ensures MarkerOf(lines[k]).None?
    {
      if MarkerOf(lines[k]).Some? {
        MarkedLineContains(lines[k]);
        PartOfConcat(lines, k);
        OccursInside(Concat(lines[..k]), lines[k], Concat(lines[k + 1..]), STEP_MARKER);
      }
    }
    UnmarkedLines(lines, 0, overrides, vars);
    assert lines[0..] == lines;
  }

  // ---------- markers, items and the end of a step, read off the lines ----------

  /** A marker line is white space, the marker's words and the name, with any white space around the name: the end of
      the line, for one. */
  lemma {:induction false} MarkerOfPadded(before: string, a: string, name: string, b: string)
    requires IsSpace(before) && IsSpace(a) && IsSpace(b) && IsTrimmed(name)
    ensures MarkerOf(before + ("# ci-init-step: " + (a + name + b))) == Some(name)
  {
    hide Trim, TrimStart, IsTrimmed;
    var t := STEP_MARKER + (a + name + b);
    TrimStartOfPadded(before, t);
    assert t[|STEP_MARKER|..] == a + name + b;
    TrimOfPadded(a, name, b);
  }

  /** And there are no others. */
  lemma {:induction false} MarkerShape(line: string) returns (before: string, a: string, b: string)
    requires MarkerOf(line).Some?
    ensures IsSpace(before) && IsSpace(a) && IsSpace(b) && IsTrimmed(MarkerOf(line).value)
    ensures line == before + ("# ci-init-step: " + (a + MarkerOf(line).value + b))
  {
    hide Trim, TrimStart, IsTrimmed, IsWhitespace;
    TrimStartCuts(line);
    var t := TrimStart(line);
    before := line[..|line| - |t|];
    var rest := t[|STEP_MARKER|..];
    a, b := TrimCuts(rest);
    assert t == STEP_MARKER + rest;
    assert line == before + t;
  }

  /** A list item is white space, a dash and a space; the white space is its indentation, and it carries no marker. */
  lemma {:induction false} ItemLine(before: string, rest: string)
    requires IsSpace(before)
    ensures var line := before + ("- " + rest);
            && StartsItem(line) && !IsBlank(line) && MarkerOf(line).None? && ByteIndent(line) == ByteLen(before)
    decreases |before|
  {
    hide TrimStart, TrimEnd, Trim, IsBlank, IsWhitespace;
    var t := "- " + rest;
    assert !IsWhitespace(t[0]) by {
      WhitespaceExactly('-');
    }
    TrimStartOfPadded(before, t);
    BlankMeansWhitespace(before + t);
    assert STEP_MARKER[0] == '#' && t[0] == '-';
    IndentOfPadded(before, t);
  }

  lemma {:induction false} IndentOfPadded(before: string, t: string)
    requires IsSpace(before) && t != "" && !IsWhitespace(t[0])
    ensures ByteIndent(before + t) == ByteLen(before)
    decreases |before|
  {
    hide IsWhitespace, Utf8Len;
    if before == "" {
      assert before + t == t;
    } else {
      assert (before + t)[1..] == before[1..] + t;
      IndentOfPadded(before[1..], t);
    }
  }

  lemma {:induction false} SkipBlankIs(lines: seq<string>, i: nat, k: nat)
    requires i <= k < |lines| && !IsBlank(lines[k]) && forall j :: i <= j < k ==> IsBlank(lines[j])
    ensures SkipBlank(lines, i) == k
  {
    hide IsBlank;
    SkipBlankStops(lines, i);
  }

  lemma {:induction false} StepEndIs(lines: seq<string>, i: nat, k: nat, indent: nat)
    requires i <= k < |lines| && !IsBlank(lines[k]) && ByteIndent(lines[k]) <= indent
    requires forall j :: i <= j < k ==> IsBlank(lines[j]) || ByteIndent(lines[j]) > indent
    ensures StepEnd(lines, i, indent) == k
  {
    hide IsBlank, ByteIndent;
    StepEndStops(lines, i, indent);
  }

  /** The step of a marker ends before the first line that is neither blank nor indented deeper than the step, whatever
      that line is; if it carries no marker it goes to the output as it is, whatever overrides there are. */
  lemma {:induction false} NextItemStays(lines: seq<string>, i: nat, start: nat, end: nat,
                                         overrides: map<string, string>, vars: Render.Vars)
    requires i < start < end < |lines| && MarkerOf(lines[i]).Some?
    requires forall j :: i < j < start ==> IsBlank(lines[j])
    requires !IsBlank(lines[start]) && StartsItem(lines[start])
    requires forall j :: start < j < end ==> IsBlank(lines[j]) || ByteIndent(lines[j]) > ByteIndent(lines[start])
    requires !IsBlank(lines[end]) && ByteIndent(lines[end]) <= ByteIndent(lines[start]) && MarkerOf(lines[end]).None?
    ensures var marker := MarkerOf(lines[i]).value;
            var piece := if marker in overrides
                         then Indent.IndentLines(Lines(Render.Render(overrides[marker], vars)),
                                                 ByteIndent(lines[start]))
                         else Indent.Ok(Concat(lines[start..end]));
            Splice(CutFrom(lines, i), overrides, vars)
            == if piece.Err? then piece
               else Prepend(piece.value + lines[end], Splice(CutFrom(lines, end + 1), overrides, vars))
  {
    hide *;
    SkipBlankIs(lines, i + 1, start);
    StepEndIs(lines, start + 1, end, ByteIndent(lines[start]));
    CutStep(lines, i, start, end);
    var seg := Step(MarkerOf(lines[i]).value, lines[i..start], ByteIndent(lines[start]), lines[start..end]);
    SpliceCons(seg, CutFrom(lines, end), overrides, vars);
    PieceStep(seg, overrides, vars);
    CutPlain(lines, end);
    SpliceCons(Plain(lines[end]), CutFrom(lines, end + 1), overrides, vars);
    PiecePlain(lines[end], overrides, vars);
    var piece := Piece(seg, overrides, vars);
    if piece.Ok? {
      PrependTwice(piece.value, lines[end], Splice(CutFrom(lines, end + 1), overrides, vars));
    }
  }

  /** Two list items at the same indentation, the first one marked: an override of the marker takes the place of the
      first item alone. */
  lemma {:induction false} SecondItemStays(before: string, name: string, x: string, y: string,
                                           overrides: map<string, string>, vars: Render.Vars)
    requires IsSpace(before) && IsTrimmed(name) && name in overrides
    ensures var lines := [before + ("# ci-init-step: " + ("" + name + ['\n'])), before + ("- " + x),
                          before + ("- " + y)];
            var piece := Indent.IndentLines(Lines(Render.Render(overrides[name], vars)), ByteLen(before));
            Splice(CutFrom(lines, 0), overrides, vars)
            == if piece.Err? then piece else Indent.Ok(piece.value + (before + ("- " + y)))
  {
    hide *;
    NewlineIsSpace();
    MarkerOfPadded(before, "", name, ['\n']);
    ItemLine(before, x);
    ItemLine(before, y);
    var lines := [before + ("# ci-init-step: " + ("" + name + ['\n'])), before + ("- " + x), before + ("- " + y)];
    NextItemStays(lines, 0, 1, 2, overrides, vars);
    var piece := Indent.IndentLines(Lines(Render.Render(overrides[name], vars)), ByteLen(before));
    if piece.Ok? {
      SpliceEnd(lines, overrides, vars, piece.value + lines[2]);
    }
  }

  lemma {:induction false} NewlineIsSpace()
    ensures IsSpace("") && IsSpace(['\n'])
  {
  }

  // ---------- locality of overrides ----------

  function Pieces(segs: seq<Segment>, overrides: map<string, string>, vars: Render.Vars): seq<Indent.Result<string>> {
    seq(|segs|, k requires 0 <= k < |segs| => Piece(segs[k], overrides, vars))
  }

  /** Overrides that agree everywhere but at one marker give the same pieces everywhere but at that marker's steps. */
  lemma {:induction false} OverridesAreLocal(segs: seq<Segment>, o1: map<string, string>, o2: map<string, string>,
                                             marker: string,
                                             vars: Render.Vars)
    requires forall m :: m != marker ==> (m in o1 <==> m in o2) && (m in o1 ==> o1[m] == o2[m])
    ensures |Pieces(segs, o1, vars)| == |Pieces(segs, o2, vars)| == |segs|
    ensures forall k :: 0 <= k < |segs| && !(segs[k].Step? && segs[k].marker == marker) ==>
              Pieces(segs, o1, vars)[k] == Pieces(segs, o2, vars)[k]
  {
    hide Piece;
    forall k | 0 <= k < |segs| && !(segs[k].Step? && segs[k].marker == marker)
      ensures Pieces(segs, o1, vars)[k] == Pieces(segs, o2, vars)[k]
    {
      PieceDependsOnItsMarker(segs[k], o1, o2, vars);
    }
  }

  lemma {:induction false} PieceDependsOnItsMarker(seg: Segment, o1: map<string, string>, o2: map<string, string>,
                                                   vars: Render.Vars)
    requires seg.Step? ==> (seg.marker in o1 <==> seg.marker in o2)
    requires seg.Step? && seg.marker in o1 ==> o1[seg.marker] == o2[seg.marker]
    ensures Piece(seg, o1, vars) == Piece(seg, o2, vars)
  {
  }

  lemma {:induction false} AllOkCons(piece: Indent.Result<string>, more: seq<Indent.Result<string>>)
    ensures AllOk([piece] + more) <==> piece.Ok? && AllOk(more)
    ensures piece.Ok? ==> Concat(Values([piece] + more)) == piece.value + Concat(Values(more))
  {
    var pieces := [piece] + more;
    assert pieces[0] == piece;
    if AllOk(pieces) {
      forall k | 0 <= k < |more| ensures more[k].Ok? {
        assert pieces[k + 1] == more[k];
      }
    }
    if piece.Ok? && AllOk(more) {
      forall k | 0 <= k < |pieces| ensures pieces[k].Ok? {
        assert k > 0 ==> pieces[k] == more[k - 1];
      }
    }
    assert Values(pieces)[1..] == Values(more);
  }

  ghost predicate AllOk(pieces: seq<Indent.Result<string>>) {
    forall k :: 0 <= k < |pieces| ==> pieces[k].Ok?
  }

  function Values(pieces: seq<Indent.Result<string>>): seq<string> {
    seq(|pieces|, k requires 0 <= k < |pieces| => if pieces[k].Ok? then pieces[k].value else "")
  }

  /** The output is the pieces put together; it succeeds exactly when the cut and every piece do. */
  lemma {:induction false} SpliceIsPieces(cut: Cut, overrides: map<string, string>, vars: Render.Vars)
    ensures Splice(cut, overrides, vars).Ok? <==> cut.error.None? && AllOk(Pieces(cut.segments, overrides, vars))
    ensures Splice(cut, overrides, vars).Ok? ==>
              Splice(cut, overrides, vars).value == Concat(Values(Pieces(cut.segments, overrides, vars)))
    decreases |cut.segments|
  {
    if cut.segments == [] {
      assert AllOk(Pieces(cut.segments, overrides, vars)) && Values(Pieces(cut.segments, overrides, vars)) == [];
    } else {
      hide Piece, Splice, AllOk, Values, Concat;
      var rest := Cut(cut.segments[1..], cut.error);
      assert cut == Consed(cut.segments[0], rest);
      SpliceCons(cut.segments[0], rest, overrides, vars);
      SpliceIsPieces(rest, overrides, vars);
      assert Pieces(cut.segments, overrides, vars)
          == [Piece(cut.segments[0], overrides, vars)] + Pieces(rest.segments, overrides, vars);
      AllOkCons(Piece(cut.segments[0], overrides, vars), Pieces(rest.segments, overrides, vars));
    }
  }

  /** Without overrides the output is the input lines minus the dropped ones. */
  function KeptLines(segs: seq<Segment>): seq<string> {
    if segs == [] then []
    else (if segs[0].Plain? then [segs[0].line] else segs[0].block) + KeptLines(segs[1..])
  }

  lemma {:induction false} ConcatAppend(a: seq<string>, b: seq<string>)
    ensures Concat(a + b) == Concat(a) + Concat(b)
    decreases |a|
  {
    if a == [] {
      assert a + b == b;
    } else {
      assert (a + b)[1..] == a[1..] + b;
      ConcatAppend(a[1..], b);
    }
  }

  /** Without overrides the output is the input lines, less the markers and the blank lines after them. */
  lemma {:induction false} NoOverrides(cut: Cut, vars: Render.Vars)
    requires cut.error.None?
    ensures Splice(cut, map[], vars) == Indent.Ok(Concat(KeptLines(cut.segments)))
    decreases |cut.segments|
  {
    if cut.segments != [] {
      hide Splice;
      var seg := cut.segments[0];
      var rest := Cut(cut.segments[1..], cut.error);
      assert cut == Consed(seg, rest);
      SpliceCons(seg, rest, map[], vars);
      NoOverrides(rest, vars);
      var kept := if seg.Plain? then [seg.line] else seg.block;
      ConcatAppend(kept, KeptLines(rest.segments));
      assert seg.Plain? ==> Concat([seg.line]) == seg.line by {
        if seg.Plain? {
          assert [seg.line][1..] == [];
          assert seg.line + "" == seg.line;
        }
      }
    }
  }
}
