/** `indent_step`: re-indent a step override, and what happens when it is done twice. */
module Indent {
  import opened Text
  import opened Wrappers

  datatype Error = Empty | NotAnItem | Panic | MarkerWithoutStep(marker: string) | MarkerNotAtStep(marker: string)

  datatype Result<+T> = Ok(value: T) | Err(error: Error)

  /** Blank lines become empty; other lines lose `baseline` bytes and gain `indent` spaces. */
  function Spaces(n: nat): string {
    seq(n, _ => ' ')
  }

  function Dropped(line: string, baseline: nat): string {
    var rest := ByteDrop(line, baseline);
    if rest.Some? then rest.value else ""
  }

  function OutLine(line: string, baseline: nat, indent: nat): string {
    if IsBlank(line) then ""
    else Spaces(indent) + Dropped(line, baseline)
  }

  function Indented(lines: seq<string>, baseline: nat, indent: nat): string {
    if lines == [] then ""
    else OutLine(lines[0], baseline, indent) + (['\n'] + Indented(lines[1..], baseline, indent))
  }

  /** The smallest indentation of a non-blank line; None when all lines are blank. */
  function Baseline(lines: seq<string>): Option<nat> {
    if lines == [] then None
    else
      var rest := Baseline(lines[1..]);
      if IsBlank(lines[0]) then rest
      else if rest.Some? && rest.value < ByteIndent(lines[0]) then rest
      else Some(ByteIndent(lines[0]))
  }

  /** The first non-blank line. */
  function First(lines: seq<string>): Option<string> {
    if lines == [] then None
    else if IsBlank(lines[0]) then First(lines[1..])
    else Some(lines[0])
  }

  predicate IsItem(s: string) {
    |s| >= 2 && s[0] == '-' && s[1] == ' '
  }

  /** Every non-blank line can be cut at the baseline. */
  predicate Cuttable(lines: seq<string>, baseline: nat) {
    forall i :: 0 <= i < |lines| && !IsBlank(lines[i]) ==> ByteDrop(lines[i], baseline).Some?
  }

  /** The result for the lines of a step. */
  function IndentLines(lines: seq<string>, indent: nat): Result<string> {
    var first := First(lines);
    var baseline := if Baseline(lines).Some? then Baseline(lines).value else 0;
    if first.None? then Err(Empty)
    else if ByteDrop(first.value, baseline).None? then Err(Panic)
    else if !IsItem(ByteDrop(first.value, baseline).value) then Err(NotAnItem)
    else if !Cuttable(lines, baseline) then Err(Panic)
    else Ok(Indented(lines, baseline, indent))
  }

  lemma {:induction false} IndentedSnoc(lines: seq<string>, line: string, baseline: nat, indent: nat)
    ensures Indented(lines + [line], baseline, indent)
         == Indented(lines, baseline, indent) + (OutLine(line, baseline, indent) + ['\n'])
    decreases |lines|
  {
    hide OutLine;
    if lines == [] {
      assert [line] == lines + [line] && [line][1..] == [];
      assert OutLine(line, baseline, indent) + (['\n'] + "") == "" + (OutLine(line, baseline, indent) + ['\n']);
    } else {
      assert (lines + [line])[1..] == lines[1..] + [line];
      IndentedSnoc(lines[1..], line, baseline, indent);
    }
  }

  /** `indent_step` */
  method IndentStep(step: string, indent: nat) returns (r: Result<string>)
    ensures r == IndentLines(Lines(step), indent)
  {
    hide Lines, IsBlank, ByteIndent, ByteDrop;
    var lines := Lines(step);
    var (min, first) := (Baseline(lines), First(lines));
    var baseline := if min.Some? then min.value else 0;
    if first.None? {
      return Err(Empty);
    }
    var cut := ByteDrop(first.value, baseline);
    if cut.None? {
      return Err(Panic);
    }
    if !IsItem(cut.value) {
      return Err(NotAnItem);
    }
    var output := "";
    for i := 0 to |lines|
      invariant Cuttable(lines[..i], baseline)
      invariant output == Indented(lines[..i], baseline, indent)
    {
      IndentedSnoc(lines[..i], lines[i], baseline, indent);
      assert lines[..i + 1] == lines[..i] + [lines[i]];
      if IsBlank(lines[i]) {
        output := output + ['\n'];
      } else {
        var rest := ByteDrop(lines[i], baseline);
        if rest.None? {
          return Err(Panic);
        }
        output := output + (Spaces(indent) + rest.value + ['\n']);
      }
    }
    assert lines[..|lines|] == lines;
    r := Ok(output);
  }

  // ---------- indenting twice ----------

  lemma {:induction false} RawLines(s: string, k: nat)
    requires k < |SplitInclusive(s)|
    ensures var line := SplitInclusive(s)[k]; line != "" && '\n' !in line[..|line| - 1]
    decreases |s|
  {
    if s[0] == '\n' {
      if k > 0 {
        RawLines(s[1..], k - 1);
      }
    } else {
      var rest := SplitInclusive(s[1..]);
      if rest != [] {
        RawLines(s[1..], k);
        if k == 0 {
          var line := [s[0]] + rest[0];
          assert line[..|line| - 1] == [s[0]] + rest[0][..|rest[0]| - 1];
        }
      }
    }
  }

  ghost predicate NoNewlines(lines: seq<string>) {
    forall i :: 0 <= i < |lines| ==> '\n' !in lines[i]
  }

  lemma {:induction false} LinesHaveNoNewline(s: string)
    ensures NoNewlines(Lines(s))
  {
    forall k | 0 <= k < |Lines(s)|
      ensures '\n' !in Lines(s)[k]
    {
      RawLines(s, k);
      var raw := SplitInclusive(s)[k];
      assert raw == raw[..|raw| - 1] + [raw[|raw| - 1]];
    }
  }

  lemma {:induction false} IndentUnfold(s: string)
    ensures ByteIndent(s) == if s != "" && IsWhitespace(s[0]) then Utf8Len(s[0]) + ByteIndent(s[1..]) else 0
  {
    hide IsWhitespace, Utf8Len;
  }

  lemma {:induction false} DropUnfold(s: string, n: nat)
    ensures ByteDrop(s, n)
         == if n == 0 then Some(s)
            else if s == "" || Utf8Len(s[0]) > n then None
            else ByteDrop(s[1..], n - Utf8Len(s[0]))
    ensures s != "" ==> Utf8Len(s[0]) > 0
  {
    hide IsWhitespace;
  }

  lemma {:induction false} NonBlankIsNonEmpty(s: string)
    requires !IsBlank(s)
    ensures s != ""
  {
    BlankMeansWhitespace(s);
  }

  /** Non-blankness survives cutting off leading or a trailing white-space character. */
  lemma {:induction false} BlankTail(s: string)
    requires s != "" && IsWhitespace(s[0])
    ensures IsBlank(s) <==> IsBlank(s[1..])
  {
    BlankMeansWhitespace(s);
    BlankMeansWhitespace(s[1..]);
    if IsBlank(s[1..]) {
      forall i | 0 <= i < |s| ensures IsWhitespace(s[i]) {
        assert i > 0 ==> s[i] == s[1..][i - 1];
      }
    }
  }

  lemma {:induction false} BlankStripReturn(s: string)
    ensures IsBlank(s) <==> IsBlank(StripReturn(s))
    ensures !IsBlank(s) ==> ByteIndent(StripReturn(s)) == ByteIndent(s)
    decreases |s|
  {
    hide *;
    var r := StripReturn(s);
    StripReturnCases(s);
    BlankMeansWhitespace(s);
    BlankMeansWhitespace(r);
    ReturnIsWhitespace();
    if IsBlank(r) {
      forall i | 0 <= i < |s| ensures IsWhitespace(s[i]) {
        assert i < |r| ==> s[i] == r[i];
      }
    }
    if IsBlank(s) {
      forall i | 0 <= i < |r| ensures IsWhitespace(r[i]) {
        assert r[i] == s[i];
      }
    }
    if !IsBlank(s) {
      IndentStripReturn(s);
    }
  }

  lemma {:induction false} StripReturnCases(s: string)
    ensures StripReturn(s) == s || s == StripReturn(s) + ['\r']
  {
  }

  lemma {:induction false} IndentStripReturn(s: string)
    requires !IsBlank(s)
    ensures ByteIndent(StripReturn(s)) == ByteIndent(s)
    decreases |s|
  {
    hide IsBlank, ByteIndent, IsWhitespace, Utf8Len;
    NonBlankIsNonEmpty(s);
    IndentUnfold(s);
    IndentUnfold(StripReturn(s));
    if IsWhitespace(s[0]) {
      BlankTail(s);
      NonBlankIsNonEmpty(s[1..]);
      IndentStripReturn(s[1..]);
      assert StripReturn(s)[1..] == StripReturn(s[1..]);
    } else {
      ReturnIsWhitespace();
      assert StripReturn(s)[0] == s[0];
    }
  }

  lemma {:induction false} ReturnIsWhitespace()
    ensures IsWhitespace('\r')
  {
  }

  /** Cutting at most the indentation leaves the rest of the indentation, and the end of the line. */
  lemma {:induction false} CutLine(line: string, n: nat)
    requires !IsBlank(line) && n <= ByteIndent(line) && ByteDrop(line, n).Some?
    ensures var d := ByteDrop(line, n).value;
            && !IsBlank(d) && ByteIndent(d) == ByteIndent(line) - n
            && d != "" && line != "" && d[|d| - 1] == line[|line| - 1]
            && forall c :: c in d ==> c in line
    decreases |line|
  {
    hide *;
    NonBlankIsNonEmpty(line);
    DropUnfold(line, n);
    IndentUnfold(line);
    if n > 0 {
      BlankTail(line);
      CutLine(line[1..], n - Utf8Len(line[0]));
    }
  }

  lemma {:induction false} SpacesFirst(n: nat, d: string)
    requires n > 0
    ensures (Spaces(n) + d)[0] == ' ' && (Spaces(n) + d)[1..] == Spaces(n - 1) + d
  {
  }

  lemma {:induction false} IndentOfSpaces(n: nat, d: string)
    ensures ByteIndent(Spaces(n) + d) == n + ByteIndent(d)
    ensures ByteDrop(Spaces(n) + d, n) == Some(d)
    ensures IsBlank(Spaces(n) + d) <==> IsBlank(d)
    decreases n
  {
    hide ByteIndent, ByteDrop, IsBlank;
    var s := Spaces(n) + d;
    DropUnfold(s, n);
    if n == 0 {
      assert s == d;
    } else {
      IndentUnfold(s);
      SpacesFirst(n, d);
      IndentOfSpaces(n - 1, d);
      BlankTail(s);
    }
  }

  lemma {:induction false} StripReturnOfSpaces(n: nat, d: string)
    requires d != ""
    ensures StripReturn(Spaces(n) + d) == Spaces(n) + StripReturn(d)
  {
  }

  /** The lines read back from an indented step. */
  function Reread(lines: seq<string>, baseline: nat, indent: nat): seq<string> {
    if lines == [] then []
    else [StripReturn(OutLine(lines[0], baseline, indent))] + Reread(lines[1..], baseline, indent)
  }

  lemma {:induction false} LinesOfIndented(lines: seq<string>, baseline: nat, indent: nat)
    requires NoNewlines(lines)
    requires Cuttable(lines, baseline) && LeastIndent(lines, baseline)
    ensures Lines(Indented(lines, baseline, indent)) == Reread(lines, baseline, indent)
    decreases |lines|
  {
    if lines != [] {
      hide Lines, IsBlank, ByteDrop, ByteIndent, StripReturn, IsWhitespace, Utf8Len;
      LinesOfIndented(lines[1..], baseline, indent);
      var out := OutLine(lines[0], baseline, indent);
      assert '\n' !in out by {
        if !IsBlank(lines[0]) {
          CutLine(lines[0], baseline);
        }
      }
      LinesFirst(out, Indented(lines[1..], baseline, indent));
    } else {
      assert Lines("") == [];
    }
  }

  ghost predicate LeastIndent(lines: seq<string>, baseline: nat) {
    forall i :: 0 <= i < |lines| && !IsBlank(lines[i]) ==> baseline <= ByteIndent(lines[i])
  }

  lemma {:induction false} BaselineIsLeast(lines: seq<string>)
    requires Baseline(lines).Some?
    ensures LeastIndent(lines, Baseline(lines).value)
    decreases |lines|
  {
    hide IsBlank, ByteIndent;
    var b := Baseline(lines).value;
    var rest := lines[1..];
    if Baseline(rest).Some? {
      BaselineIsLeast(rest);
    } else {
      NoBaseline(rest);
    }
    forall i | 0 <= i < |lines| && !IsBlank(lines[i])
      ensures b <= ByteIndent(lines[i])
    {
      if i > 0 {
        assert lines[i] == rest[i - 1];
      }
    }
  }

  lemma {:induction false} NoBaseline(lines: seq<string>)
    ensures Baseline(lines).None? <==> First(lines).None?
    ensures Baseline(lines).None? ==> forall i :: 0 <= i < |lines| ==> IsBlank(lines[i])
    decreases |lines|
  {
    hide IsBlank, ByteIndent;
    if lines != [] {
      NoBaseline(lines[1..]);
    }
  }

  /** What reading back does to one line. */
  lemma {:induction false} RereadLine(line: string, baseline: nat, indent: nat)
    requires !IsBlank(line) ==> ByteDrop(line, baseline).Some? && baseline <= ByteIndent(line)
    ensures var again := StripReturn(OutLine(line, baseline, indent));
            && (IsBlank(again) <==> IsBlank(line))
            && (!IsBlank(line) ==>
                  && ByteIndent(again) == indent + ByteIndent(line) - baseline
                  && ByteDrop(again, indent) == Some(StripReturn(ByteDrop(line, baseline).value)))
  {
    hide IsBlank, ByteIndent, ByteDrop;
    if !IsBlank(line) {
      CutLine(line, baseline);
      var d := ByteDrop(line, baseline).value;
      IndentOfSpaces(indent, d);
      BlankStripReturn(d);
      BlankStripReturn(Spaces(indent) + d);
      StripReturnOfSpaces(indent, d);
      IndentOfSpaces(indent, StripReturn(d));
    } else {
      BlankStripReturn("");
      assert IsBlank("") by { BlankMeansWhitespace(""); }
      assert StripReturn("") == "";
    }
  }

  lemma {:induction false} BaselineUnfold(line: string, rest: seq<string>)
    ensures Baseline([line] + rest)
         == if IsBlank(line) then Baseline(rest)
            else if Baseline(rest).Some? && Baseline(rest).value < ByteIndent(line) then Baseline(rest)
            else Some(ByteIndent(line))
    ensures First([line] + rest) == if IsBlank(line) then First(rest) else Some(line)
  {
    hide IsBlank, ByteIndent;
    assert ([line] + rest)[1..] == rest;
  }

  lemma {:induction false} LinesUnfold(lines: seq<string>, baseline: nat, indent: nat)
    requires lines != []
    ensures lines == [lines[0]] + lines[1..]
    ensures Cuttable(lines, baseline) && LeastIndent(lines, baseline) <==>
            && (!IsBlank(lines[0]) ==> ByteDrop(lines[0], baseline).Some? && baseline <= ByteIndent(lines[0]))
            && Cuttable(lines[1..], baseline) && LeastIndent(lines[1..], baseline)
    ensures Reread(lines, baseline, indent)
         == [StripReturn(OutLine(lines[0], baseline, indent))] + Reread(lines[1..], baseline, indent)
  {
    hide IsBlank, ByteIndent, ByteDrop, StripReturn, OutLine;
    assert forall i :: 0 < i < |lines| ==> lines[i] == lines[1..][i - 1];
    assert forall i :: 0 <= i < |lines[1..]| ==> lines[1..][i] == lines[i + 1];
  }

  lemma {:induction false} CuttableMore(line: string, rest: seq<string>, indent: nat)
    requires Cuttable(rest, indent) && (!IsBlank(line) ==> ByteDrop(line, indent).Some?)
    ensures Cuttable([line] + rest, indent)
  {
    hide IsBlank, ByteDrop;
    assert forall i :: 0 < i < |[line] + rest| ==> ([line] + rest)[i] == rest[i - 1];
  }

  lemma {:induction false} RereadCuttable(lines: seq<string>, baseline: nat, indent: nat)
    requires Cuttable(lines, baseline) && LeastIndent(lines, baseline)
    ensures Cuttable(Reread(lines, baseline, indent), indent)
    decreases |lines|
  {
    if lines == [] {
      assert Reread(lines, baseline, indent) == [];
    } else {
      hide *;
      var (line, rest) := (lines[0], lines[1..]);
      LinesUnfold(lines, baseline, indent);
      RereadLine(line, baseline, indent);
      RereadCuttable(rest, baseline, indent);
      var (again, more) := (StripReturn(OutLine(line, baseline, indent)), Reread(rest, baseline, indent));
      CuttableMore(again, more, indent);
    }
  }

  lemma {:induction false} RereadBaseline(lines: seq<string>, baseline: nat, indent: nat)
    requires Cuttable(lines, baseline) && LeastIndent(lines, baseline)
    ensures var b := Baseline(lines);
            var c := Baseline(Reread(lines, baseline, indent));
            && (b.None? <==> c.None?)
            && (b.Some? ==> b.value >= baseline && c.value == indent + b.value - baseline)
    decreases |lines|
  {
    if lines == [] {
      assert Reread(lines, baseline, indent) == [];
    } else {
      hide *;
      var (line, rest) := (lines[0], lines[1..]);
      LinesUnfold(lines, baseline, indent);
      RereadLine(line, baseline, indent);
      RereadBaseline(rest, baseline, indent);
      var (again, more) := (StripReturn(OutLine(line, baseline, indent)), Reread(rest, baseline, indent));
      BaselineUnfold(line, rest);
      BaselineUnfold(again, more);
    }
  }

  lemma {:induction false} RereadFirst(lines: seq<string>, baseline: nat, indent: nat)
    requires Cuttable(lines, baseline) && LeastIndent(lines, baseline)
    ensures var (f, g) := (First(lines), First(Reread(lines, baseline, indent)));
            && (f.None? <==> g.None?)
            && (f.Some? ==>
                  && ByteDrop(f.value, baseline).Some?
                  && ByteDrop(g.value, indent) == Some(StripReturn(ByteDrop(f.value, baseline).value)))
    decreases |lines|
  {
    if lines == [] {
      assert Reread(lines, baseline, indent) == [];
    } else {
      hide *;
      var (line, rest) := (lines[0], lines[1..]);
      LinesUnfold(lines, baseline, indent);
      RereadLine(line, baseline, indent);
      RereadFirst(rest, baseline, indent);
      var (again, more) := (StripReturn(OutLine(line, baseline, indent)), Reread(rest, baseline, indent));
      BaselineUnfold(line, rest);
      BaselineUnfold(again, more);
    }
  }

  ghost predicate EndsInReturn(line: string) {
    !IsBlank(line) && line != "" && line[|line| - 1] == '\r'
  }

  /** Indenting the lines read back drops one carriage return for every line that ends in one. */
  lemma {:induction false} IndentedUnfold(line: string, rest: seq<string>, baseline: nat, m: nat)
    ensures Indented([line] + rest, baseline, m) == OutLine(line, baseline, m) + (['\n'] + Indented(rest, baseline, m))
  {
    hide OutLine;
    assert ([line] + rest)[1..] == rest;
  }

  /** One line, indented directly and after being read back. */
  lemma {:induction false} OutLineTwice(line: string, baseline: nat, n: nat, m: nat)
    requires !IsBlank(line) ==> ByteDrop(line, baseline).Some? && baseline <= ByteIndent(line)
    ensures var (once, twice) := (OutLine(line, baseline, m), OutLine(StripReturn(OutLine(line, baseline, n)), n, m));
            if EndsInReturn(line) then |twice| < |once| else twice == once
  {
    hide IsBlank, ByteIndent, ByteDrop;
    RereadLine(line, baseline, n);
    if !IsBlank(line) {
      CutLine(line, baseline);
      var d := ByteDrop(line, baseline).value;
      assert OutLine(line, baseline, m) == Spaces(m) + d;
      assert OutLine(StripReturn(OutLine(line, baseline, n)), n, m) == Spaces(m) + StripReturn(d);
    }
  }

  ghost predicate NoneEndsInReturn(lines: seq<string>) {
    forall i :: 0 <= i < |lines| ==> !EndsInReturn(lines[i])
  }

  lemma {:induction false} NoneEndsUnfold(lines: seq<string>)
    requires lines != []
    ensures NoneEndsInReturn(lines) <==> !EndsInReturn(lines[0]) && NoneEndsInReturn(lines[1..])
  {
    hide EndsInReturn;
    assert forall i :: 0 < i < |lines| ==> lines[i] == lines[1..][i - 1];
    assert forall i :: 0 <= i < |lines[1..]| ==> lines[1..][i] == lines[i + 1];
  }

  /** Indenting the lines read back drops one carriage return for every line that ends in one. */
  lemma {:induction false} IndentedReread(lines: seq<string>, baseline: nat, n: nat, m: nat)
    requires Cuttable(lines, baseline) && LeastIndent(lines, baseline)
    ensures var (once, twice) := (Indented(lines, baseline, m), Indented(Reread(lines, baseline, n), n, m));
            && |twice| <= |once|
            && if NoneEndsInReturn(lines) then twice == once else |twice| < |once|
    decreases |lines|
  {
    if lines == [] {
      assert NoneEndsInReturn(lines);
    } else {
      hide *;
      var (line, rest) := (lines[0], lines[1..]);
      LinesUnfold(lines, baseline, n);
      NoneEndsUnfold(lines);
      OutLineTwice(line, baseline, n, m);
      IndentedReread(rest, baseline, n, m);
      IndentedUnfold(line, rest, baseline, m);
      IndentedUnfold(StripReturn(OutLine(line, baseline, n)), Reread(rest, baseline, n), n, m);
    }
  }

  /** `indent_step` to `n` and then to `m`: it always succeeds, and it equals indenting to `m` directly exactly when
      no non-blank line of the step ends in a carriage return (which `str::lines` would strip the second time). */
  lemma {:induction false} IndentTwice(step: string, n: nat, m: nat)
    requires IndentLines(Lines(step), n).Ok?
    ensures IndentLines(Lines(step), m).Ok?
    ensures IndentLines(Lines(IndentLines(Lines(step), n).value), m).Ok?
    ensures IndentLines(Lines(IndentLines(Lines(step), n).value), m) == IndentLines(Lines(step), m)
       <==> NoneEndsInReturn(Lines(step))
  {
    hide Lines, IsBlank, ByteIndent, ByteDrop, Indented, Reread, StripReturn, NoneEndsInReturn;
    var lines := Lines(step);
    NoBaseline(lines);
    var baseline := Baseline(lines).value;
    BaselineIsLeast(lines);
    LinesHaveNoNewline(step);
    LinesOfIndented(lines, baseline, n);
    RereadCuttable(lines, baseline, n);
    RereadBaseline(lines, baseline, n);
    RereadFirst(lines, baseline, n);
    ItemStripReturn(ByteDrop(First(lines).value, baseline).value);
    IndentedReread(lines, baseline, n, m);
  }

  lemma {:induction false} ItemStripReturn(s: string)
    requires IsItem(s)
    ensures IsItem(StripReturn(s))
  {
  }

  // ---------- when the cut panics ----------

  /** Byte `n` is inside a character of the line. */
  ghost predicate SplitsCharacter(line: string, n: nat) {
    exists k :: 0 <= k < |line| && ByteLen(line[..k]) < n < ByteLen(line[..k + 1])
  }

  lemma {:induction false} LenUnfold(line: string, k: nat)
    requires line != "" && k < |line|
    ensures ByteLen(line[..k + 1]) == Utf8Len(line[0]) + ByteLen(line[1..][..k])
    ensures ByteLen(line) == Utf8Len(line[0]) + ByteLen(line[1..])
    ensures ByteLen(line[..0]) == 0
  {
    hide Utf8Len;
    assert line[..k + 1][1..] == line[1..][..k];
  }

  /** Within a line, dropping bytes fails exactly inside a character. */
  lemma {:induction false} DropFailsInsideCharacter(line: string, n: nat)
    requires n <= ByteLen(line)
    ensures ByteDrop(line, n).None? <==> SplitsCharacter(line, n)
    decreases |line|
  {
    hide ByteLen, ByteDrop, Utf8Len;
    DropUnfold(line, n);
    if line != "" && n > 0 {
      LenUnfold(line, 0);
      assert ByteLen(line[1..][..0]) == 0 by { EmptyLen(); }
      var u := Utf8Len(line[0]);
      if u > n {
        assert ByteLen(line[..0]) < n < ByteLen(line[..0 + 1]);
      } else {
        DropFailsInsideCharacter(line[1..], n - u);
        if SplitsCharacter(line[1..], n - u) {
          var k :| 0 <= k < |line[1..]| && ByteLen(line[1..][..k]) < n - u < ByteLen(line[1..][..k + 1]);
          LenUnfold(line, k);
          LenUnfold(line, k + 1);
          assert ByteLen(line[..k + 1]) < n < ByteLen(line[..(k + 1) + 1]);
        }
        if SplitsCharacter(line, n) {
          var k :| 0 <= k < |line| && ByteLen(line[..k]) < n < ByteLen(line[..k + 1]);
          LenUnfold(line, k);
          if k > 0 {
            LenUnfold(line, k - 1);
            assert ByteLen(line[1..][..k - 1]) < n - u < ByteLen(line[1..][..(k - 1) + 1]);
          }
        }
      }
    } else if line == "" {
      EmptyLen();
    }
  }

  lemma EmptyLen()
    ensures ByteLen("") == 0
  {
  }

  lemma {:induction false} BaselineInside(lines: seq<string>, i: nat)
    requires i < |lines| && !IsBlank(lines[i]) && Baseline(lines).Some?
    ensures Baseline(lines).value <= ByteLen(lines[i])
  {
    hide IsBlank, Baseline;
    BaselineIsLeast(lines);
    ByteIndentIsDifference(lines[i]);
  }

  lemma {:induction false} FirstIsALine(lines: seq<string>)
    ensures First(lines).Some? <==> Baseline(lines).Some?
    ensures First(lines).Some? ==> exists i :: 0 <= i < |lines| && lines[i] == First(lines).value && !IsBlank(lines[i])
    decreases |lines|
  {
    hide IsBlank, ByteIndent;
    if lines != [] {
      FirstIsALine(lines[1..]);
      if !IsBlank(lines[0]) {
        assert lines[0] == First(lines).value;
      } else if First(lines).Some? {
        var i :| 0 <= i < |lines[1..]| && lines[1..][i] == First(lines).value && !IsBlank(lines[1..][i]);
        assert lines[i + 1] == First(lines).value;
      }
    }
  }

  /** The code panics if and only if the smallest indentation ends inside a character of the first non-blank line, or,
      that line being a list item, of any other one. */
  lemma {:induction false} PanicsExactly(lines: seq<string>, indent: nat)
    ensures IndentLines(lines, indent) == Err(Panic) <==>
              && First(lines).Some? && Baseline(lines).Some?
              && var (first, baseline) := (First(lines).value, Baseline(lines).value);
                 || SplitsCharacter(first, baseline)
                 || (IsItem(Dropped(first, baseline)) &&
                     exists i :: 0 <= i < |lines| && !IsBlank(lines[i]) && SplitsCharacter(lines[i], baseline))
  {
    hide IsBlank, ByteDrop, Baseline, First, SplitsCharacter, Indented;
    FirstIsALine(lines);
    if First(lines).Some? {
      var baseline := Baseline(lines).value;
      forall i | 0 <= i < |lines| && !IsBlank(lines[i])
        ensures ByteDrop(lines[i], baseline).None? <==> SplitsCharacter(lines[i], baseline)
      {
        BaselineInside(lines, i);
        DropFailsInsideCharacter(lines[i], baseline);
      }
    }
  }

  /** The leading white space consists of one-byte characters. */
  predicate NarrowIndent(s: string) {
    s != "" && IsWhitespace(s[0]) ==> Utf8Len(s[0]) == 1 && NarrowIndent(s[1..])
  }

  lemma {:induction false} NarrowIndentCuts(s: string, n: nat)
    requires NarrowIndent(s) && n <= ByteIndent(s)
    ensures ByteDrop(s, n).Some?
    decreases |s|
  {
    IndentUnfold(s);
    DropUnfold(s, n);
    hide ByteIndent, ByteDrop, IsWhitespace, Utf8Len;
    if n > 0 {
      NarrowIndentCuts(s[1..], n - 1);
    }
  }

  /** So tabs and spaces never make it panic. */
  lemma {:induction false} NeverPanics(lines: seq<string>, indent: nat)
    requires forall i :: 0 <= i < |lines| && !IsBlank(lines[i]) ==> NarrowIndent(lines[i])
    ensures IndentLines(lines, indent) != Err(Panic)
  {
    hide IsBlank, ByteDrop, ByteIndent, Baseline, First, NarrowIndent, Indented;
    FirstIsALine(lines);
    if First(lines).Some? {
      BaselineIsLeast(lines);
      forall i | 0 <= i < |lines| && !IsBlank(lines[i])
        ensures ByteDrop(lines[i], Baseline(lines).value).Some?
      {
        NarrowIndentCuts(lines[i], Baseline(lines).value);
      }
    }
  }

  lemma {:induction false} OneSpace(c: char, s: string)
    requires IsWhitespace(c) && s != "" && !IsWhitespace(s[0])
    ensures !IsBlank([c] + s) && ByteIndent([c] + s) == Utf8Len(c)
    ensures ByteDrop([c] + s, Utf8Len(c)) == Some(s)
    ensures Utf8Len(c) > 1 ==> ByteDrop([c] + s, 1).None?
  {
    var line := [c] + s;
    assert line[1..] == s && line[1] == s[0];
    BlankMeansWhitespace(line);
    IndentUnfold(line);
    IndentUnfold(s);
    DropUnfold(line, Utf8Len(c));
    DropUnfold(line, 1);
    DropUnfold(s, 0);
    hide IsBlank, ByteIndent, ByteDrop, IsWhitespace;
  }

  lemma {:induction false} TwoLines(a: string, b: string)
    requires !IsBlank(a) && !IsBlank(b) && ByteIndent(a) <= ByteIndent(b)
    ensures Baseline([a, b]) == Some(ByteIndent(a)) && First([a, b]) == Some(a)
  {
    hide IsBlank, ByteIndent;
    assert [a, b][1..] == [b] && [b][1..] == [];
    assert Baseline([b]) == Some(ByteIndent(b));
  }

  /** But a wider white-space character does: below an item indented by one space, the cut falls inside it. */
  lemma {:induction false} WideIndentPanics(item: string, wide: char, rest: string, indent: nat)
    requires IsItem(item) && IsWhitespace(wide) && Utf8Len(wide) > 1 && rest != "" && !IsWhitespace(rest[0])
    ensures IndentLines([[' '] + item, [wide] + rest], indent) == Err(Panic)
  {
    var (a, b) := ([' '] + item, [wide] + rest);
    OneSpace(' ', item);
    OneSpace(wide, rest);
    TwoLines(a, b);
    hide IsBlank, ByteIndent, ByteDrop, IsWhitespace, Indented, Baseline, First;
    assert !Cuttable([a, b], 1) by { assert ByteDrop([a, b][1], 1).None?; }
  }

  /** For instance a no-break space. */
  lemma {:induction false} NoBreakSpacePanics(indent: nat)
    ensures IndentLines([[' '] + "- x", ['\U{A0}'] + "y"], indent) == Err(Panic)
  {
    hide IndentLines;
    WideIndentPanics("- x", '\U{A0}', "y", indent);
  }

  // ---------- the output, line by line ----------

  /** `out` is `line` with `indent` spaces in place of `baseline` bytes of leading white space; a blank line is
      empty. */
  ghost predicate IsReindented(line: string, out: string, baseline: nat, indent: nat) {
    if IsSpace(line) then out == ""
    else
      && indent <= |out| && (forall k :: 0 <= k < indent ==> out[k] == ' ')
      && exists head :: IsSpace(head) && ByteLen(head) == baseline && line == head + out[indent..]
  }

  lemma {:induction false} DropSplits(line: string, n: nat) returns (head: string)
    requires ByteDrop(line, n).Some? && n <= ByteIndent(line)
    ensures IsSpace(head) && ByteLen(head) == n && line == head + ByteDrop(line, n).value
    decreases |line|
  {
    hide IsWhitespace, Utf8Len;
    if n == 0 {
      head := "";
    } else {
      var more := DropSplits(line[1..], n - Utf8Len(line[0]));
      head := [line[0]] + more;
      assert head[1..] == more;
    }
  }

  lemma {:induction false} BlankIsSpace(line: string)
    ensures IsBlank(line) <==> IsSpace(line)
  {
    BlankMeansWhitespace(line);
  }

  lemma {:induction false} OutLineReindents(line: string, baseline: nat, indent: nat)
    requires !IsBlank(line) ==> ByteDrop(line, baseline).Some? && baseline <= ByteIndent(line)
    ensures IsReindented(line, OutLine(line, baseline, indent), baseline, indent)
  {
    hide IsBlank, IsSpace, ByteDrop, ByteIndent, ByteLen, Trim, TrimStart, TrimEnd;
    BlankIsSpace(line);
    if !IsBlank(line) {
      var head := DropSplits(line, baseline);
      var d := ByteDrop(line, baseline).value;
      var out := OutLine(line, baseline, indent);
      assert out == Spaces(indent) + d && out[indent..] == d;
    }
  }

  /** The lines, each ended by a newline. */
  function Ended(outs: seq<string>): seq<string> {
    seq(|outs|, i requires 0 <= i < |outs| => outs[i] + ['\n'])
  }

  lemma {:induction false} IndentedIsEnded(lines: seq<string>, baseline: nat, indent: nat) returns (outs: seq<string>)
    ensures |outs| == |lines| && forall i :: 0 <= i < |lines| ==> outs[i] == OutLine(lines[i], baseline, indent)
    ensures Indented(lines, baseline, indent) == Concat(Ended(outs))
    decreases |lines|
  {
    hide OutLine;
    if lines == [] {
      outs := [];
    } else {
      var rest := IndentedIsEnded(lines[1..], baseline, indent);
      var out := OutLine(lines[0], baseline, indent);
      outs := [out] + rest;
      assert Ended(outs)[1..] == Ended(rest);
      assert Ended(outs)[0] == out + ['\n'];
      assert out + (['\n'] + Concat(Ended(rest))) == (out + ['\n']) + Concat(Ended(rest));
    }
  }

  lemma {:induction false} BaselineOccurs(lines: seq<string>) returns (i: nat)
    requires Baseline(lines).Some?
    ensures i < |lines| && !IsBlank(lines[i]) && ByteIndent(lines[i]) == Baseline(lines).value
    decreases |lines|
  {
    hide IsBlank, ByteIndent;
    if !IsBlank(lines[0]) && Baseline(lines) == Some(ByteIndent(lines[0])) {
      i := 0;
    } else {
      var k := BaselineOccurs(lines[1..]);
      i := k + 1;
    }
  }

  lemma {:induction false} FirstIsFirst(lines: seq<string>, i: nat)
    requires i < |lines| && !IsBlank(lines[i]) && forall j :: 0 <= j < i ==> IsBlank(lines[j])
    ensures First(lines) == Some(lines[i])
    decreases i
  {
    hide IsBlank;
    if i > 0 {
      FirstIsFirst(lines[1..], i - 1);
    }
  }

  /** What comes out when nothing goes wrong, line by line: blank lines are empty, the least indented line is indented
      by exactly `indent` spaces, and the others keep their distance to it; the first one that is not blank is a
      list item. */
  lemma {:induction false} IndentOutput(lines: seq<string>, indent: nat) returns (outs: seq<string>, baseline: nat)
    requires IndentLines(lines, indent).Ok?
    ensures IndentLines(lines, indent).value == Concat(Ended(outs)) && |outs| == |lines|
    ensures forall i :: 0 <= i < |lines| ==> IsReindented(lines[i], outs[i], baseline, indent)
    ensures forall i :: 0 <= i < |lines| && !IsBlank(lines[i]) ==> baseline <= ByteIndent(lines[i])
    ensures exists i :: 0 <= i < |lines| && !IsBlank(lines[i]) && baseline == ByteIndent(lines[i])
    ensures forall i :: 0 <= i < |lines| && !IsBlank(lines[i]) && (forall j :: 0 <= j < i ==> IsBlank(lines[j])) ==>
              |outs[i]| >= indent + 2 && outs[i][indent] == '-' && outs[i][indent + 1] == ' '
  {
    hide IsBlank, ByteDrop, ByteIndent, Indented, Baseline, First, IsReindented, Ended, Concat;
    NoBaseline(lines);
    baseline := Baseline(lines).value;
    BaselineIsLeast(lines);
    var least := BaselineOccurs(lines);
    outs := IndentedIsEnded(lines, baseline, indent);
    forall i | 0 <= i < |lines|
      ensures IsReindented(lines[i], outs[i], baseline, indent)
    {
      OutLineReindents(lines[i], baseline, indent);
    }
    forall i | 0 <= i < |lines| && !IsBlank(lines[i]) && (forall j :: 0 <= j < i ==> IsBlank(lines[j]))
      ensures |outs[i]| >= indent + 2 && outs[i][indent] == '-' && outs[i][indent + 1] == ' '
    {
      FirstIsFirst(lines, i);
      assert outs[i] == Spaces(indent) + ByteDrop(lines[i], baseline).value;
    }
  }

  /** An override is empty exactly if all its lines are white space. */
  lemma {:induction false} EmptyExactly(lines: seq<string>, indent: nat)
    ensures IndentLines(lines, indent) == Err(Empty) <==>
              forall i, k :: 0 <= i < |lines| && 0 <= k < |lines[i]| ==> IsWhitespace(lines[i][k])
  {
    hide IsBlank, ByteDrop, ByteIndent, Indented, Baseline, First, Cuttable, IsWhitespace;
    NoBaseline(lines);
    forall i | 0 <= i < |lines|
      ensures IsBlank(lines[i]) <==> forall k :: 0 <= k < |lines[i]| ==> IsWhitespace(lines[i][k])
    {
      BlankMeansWhitespace(lines[i]);
    }
    if First(lines).Some? {
      var least := BaselineOccurs(lines);
    }
  }
}
