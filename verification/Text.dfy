/** The parts of Rust's `str` that the text routines rely on. A `str` is modelled as its sequence of
    characters; offsets that Rust counts in UTF-8 bytes are recovered with `Utf8Len`. */
module Text {
  import opened Wrappers

  /** Bytes of one character in UTF-8. */
  function Utf8Len(c: char): nat {
    if c as int < 0x80 then 1 else if c as int < 0x800 then 2 else if c as int < 0x1_0000 then 3 else 4
  }

  /** The shortest of the four forms of section 3 of RFC 3629 that can hold the character. */
  lemma {:induction false} Utf8LenIsShortest(c: char)
    ensures Utf8Len(c) == 1 <==> c as int <= 0x7F
    ensures Utf8Len(c) <= 2 <==> c as int <= 0x7FF
    ensures Utf8Len(c) <= 3 <==> c as int <= 0xFFFF
    ensures 1 <= Utf8Len(c) <= 4
  {
  }

  /** `str::len`. */
  function ByteLen(s: string): (n: nat)
    ensures |s| <= n
  {
    if s == "" then 0 else Utf8Len(s[0]) + ByteLen(s[1..])
  }

  predicate IsAscii(s: string) {
    forall i :: 0 <= i < |s| ==> s[i] as int < 0x80
  }

  lemma {:induction false} ByteLenOfAscii(s: string)
    ensures ByteLen(s) == |s| <==> IsAscii(s)
  {
    if s != "" {
      ByteLenOfAscii(s[1..]);
      assert IsAscii(s) <==> s[0] as int < 0x80 && IsAscii(s[1..]) by {
        if IsAscii(s) {
          forall i | 0 <= i < |s[1..]| ensures s[1..][i] as int < 0x80 {
            assert s[1..][i] == s[i + 1];
          }
        }
        if s[0] as int < 0x80 && IsAscii(s[1..]) {
          forall i | 0 <= i < |s| ensures s[i] as int < 0x80 {
            if i > 0 {
              assert s[i] == s[1..][i - 1];
            }
          }
        }
      }
    }
  }

  // ---------- searching ----------

  predicate TwinAt(s: string, c: char, i: nat) {
    i + 1 < |s| && s[i] == c && s[i + 1] == c
  }

  /** `str::find` of the two-character pattern `cc`: its first occurrence. */
  function FindTwin(s: string, c: char): (r: Option<nat>)
    ensures r.Some? ==> TwinAt(s, c, r.value) && forall i :: 0 <= i < r.value ==> !TwinAt(s, c, i)
    ensures r.None? ==> forall i :: 0 <= i < |s| ==> !TwinAt(s, c, i)
  {
    if |s| < 2 then None
    else if s[0] == c && s[1] == c then Some(0)
    else
      var r := FindTwin(s[1..], c);
      assert forall i {:trigger TwinAt(s, c, i)} :: 0 < i < |s| ==> (TwinAt(s, c, i) <==> TwinAt(s[1..], c, i - 1));
      if r.None? then None else Some(r.value + 1)
  }

  /** The first occurrence is determined by where it is. */
  lemma {:induction false} FindTwinIs(s: string, c: char, k: nat)
    requires TwinAt(s, c, k) && forall i :: 0 <= i < k ==> !TwinAt(s, c, i)
    ensures FindTwin(s, c) == Some(k)
  {
    var r := FindTwin(s, c);
    assert r.Some? && !(r.value < k) && !(k < r.value);
  }

  // ---------- trimming ----------

  /** Unicode White_Space, which `str::trim` removes. */
  predicate IsWhitespace(c: char) {
    var u := c as int;
    || 0x09 <= u <= 0x0D || u == 0x20 || u == 0x85 || u == 0xA0 || u == 0x1680
    || 0x2000 <= u <= 0x200A || u == 0x2028 || u == 0x2029 || u == 0x202F || u == 0x205F || u == 0x3000
  }

  function TrimStart(s: string): string {
    if s != "" && IsWhitespace(s[0]) then TrimStart(s[1..]) else s
  }

  function TrimEnd(s: string): string {
    if s != "" && IsWhitespace(s[|s| - 1]) then TrimEnd(s[..|s| - 1]) else s
  }

  lemma {:induction false} TrimStartCuts(s: string)
    ensures var t := TrimStart(s);
            && (t == "" || !IsWhitespace(t[0]))
            && |t| <= |s| && t == s[|s| - |t|..] && IsSpace(s[..|s| - |t|])
    decreases |s|
  {
    hide IsWhitespace;
    if s != "" && IsWhitespace(s[0]) {
      TrimStartCuts(s[1..]);
      var head := s[..|s| - |TrimStart(s)|];
      assert head[1..] == s[1..][..|s[1..]| - |TrimStart(s)|];
      assert forall k :: 0 < k < |head| ==> head[k] == head[1..][k - 1];
    }
  }

  lemma {:induction false} TrimEndCuts(s: string)
    ensures var t := TrimEnd(s);
            && (t == "" || !IsWhitespace(t[|t| - 1]))
            && |t| <= |s| && t == s[..|t|] && IsSpace(s[|t|..])
    decreases |s|
  {
    hide IsWhitespace;
    if s != "" && IsWhitespace(s[|s| - 1]) {
      var front := s[..|s| - 1];
      TrimEndCuts(front);
      var t := TrimEnd(s);
      assert s[|t|..] == front[|t|..] + [s[|s| - 1]];
    }
  }

  function Trim(s: string): string {
    TrimEnd(TrimStart(s))
  }

  predicate IsBlank(s: string) {
    Trim(s) == ""
  }

  /** A line is blank when it is white space throughout. */
  lemma {:induction false} BlankMeansWhitespace(s: string)
    ensures IsBlank(s) <==> forall i :: 0 <= i < |s| ==> IsWhitespace(s[i])
    ensures IsBlank(s) <==> TrimStart(s) == ""
  {
    hide IsWhitespace;
    var t := TrimStart(s);
    TrimStartCuts(s);
    TrimEndCuts(t);
    if t == "" {
      assert s[..|s|] == s;
    } else {
      var c := t[0];
      assert s[|s| - |t|] == c && !IsWhitespace(c);
      assert t[0..] == t && !IsSpace(t);
    }
  }

  predicate IsSpace(s: string) {
    forall i :: 0 <= i < |s| ==> IsWhitespace(s[i])
  }

  /** Nothing to trim: empty, or no white space at either end. */
  predicate IsTrimmed(s: string) {
    s == "" || (!IsWhitespace(s[0]) && !IsWhitespace(s[|s| - 1]))
  }

  /** Trimming cuts white space off both ends, all of it and nothing else. */
  lemma {:induction false} TrimCuts(s: string) returns (a: string, b: string)
    ensures s == a + Trim(s) + b && IsSpace(a) && IsSpace(b)
    ensures IsTrimmed(Trim(s))
  {
    hide IsWhitespace, TrimStart, TrimEnd;
    var t := TrimStart(s);
    var u := TrimEnd(t);
    TrimStartCuts(s);
    TrimEndCuts(t);
    a, b := s[..|s| - |t|], t[|u|..];
    assert IsSpace(a) && IsSpace(b);
    assert s == a + t && t == u + b;
    assert a + (u + b) == a + u + b;
    assert u != "" ==> u[0] == t[0];
  }

  /** The characters with the property White_Space in the Unicode Character Database. */
  lemma {:induction false} WhitespaceExactly(c: char)
    ensures IsWhitespace(c) <==>
              c as int in {9, 10, 11, 12, 13, 32, 133, 160, 5760, 8192, 8193, 8194, 8195, 8196, 8197, 8198, 8199, 8200,
                           8201, 8202, 8232, 8233, 8239, 8287, 12288}
  {
  }

  /** The first character that is no white space begins the trimmed text. */
  lemma {:induction false} TrimStartOfPadded(a: string, t: string)
    requires IsSpace(a) && (t == "" || !IsWhitespace(t[0]))
    ensures TrimStart(a + t) == t
    decreases |a|
  {
    hide IsWhitespace;
    if a == "" {
      assert a + t == t;
    } else {
      assert (a + t)[1..] == a[1..] + t;
      TrimStartOfPadded(a[1..], t);
    }
  }

  lemma {:induction false} TrimEndOfPadded(t: string, b: string)
    requires IsSpace(b) && (t == "" || !IsWhitespace(t[|t| - 1]))
    ensures TrimEnd(t + b) == t
    decreases |b|
  {
    hide IsWhitespace;
    if b == "" {
      assert t + b == t;
    } else {
      assert (t + b)[..|t + b| - 1] == t + b[..|b| - 1];
      assert (t + b)[|t + b| - 1] == b[|b| - 1];
      TrimEndOfPadded(t, b[..|b| - 1]);
    }
  }

  /** And what is left is determined by that. */
  lemma {:induction false} TrimOfPadded(a: string, t: string, b: string)
    requires IsSpace(a) && IsSpace(b) && IsTrimmed(t)
    ensures Trim(a + t + b) == t
  {
    hide IsWhitespace, TrimStart, TrimEnd;
    if t == "" {
      assert a + t + b == (a + b) + "";
      TrimStartOfPadded(a + b, "");
      TrimEndOfPadded("", "");
      assert "" + "" == "";
    } else {
      assert a + t + b == a + (t + b);
      TrimStartOfPadded(a, t + b);
      TrimEndOfPadded(t, b);
    }
  }

  // ---------- lines ----------

  /** `split_inclusive('\n')`: every line keeps its newline. */
  function SplitInclusive(s: string): (lines: seq<string>)
    ensures s != "" ==> lines != []
  {
    if s == "" then []
    else if s[0] == '\n' then [['\n']] + SplitInclusive(s[1..])
    else
      var rest := SplitInclusive(s[1..]);
      if rest == [] then [[s[0]]] else [[s[0]] + rest[0]] + rest[1..]
  }

  function Concat(parts: seq<string>): string {
    if parts == [] then "" else parts[0] + Concat(parts[1..])
  }

  lemma {:induction false} SplitUnfold(s: string)
    requires s != ""
    ensures var rest := SplitInclusive(s[1..]);
            SplitInclusive(s) == if s[0] == '\n' then [['\n']] + rest
                                 else if rest == [] then [[s[0]]] else [[s[0]] + rest[0]] + rest[1..]
  {
  }

  lemma {:induction false} ConcatCons(part: string, parts: seq<string>)
    ensures Concat([part] + parts) == part + Concat(parts)
  {
    assert ([part] + parts)[1..] == parts;
  }

  lemma {:induction false} PrependToFirst(c: char, parts: seq<string>)
    requires parts != []
    ensures Concat([[c] + parts[0]] + parts[1..]) == [c] + Concat(parts)
  {
    hide Concat;
    var (first, rest) := (parts[0], parts[1..]);
    assert parts == [first] + rest;
    ConcatCons([c] + first, rest);
    ConcatCons(first, rest);
    assert ([c] + first) + Concat(rest) == [c] + (first + Concat(rest));
  }

  lemma {:induction false} ConcatOfOne(part: string)
    ensures Concat([]) == "" && Concat([part]) == part
  {
    assert [part][1..] == [];
    assert part + "" == part;
  }

  /** The lines put together are the text. */
  lemma {:induction false} ConcatOfLines(s: string)
    ensures Concat(SplitInclusive(s)) == s
    decreases |s|
  {
    if s == "" {
      assert SplitInclusive(s) == [];
    } else {
      hide SplitInclusive, Concat;
      ConcatOfLines(s[1..]);
      SplitUnfold(s);
      var rest := SplitInclusive(s[1..]);
      assert s == [s[0]] + s[1..];
      if s[0] == '\n' {
        ConcatCons(['\n'], rest);
      } else if rest != [] {
        PrependToFirst(s[0], rest);
      } else {
        ConcatOfOne([s[0]]);
      }
    }
  }

  /** A text without newline, ended by one, is the first line. */
  lemma {:induction false} SplitFirstLine(body: string, rest: string)
    requires '\n' !in body
    ensures SplitInclusive(body + (['\n'] + rest)) == [body + ['\n']] + SplitInclusive(rest)
    decreases |body|
  {
    var s := body + (['\n'] + rest);
    if body == "" {
      assert s == ['\n'] + rest;
      assert s[1..] == rest;
      assert body + ['\n'] == ['\n'];
    } else {
      assert s[1..] == body[1..] + (['\n'] + rest);
      SplitFirstLine(body[1..], rest);
      assert [body[0]] + (body[1..] + ['\n']) == body + ['\n'];
    }
  }

  /** What `str::lines` yields for a raw line: a final newline goes, and with it one carriage return. */
  function Chomp(line: string): string {
    if line == "" || line[|line| - 1] != '\n' then line else StripReturn(line[..|line| - 1])
  }

  function StripReturn(s: string): string {
    if s != "" && s[|s| - 1] == '\r' then s[..|s| - 1] else s
  }

  /** `str::lines`. */
  function Lines(s: string): seq<string> {
    var raw := SplitInclusive(s);
    seq(|raw|, i requires 0 <= i < |raw| => Chomp(raw[i]))
  }

  lemma {:induction false} LinesFirst(body: string, rest: string)
    requires '\n' !in body
    ensures Lines(body + (['\n'] + rest)) == [StripReturn(body)] + Lines(rest)
  {
    hide SplitInclusive, StripReturn;
    SplitFirstLine(body, rest);
    assert (body + ['\n'])[..|body|] == body;
  }

  /** The lines with a newline between any two. */
  function Join(lines: seq<string>): string {
    if lines == [] then "" else if |lines| == 1 then lines[0] else lines[0] + (['\n'] + Join(lines[1..]))
  }

  lemma {:induction false} SplitOneLine(s: string)
    requires '\n' !in s && s != ""
    ensures SplitInclusive(s) == [s] && Lines(s) == [s]
    decreases |s|
  {
    if |s| > 1 {
      SplitOneLine(s[1..]);
      assert [s[0]] + s[1..] == s;
    } else {
      assert s[1..] == "" && [s[0]] == s;
    }
    assert s[|s| - 1] in s;
  }

  /** Everything up to the first newline. */
  function FirstLine(s: string): (body: string)
    ensures '\n' !in body && body <= s
    ensures |body| < |s| ==> s[|body|] == '\n'
  {
    if s == "" || s[0] == '\n' then "" else [s[0]] + FirstLine(s[1..])
  }

  /** Without carriage returns, splitting into lines loses nothing but a final newline: a last line without one is a
      line like the others. */
  lemma {:induction false} LinesRejoin(s: string)
    requires '\r' !in s
    ensures s == Join(Lines(s)) + (if s != "" && s[|s| - 1] == '\n' then ['\n'] else [])
    decreases |s|
  {
    hide Lines, FirstLine;
    var body := FirstLine(s);
    if s == "" {
      NoLines();
    } else if |body| == |s| {
      SplitOneLine(s);
      assert s[|s| - 1] in body;
    } else {
      var rest := s[|body| + 1..];
      assert s == body + (['\n'] + rest);
      LinesFirst(body, rest);
      assert StripReturn(body) == body by {
        assert body != "" ==> body[|body| - 1] == s[|body| - 1];
      }
      LinesRejoin(rest);
      var lines := Lines(s);
      assert lines == [body] + Lines(rest) && lines[1..] == Lines(rest);
      if rest == "" {
        NoLines();
        assert Join(lines) == body;
        assert s == body + ['\n'];
      } else {
        SomeLines(rest);
        var end := if rest[|rest| - 1] == '\n' then ['\n'] else [];
        assert Join(lines) == body + (['\n'] + Join(Lines(rest)));
        assert s == body + (['\n'] + (Join(Lines(rest)) + end));
        assert s[|s| - 1] == rest[|rest| - 1];
      }
    }
  }

  lemma {:induction false} NoLines()
    ensures Lines("") == []
  {
  }

  lemma {:induction false} SomeLines(s: string)
    requires s != ""
    ensures Lines(s) != []
  {
    hide Chomp;
  }

  /** One carriage return before a newline goes with it; one at the end of the text stays. */
  lemma {:induction false} LinesOfReturns(body: string, rest: string)
    requires '\n' !in body
    ensures Lines(body + ['\r', '\n'] + rest) == [body] + Lines(rest)
    ensures Lines(body + ['\r']) == [body + ['\r']]
  {
    hide Lines;
    LinesFirst(body + ['\r'], rest);
    assert (body + ['\r']) + (['\n'] + rest) == body + ['\r', '\n'] + rest;
    assert StripReturn(body + ['\r']) == body;
    SplitOneLine(body + ['\r']);
  }

  // ---------- indentation ----------

  /** Bytes of leading white space. */
  function ByteIndent(s: string): nat {
    if s != "" && IsWhitespace(s[0]) then Utf8Len(s[0]) + ByteIndent(s[1..]) else 0
  }

  /** It is the difference `line.len() - line.trim_start().len()`. */
  lemma {:induction false} ByteIndentIsDifference(s: string)
    ensures ByteLen(s) == ByteIndent(s) + ByteLen(TrimStart(s))
  {
    if s != "" && IsWhitespace(s[0]) {
      ByteIndentIsDifference(s[1..]);
    }
  }

  /** `&s[n..]` with a byte offset; None where Rust panics. */
  function ByteDrop(s: string, n: nat): Option<string> {
    if n == 0 then Some(s)
    else if s == "" || Utf8Len(s[0]) > n then None
    else ByteDrop(s[1..], n - Utf8Len(s[0]))
  }
}
