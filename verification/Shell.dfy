/** The dry-run command line: shell quoting read back by a POSIX tokeniser, and redaction of secret words. */
module Shell {
  import opened Wrappers

  // ---------- quoting ----------

  /** `char::is_alphanumeric`. Beyond ASCII it consults the Unicode tables, which are a parameter here. */
  predicate IsAlphanumeric(c: char, unicode: char -> bool) {
    if c as int < 0x80 then '0' <= c <= '9' || 'A' <= c <= 'Z' || 'a' <= c <= 'z' else unicode(c)
  }

  predicate IsPlain(c: char, unicode: char -> bool) {
    IsAlphanumeric(c, unicode) || c == '-' || c == '_' || c == '.' || c == '/' || c == ':'
  }

  predicate AllPlain(s: string, unicode: char -> bool) {
    forall i :: 0 <= i < |s| ==> IsPlain(s[i], unicode)
  }

  /** Every single quote becomes: close, escaped quote, reopen. */
  function Escape(s: string): string {
    if s == "" then ""
    else (if s[0] == '\'' then ['\'', '\\', '\'', '\''] else [s[0]]) + Escape(s[1..])
  }

  function ShellQuote(s: string, unicode: char -> bool): string {
    if AllPlain(s, unicode) then s else ['\''] + (Escape(s) + ['\''])
  }

  lemma {:induction false} EscapeIsLonger(s: string)
    ensures |Escape(s)| >= |s|
    decreases |s|
  {
    if s != "" {
      EscapeIsLonger(s[1..]);
    }
  }

  /** A word is printed as it is exactly when it has nothing in it but letters, digits and `-_./:`; and in quotes
      otherwise. */
  lemma {:induction false} QuotedExactly(s: string, unicode: char -> bool)
    ensures ShellQuote(s, unicode) == s <==>
              forall i :: 0 <= i < |s| ==>
                var u := s[i] as int;
                48 <= u <= 57 || 65 <= u <= 90 || 97 <= u <= 122 || s[i] in {'-', '_', '.', '/', ':'}
                || (u >= 0x80 && unicode(s[i]))
    ensures ShellQuote(s, unicode) != s ==>
              ShellQuote(s, unicode)[0] == '\'' && ShellQuote(s, unicode)[|ShellQuote(s, unicode)| - 1] == '\''
  {
    EscapeIsLonger(s);
    hide Escape;
  }

  // ---------- POSIX tokenisation (Shell Command Language, sections 2.2.1, 2.2.2 and 2.3) ----------

  /** Characters that are not literal when unquoted (section 2.2), apart from blanks, backslash and single quote. */
  predicate IsSpecial(c: char) {
    c in {'|', '&', ';', '<', '>', '(', ')', '$', '`', '"', '*', '?', '[', ']', '#', '~', '=', '%', '!', '{', '}',
          '\n', '\r'}
  }

  predicate IsBlank(c: char) {
    c == ' ' || c == '\t'
  }

  /** Where the tokeniser stands: between words, inside an unquoted part, or inside single quotes. */
  datatype Mode = Between | Word(cur: string) | Quoted(cur: string)

  /** The words of a line, or None when it is not a simple list of literal words. */
  function Tokens(s: string, mode: Mode): Option<seq<string>>
    decreases |s|
  {
    if s == "" then
      match mode
      case Between => Some([])
      case Word(cur) => Some([cur])
      case Quoted(_) => None
    else
      var (c, rest) := (s[0], s[1..]);
      if mode.Quoted? then
        if c == '\'' then Tokens(rest, Word(mode.cur)) else Tokens(rest, Quoted(mode.cur + [c]))
      else if IsBlank(c) then
        if mode.Between? then Tokens(rest, Between)
        else
          var more := Tokens(rest, Between);
          if more.None? then None else Some([mode.cur] + more.value)
      else
        var cur := if mode.Word? then mode.cur else "";
        if c == '\'' then Tokens(rest, Quoted(cur))
        else if c == '\\' then
          if rest == "" || rest[0] == '\n' then None else Tokens(rest[1..], Word(cur + [rest[0]]))
        else if IsSpecial(c) then None
        else Tokens(rest, Word(cur + [c]))
  }

  function Tokenise(line: string): Option<seq<string>> {
    Tokens(line, Between)
  }

  /** The state after reading a literal word. */
  function After(mode: Mode, w: string): Mode {
    if w == "" then mode else Word((if mode.Between? then "" else mode.cur) + w)
  }

  lemma {:induction false} TokensPlainChar(c: char, r: string, mode: Mode, unicode: char -> bool)
    requires IsPlain(c, unicode) && !mode.Quoted?
    ensures Tokens([c] + r, mode) == Tokens(r, After(mode, [c]))
  {
    assert ([c] + r)[1..] == r;
    assert !IsBlank(c) && !IsSpecial(c) && c != '\'' && c != '\\';
  }

  lemma {:induction false} TokensPlain(w: string, r: string, mode: Mode, unicode: char -> bool)
    requires AllPlain(w, unicode) && !mode.Quoted?
    ensures Tokens(w + r, mode) == Tokens(r, After(mode, w))
    decreases |w|
  {
    hide Tokens;
    if w == "" {
      assert w + r == r;
    } else {
      TokensPlainChar(w[0], w[1..] + r, mode, unicode);
      assert w + r == [w[0]] + (w[1..] + r);
      TokensPlain(w[1..], r, After(mode, [w[0]]), unicode);
      AfterTwo(mode, w);
    }
  }

  lemma {:induction false} AfterTwo(mode: Mode, w: string)
    requires w != "" && !mode.Quoted?
    ensures After(After(mode, [w[0]]), w[1..]) == After(mode, w)
  {
    var cur := if mode.Between? then "" else mode.cur;
    assert (cur + [w[0]]) + w[1..] == cur + w;
    if w[1..] == "" {
      assert w == [w[0]];
    }
  }

  lemma {:induction false} TokensEscaped(w: string, r: string, cur: string)
    ensures Tokens(Escape(w) + (['\''] + r), Quoted(cur)) == Tokens(r, Word(cur + w))
    decreases |w|
  {
    var s := Escape(w) + (['\''] + r);
    if w == "" {
      assert s == ['\''] + r;
      assert s[1..] == r;
      assert cur + w == cur;
    } else {
      var tail := Escape(w[1..]) + (['\''] + r);
      TokensEscaped(w[1..], r, cur + [w[0]]);
      assert (cur + [w[0]]) + w[1..] == cur + w;
      if w[0] == '\'' {
        assert s == ['\'', '\\', '\'', '\''] + tail;
        assert s[1..] == ['\\', '\'', '\''] + tail;
        EscapedQuote(tail, cur);
      } else {
        assert s == [w[0]] + tail;
        assert s[1..] == tail;
      }
    }
  }

  lemma {:induction false} EscapedQuote(tail: string, cur: string)
    ensures Tokens(['\\', '\'', '\''] + tail, Word(cur)) == Tokens(tail, Quoted(cur + ['\'']))
  {
    var s := ['\\', '\'', '\''] + tail;
    assert s[1..] == ['\'', '\''] + tail;
    assert s[1..][1..] == ['\''] + tail;
    assert (['\''] + tail)[1..] == tail;
  }

  lemma {:induction false} QuoteOpens(tail: string)
    ensures Tokens(['\''] + tail, Between) == Tokens(tail, Quoted(""))
  {
    assert (['\''] + tail)[1..] == tail;
  }

  /** A quoted word reads as itself; an empty word is quoted to nothing and reads as nothing. */
  lemma {:induction false} TokensQuoted(w: string, r: string, unicode: char -> bool)
    ensures Tokens(ShellQuote(w, unicode) + r, Between) == Tokens(r, After(Between, w))
  {
    if AllPlain(w, unicode) {
      TokensPlain(w, r, Between, unicode);
    } else {
      hide Tokens, AllPlain;
      assert ShellQuote(w, unicode) + r == ['\''] + (Escape(w) + (['\''] + r));
      QuoteOpens(Escape(w) + (['\''] + r));
      TokensEscaped(w, r, "");
      assert "" + w == w;
    }
  }

  // ---------- whole lines ----------

  /** `parts.join(" ")`. */
  function Join(parts: seq<string>): string {
    if parts == [] then ""
    else if |parts| == 1 then parts[0]
    else parts[0] + ([' '] + Join(parts[1..]))
  }

  function QuoteAll(words: seq<string>, unicode: char -> bool): seq<string> {
    seq(|words|, i requires 0 <= i < |words| => ShellQuote(words[i], unicode))
  }

  function NonEmpty(words: seq<string>): seq<string> {
    if words == [] then []
    else if words[0] == "" then NonEmpty(words[1..])
    else [words[0]] + NonEmpty(words[1..])
  }

  lemma {:induction false} TokensAtEnd(w: string)
    ensures Tokens("", After(Between, w)) == Some(NonEmpty([w]))
  {
    assert "" + w == w;
    assert [w][1..] == [];
    assert [w] + [] == [w];
  }

  lemma {:induction false} TokensAtBlank(w: string, rest: string, words: seq<string>)
    requires Tokens(rest, Between) == Some(NonEmpty(words))
    ensures Tokens([' '] + rest, After(Between, w)) == Some(NonEmpty([w] + words))
  {
    assert "" + w == w;
    assert ([' '] + rest)[1..] == rest;
    assert ([w] + words)[1..] == words;
  }

  lemma {:induction false} JoinTwo(part: string, parts: seq<string>)
    ensures Join([part]) == part
    ensures parts != [] ==> Join([part] + parts) == part + ([' '] + Join(parts))
  {
    assert ([part] + parts)[1..] == parts;
  }

  /** Quoting and joining loses exactly the empty words. */
  lemma {:induction false} TokeniseQuotedLine(words: seq<string>, unicode: char -> bool)
    ensures Tokenise(Join(QuoteAll(words, unicode))) == Some(NonEmpty(words))
    decreases |words|
  {
    if words != [] {
      hide Tokens, ShellQuote, Join, NonEmpty;
      var q := ShellQuote(words[0], unicode);
      var more := QuoteAll(words[1..], unicode);
      assert QuoteAll(words, unicode) == [q] + more;
      assert words == [words[0]] + words[1..];
      JoinTwo(q, more);
      if |words| == 1 {
        assert [q] + more == [q] && q + "" == q;
        TokensQuoted(words[0], "", unicode);
        TokensAtEnd(words[0]);
      } else {
        TokeniseQuotedLine(words[1..], unicode);
        TokensQuoted(words[0], [' '] + Join(more), unicode);
        TokensAtBlank(words[0], Join(more), words[1..]);
      }
    }
  }

  lemma {:induction false} NonEmptyIsAll(words: seq<string>)
    ensures |NonEmpty(words)| <= |words|
    ensures NonEmpty(words) == words <==> "" !in words
    decreases |words|
  {
    if words != [] {
      NonEmptyIsAll(words[1..]);
      assert words == [words[0]] + words[1..];
      if words[0] != "" && NonEmpty(words) == words {
        assert NonEmpty(words)[1..] == words[1..];
      }
    }
  }

  /** The shell round trip, for all word lists: the line reads back as the list iff no word is empty. */
  lemma {:induction false} ShellRoundTrip(words: seq<string>, unicode: char -> bool)
    ensures Tokenise(Join(QuoteAll(words, unicode))) == Some(words) <==> "" !in words
  {
    TokeniseQuotedLine(words, unicode);
    NonEmptyIsAll(words);
  }

  // ---------- the dry-run line ----------

  const SECRET_FLAGS: set<string> := {"--source", "--secret-key", "--private-key"}

  /** Word `k` follows a secret flag that is not itself a masked value. */
  predicate IsMasked(args: seq<string>, k: nat)
    requires k < |args|
  {
    k > 0 && args[k - 1] in SECRET_FLAGS && !IsMasked(args, k - 1)
  }

  function Parts(args: seq<string>, unicode: char -> bool): seq<string> {
    seq(|args|, k requires 0 <= k < |args| => if IsMasked(args, k) then "<redacted>" else ShellQuote(args[k], unicode))
  }

  /** `format_dry_run_command` */
  method FormatDryRunCommand(program: string, args: seq<string>, unicode: char -> bool) returns (line: string)
    ensures line == Join([program] + Parts(args, unicode))
  {
    hide ShellQuote;
    var parts: seq<string> := [program];
    var redactNext := false;
    for k := 0 to |args|
      invariant parts == [program] + Parts(args, unicode)[..k]
      invariant redactNext <==> k > 0 && args[k - 1] in SECRET_FLAGS && !IsMasked(args, k - 1)
    {
      var arg := args[k];
      assert Parts(args, unicode)[..k + 1] == Parts(args, unicode)[..k] + [Parts(args, unicode)[k]];
      if redactNext {
        parts := parts + ["<redacted>"];
        redactNext := false;
      } else if arg in SECRET_FLAGS {
        parts := parts + [ShellQuote(arg, unicode)];
        redactNext := true;
      } else {
        parts := parts + [ShellQuote(arg, unicode)];
      }
    }
    assert Parts(args, unicode)[..|args|] == Parts(args, unicode);
    line := Join(parts);
  }

  /** The value of a masked word cannot be told from the line: argument lists that differ only in masked words
      print the same. */
  lemma {:induction false} MaskedWordsDoNotShow(program: string, args: seq<string>, others: seq<string>,
                                                unicode: char -> bool)
    requires |args| == |others|
    requires forall k :: 0 <= k < |args| && !IsMasked(args, k) ==> args[k] == others[k]
    ensures Join([program] + Parts(args, unicode)) == Join([program] + Parts(others, unicode))
  {
    forall k | 0 <= k < |args|
      ensures Parts(args, unicode)[k] == Parts(others, unicode)[k]
    {
      SameMask(args, others, k);
    }
    assert Parts(args, unicode) == Parts(others, unicode);
  }

  lemma {:induction false} SameMask(args: seq<string>, others: seq<string>, k: nat)
    requires |args| == |others| && k < |args|
    requires forall i :: 0 <= i < |args| && !IsMasked(args, i) ==> args[i] == others[i]
    ensures IsMasked(args, k) <==> IsMasked(others, k)
    decreases k
  {
    if k > 0 {
      SameMask(args, others, k - 1);
    }
  }

  /** How many secret flags stand directly before word `k`, one after another. */
  function FlagsBefore(args: seq<string>, k: nat): nat
    requires k <= |args|
  {
    if k > 0 && (args[k - 1] == "--source" || args[k - 1] == "--secret-key" || args[k - 1] == "--private-key")
    then 1 + FlagsBefore(args, k - 1) else 0
  }

  /** A word is masked exactly when that number is odd: a flag that is itself the value of a flag hides nothing. */
  lemma {:induction false} MaskedExactly(args: seq<string>, k: nat)
    requires k < |args|
    ensures IsMasked(args, k) <==> FlagsBefore(args, k) % 2 == 1
    decreases k
  {
    if k > 0 {
      MaskedExactly(args, k - 1);
    }
  }

  /** The line is the same whatever comes after a secret flag that is printed; all words but those are in it, quoted. */
  lemma {:induction false} SecretDoesNotShow(program: string, args: seq<string>, k: nat, other: string,
                                             unicode: char -> bool)
    requires k < |args| && FlagsBefore(args, k) % 2 == 1
    ensures Join([program] + Parts(args, unicode)) == Join([program] + Parts(args[k := other], unicode))
    ensures Parts(args, unicode)[k] == "<redacted>"
    ensures forall i :: 0 <= i < |args| && FlagsBefore(args, i) % 2 == 0 ==>
              Parts(args, unicode)[i] == ShellQuote(args[i], unicode)
  {
    hide IsMasked, FlagsBefore, ShellQuote;
    forall i | 0 <= i < |args|
      ensures IsMasked(args, i) <==> FlagsBefore(args, i) % 2 == 1
    {
      MaskedExactly(args, i);
    }
    MaskedWordsDoNotShow(program, args, args[k := other], unicode);
  }

  ghost predicate NoneMasked(args: seq<string>) {
    forall k :: 0 <= k < |args| ==> !IsMasked(args, k)
  }

  /** A line with a masked word is not a list of literal words: the mask's angle bracket is an operator. */
  lemma {:induction false} MaskIsNotAWord(words: seq<string>, tail: seq<string>, unicode: char -> bool)
    ensures Tokenise(Join(QuoteAll(words, unicode) + (["<redacted>"] + tail))).None?
    decreases |words|
  {
    hide Tokens, ShellQuote, Join;
    var mask := ["<redacted>"] + tail;
    if words == [] {
      assert QuoteAll(words, unicode) + mask == mask;
      TokensOfMask(tail);
    } else {
      var q := ShellQuote(words[0], unicode);
      var more := QuoteAll(words[1..], unicode) + mask;
      assert QuoteAll(words, unicode) + mask == [q] + more;
      JoinTwo(q, more);
      MaskIsNotAWord(words[1..], tail, unicode);
      TokensQuoted(words[0], [' '] + Join(more), unicode);
      TokensAtBlankFails(words[0], Join(more));
    }
  }

  lemma {:induction false} TokensOfMask(tail: seq<string>)
    ensures Tokens(Join(["<redacted>"] + tail), Between).None?
  {
    assert Join(["<redacted>"] + tail)[0] == '<';
  }

  lemma {:induction false} TokensAtBlankFails(w: string, rest: string)
    requires Tokens(rest, Between).None?
    ensures Tokens([' '] + rest, After(Between, w)).None?
  {
    assert ([' '] + rest)[1..] == rest;
  }

  lemma {:induction false} QuotedPlain(s: string, unicode: char -> bool)
    requires AllPlain(s, unicode)
    ensures ShellQuote(s, unicode) == s
  {
  }

  /** The printed line is the command, word for word, exactly when nothing was masked and no word is empty. */
  lemma {:induction false} DryRunReadsBack(program: string, args: seq<string>, unicode: char -> bool)
    requires program != "" && AllPlain(program, unicode)
    ensures Tokenise(Join([program] + Parts(args, unicode))) == Some([program] + args)
       <==> NoneMasked(args) && "" !in args
  {
    hide *;
    if NoneMasked(args) {
      PartsUnmasked(program, args, unicode);
      ShellRoundTrip([program] + args, unicode);
      assert "" !in [program] + args <==> "" !in args;
    } else {
      var k := FirstMasked(args);
      PartsUpToMask(program, args, k, unicode);
      MaskIsNotAWord([program] + args[..k], Parts(args, unicode)[k + 1..], unicode);
    }
  }

  lemma {:induction false} PartsUnmasked(program: string, args: seq<string>, unicode: char -> bool)
    requires AllPlain(program, unicode) && NoneMasked(args)
    ensures [program] + Parts(args, unicode) == QuoteAll([program] + args, unicode)
  {
    hide ShellQuote, IsMasked;
    QuotedPlain(program, unicode);
  }

  lemma {:induction false} PartsUpToMask(program: string, args: seq<string>, k: nat, unicode: char -> bool)
    requires AllPlain(program, unicode)
    requires k < |args| && IsMasked(args, k) && forall i :: 0 <= i < k ==> !IsMasked(args, i)
    ensures |Parts(args, unicode)| == |args|
    ensures [program] + Parts(args, unicode)
         == QuoteAll([program] + args[..k], unicode) + (["<redacted>"] + Parts(args, unicode)[k + 1..])
  {
    hide ShellQuote, IsMasked;
    QuotedPlain(program, unicode);
  }

  lemma {:induction false} FirstMasked(args: seq<string>) returns (k: nat)
    requires !NoneMasked(args)
    ensures k < |args| && IsMasked(args, k) && forall i :: 0 <= i < k ==> !IsMasked(args, i)
  {
    var m: nat :| m < |args| && IsMasked(args, m);
    k := 0;
    while !IsMasked(args, k)
      invariant k <= m && forall i :: 0 <= i < k ==> !IsMasked(args, i)
      decreases m - k
    {
      k := k + 1;
    }
  }
}
