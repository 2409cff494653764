/** `redact_log_message`: a single left-to-right scan over the UTF-8 bytes of a message that masks secret keys
    and the labels "secret" and "seed". */
module Redact {
  newtype byte = x: int | 0 <= x < 256

  /** "[redacted]", "secret" and "seed". */
  const REDACTED: seq<byte> := [91, 114, 101, 100, 97, 99, 116, 101, 100, 93]
  const SECRET: seq<byte> := [115, 101, 99, 114, 101, 116]
  const SEED: seq<byte> := [115, 101, 101, 100]

  // ---------- UTF-8 ----------

  /** Length announced by a lead byte; 0 for a byte that cannot lead. */
  function CharLen(lead: byte): nat {
    if lead < 0x80 then 1
    else if 0xC2 <= lead <= 0xDF then 2
    else if 0xE0 <= lead <= 0xEF then 3
    else if 0xF0 <= lead <= 0xF4 then 4
    else 0
  }

  predicate CharAt(bytes: seq<byte>, i: nat) {
    && i < |bytes| && CharLen(bytes[i]) > 0 && i + CharLen(bytes[i]) <= |bytes|
    && forall k :: i < k < i + CharLen(bytes[i]) ==> 0x80 <= bytes[k] < 0xC0
  }

  /** Offset `i` is a character boundary of well-shaped UTF-8. */
  predicate Boundary(bytes: seq<byte>, i: nat)
    decreases |bytes| - i
  {
    i == |bytes| || (CharAt(bytes, i) && Boundary(bytes, i + CharLen(bytes[i])))
  }

  lemma {:induction false} BoundaryAfterAscii(bytes: seq<byte>, i: nat, n: nat)
    requires Boundary(bytes, i) && i + n <= |bytes|
    requires forall k :: i <= k < i + n ==> bytes[k] < 0x80
    ensures Boundary(bytes, i + n)
    decreases n
  {
    if n > 0 {
      BoundaryAfterAscii(bytes, i + 1, n - 1);
    }
  }

  // ---------- what is masked ----------

  predicate IsBase32Byte(b: byte) {
    65 <= b <= 90 || 50 <= b <= 55
  }

  function Lower(b: byte): byte {
    if 65 <= b <= 90 then b + 32 else b
  }

  /** `starts_with_ascii_case_insensitive` against a lower-case needle. */
  predicate StartsWith(bytes: seq<byte>, i: nat, needle: seq<byte>) {
    i + |needle| <= |bytes| && forall k :: 0 <= k < |needle| ==> Lower(bytes[i + k]) == needle[k]
  }

  /** `is_secret_key_at`: 56 base32 bytes led by `S`, with no base32 byte on either side. */
  predicate IsSecretKeyAt(bytes: seq<byte>, i: nat) {
    && i + 56 <= |bytes|
    && bytes[i] == 83
    && (forall k :: i < k < i + 56 ==> IsBase32Byte(bytes[k]))
    && (i == 0 || !IsBase32Byte(bytes[i - 1]))
    && (i + 56 == |bytes| || !IsBase32Byte(bytes[i + 56]))
  }

  // ---------- the scan ----------

  /** One step of the scan: the bytes it consumes, and whether they are masked. */
  datatype Piece = Mask(at: nat, len: nat) | Copy(at: nat, len: nat)

  function PieceAt(bytes: seq<byte>, i: nat): (p: Piece)
    requires i < |bytes| && Boundary(bytes, i)
    ensures p.at == i && 0 < p.len && i + p.len <= |bytes|
    ensures Boundary(bytes, i + p.len)
  {
    if IsSecretKeyAt(bytes, i) then
      BoundaryAfterAscii(bytes, i, 56);
      Mask(i, 56)
    else if StartsWith(bytes, i, SECRET) then
      LabelIsAscii(bytes, i, SECRET);
      BoundaryAfterAscii(bytes, i, |SECRET|);
      Mask(i, |SECRET|)
    else if StartsWith(bytes, i, SEED) then
      LabelIsAscii(bytes, i, SEED);
      BoundaryAfterAscii(bytes, i, |SEED|);
      Mask(i, |SEED|)
    else Copy(i, CharLen(bytes[i]))
  }

  lemma {:induction false} LabelIsAscii(bytes: seq<byte>, i: nat, needle: seq<byte>)
    requires StartsWith(bytes, i, needle)
    requires needle == SECRET || needle == SEED
    ensures forall k :: i <= k < i + |needle| ==> bytes[k] < 0x80
  {
    forall k | i <= k < i + |needle|
      ensures bytes[k] < 0x80
    {
      assert Lower(bytes[i + (k - i)]) == needle[k - i];
    }
  }

  function Scan(bytes: seq<byte>, i: nat): seq<Piece>
    requires i <= |bytes| && Boundary(bytes, i)
    decreases |bytes| - i
  {
    if i == |bytes| then []
    else
      var p := PieceAt(bytes, i);
      [p] + Scan(bytes, i + p.len)
  }

  function Shown(bytes: seq<byte>, p: Piece): seq<byte>
    requires p.at + p.len <= |bytes|
  {
    if p.Mask? then REDACTED else bytes[p.at..p.at + p.len]
  }

  function Output(bytes: seq<byte>, i: nat): seq<byte>
    requires i <= |bytes| && Boundary(bytes, i)
    decreases |bytes| - i
  {
    if i == |bytes| then []
    else
      var p := PieceAt(bytes, i);
      Shown(bytes, p) + Output(bytes, i + p.len)
  }

  /** `redact_log_message`, on the UTF-8 bytes of the message. */
  method RedactLogMessage(message: seq<byte>) returns (redacted: seq<byte>)
    requires Boundary(message, 0)
    ensures redacted == Output(message, 0)
  {
    hide Output, Boundary, IsSecretKeyAt, StartsWith;
    redacted := [];
    var index := 0;
    while index < |message|
      invariant index <= |message| && Boundary(message, index)
      invariant redacted + Output(message, index) == Output(message, 0)
      decreases |message| - index
    {
      OutputStep(message, index);
      ghost var p := PieceAt(message, index);
      ghost var was := redacted;
      if IsSecretKeyAt(message, index) {
        redacted := redacted + REDACTED;
        index := index + 56;
      } else if StartsWith(message, index, SECRET) {
        redacted := redacted + REDACTED;
        index := index + |SECRET|;
      } else if StartsWith(message, index, SEED) {
        redacted := redacted + REDACTED;
        index := index + |SEED|;
      } else {
        var len := CharLen(message[index]);
        redacted := redacted + message[index..index + len];
        index := index + len;
      }
      assert redacted == was + Shown(message, p);
    }
    OutputEnd(message);
  }

  lemma {:induction false} OutputStep(bytes: seq<byte>, i: nat)
    requires i < |bytes| && Boundary(bytes, i)
    ensures var p := PieceAt(bytes, i); Output(bytes, i) == Shown(bytes, p) + Output(bytes, i + p.len)
  {
    hide PieceAt;
  }

  lemma {:induction false} OutputEnd(bytes: seq<byte>)
    requires Boundary(bytes, |bytes|)
    ensures Output(bytes, |bytes|) == []
  {
  }

  lemma {:induction false} ScanStep(bytes: seq<byte>, i: nat)
    requires i < |bytes| && Boundary(bytes, i)
    ensures var p := PieceAt(bytes, i); Scan(bytes, i) == [p] + Scan(bytes, i + p.len)
  {
    hide PieceAt, Boundary;
  }

  // ---------- all other text is copied, in order ----------

  ghost predicate InBounds(bytes: seq<byte>, pieces: seq<Piece>) {
    forall k :: 0 <= k < |pieces| ==> pieces[k].at + pieces[k].len <= |bytes|
  }

  function ShowAll(bytes: seq<byte>, pieces: seq<Piece>): seq<byte>
    requires InBounds(bytes, pieces)
  {
    if pieces == [] then [] else Shown(bytes, pieces[0]) + ShowAll(bytes, pieces[1..])
  }

  /** The bytes the pieces were taken from. */
  function Source(bytes: seq<byte>, pieces: seq<Piece>): seq<byte>
    requires InBounds(bytes, pieces)
  {
    if pieces == [] then []
    else bytes[pieces[0].at..pieces[0].at + pieces[0].len] + Source(bytes, pieces[1..])
  }

  lemma {:induction false} ConsPieces(bytes: seq<byte>, p: Piece, rest: seq<Piece>)
    requires InBounds(bytes, rest) && p.at + p.len <= |bytes|
    ensures InBounds(bytes, [p] + rest)
    ensures ShowAll(bytes, [p] + rest) == Shown(bytes, p) + ShowAll(bytes, rest)
    ensures Source(bytes, [p] + rest) == bytes[p.at..p.at + p.len] + Source(bytes, rest)
  {
    hide Shown;
    assert ([p] + rest)[1..] == rest;
  }

  /** The scan cuts the message into consecutive pieces, each starting on a character boundary; the output shows
      them one after the other, unchanged unless masked. A copied piece is one character at which neither a key
      nor a label starts; a masked piece is an isolated key or a label. */
  lemma {:induction false} ScanPartitions(bytes: seq<byte>, i: nat)
    requires i <= |bytes| && Boundary(bytes, i)
    ensures var pieces := Scan(bytes, i);
            && InBounds(bytes, pieces)
            && Source(bytes, pieces) == bytes[i..]
            && ShowAll(bytes, pieces) == Output(bytes, i)
    ensures forall p :: p in Scan(bytes, i) ==> PieceIsRight(bytes, p)
    decreases |bytes| - i
  {
    hide Scan, Output, PieceAt, Boundary, PieceIsRight, Shown, ShowAll, Source, InBounds;
    if i < |bytes| {
      var p := PieceAt(bytes, i);
      var rest := Scan(bytes, i + p.len);
      ScanStep(bytes, i);
      OutputStep(bytes, i);
      PieceAtIsRight(bytes, i);
      ScanPartitions(bytes, i + p.len);
      ConsPieces(bytes, p, rest);
      assert bytes[i..] == bytes[i..i + p.len] + bytes[i + p.len..];
    } else {
      ScanEnd(bytes);
      assert bytes[i..] == [];
    }
  }

  lemma {:induction false} ScanEnd(bytes: seq<byte>)
    requires Boundary(bytes, |bytes|)
    ensures Scan(bytes, |bytes|) == [] && Output(bytes, |bytes|) == []
    ensures InBounds(bytes, []) && Source(bytes, []) == [] && ShowAll(bytes, []) == []
  {
  }

  ghost predicate PieceIsRight(bytes: seq<byte>, p: Piece) {
    && p.at < |bytes| && Boundary(bytes, p.at)
    && (p.Mask? ==>
          || (p.len == 56 && IsSecretKeyAt(bytes, p.at))
          || (p.len == 6 && StartsWith(bytes, p.at, SECRET))
          || (p.len == 4 && StartsWith(bytes, p.at, SEED)))
    && (p.Copy? ==>
          && p.len == CharLen(bytes[p.at])
          && !IsSecretKeyAt(bytes, p.at)
          && !StartsWith(bytes, p.at, SECRET)
          && !StartsWith(bytes, p.at, SEED))
  }

  lemma {:induction false} PieceAtIsRight(bytes: seq<byte>, i: nat)
    requires i < |bytes| && Boundary(bytes, i)
    ensures PieceIsRight(bytes, PieceAt(bytes, i))
  {
    hide Boundary, IsSecretKeyAt, StartsWith;
  }

  // ---------- every isolated key is masked as a whole ----------

  /** No piece that starts before an isolated key reaches into it. */
  lemma {:induction false} PieceStopsAtKey(bytes: seq<byte>, i: nat, key: nat)
    requires i < key && Boundary(bytes, i)
    requires IsSecretKeyAt(bytes, key)
    ensures i + PieceAt(bytes, i).len <= key
  {
    hide Boundary, PieceAt;
    BoundaryHere(bytes, i);
    PieceAtIsRight(bytes, i);
    var p := PieceAt(bytes, i);
    assert bytes[key] == 83 && !IsBase32Byte(bytes[key - 1]);
    if p.Copy? {
      assert forall k :: i < k < i + p.len ==> bytes[k] >= 0x80;
    } else if p.len == 56 && IsSecretKeyAt(bytes, i) {
      assert forall k :: i <= k < i + 56 ==> IsBase32Byte(bytes[k]);
    } else {
      LabelHasOneS(bytes, i, if p.len == 6 then SECRET else SEED);
    }
  }

  /** An "s" in a label can only be its first letter. */
  lemma {:induction false} LabelHasOneS(bytes: seq<byte>, i: nat, needle: seq<byte>)
    requires needle == SECRET || needle == SEED
    requires StartsWith(bytes, i, needle)
    ensures forall k :: i < k < i + |needle| ==> bytes[k] != 83
  {
    forall k | i < k < i + |needle|
      ensures bytes[k] != 83
    {
      assert Lower(bytes[i + (k - i)]) == needle[k - i];
    }
  }

  lemma {:induction false} BoundaryHere(bytes: seq<byte>, i: nat)
    requires i < |bytes| && Boundary(bytes, i)
    ensures CharAt(bytes, i)
  {
  }

  /** Every isolated key ahead of the cursor is masked, as a whole. */
  lemma {:induction false} EveryKeyIsMasked(bytes: seq<byte>, i: nat, key: nat)
    requires i <= key && Boundary(bytes, i)
    requires IsSecretKeyAt(bytes, key)
    ensures Mask(key, 56) in Scan(bytes, i)
    decreases |bytes| - i
  {
    hide Scan, Boundary;
    ScanStep(bytes, i);
    if i < key {
      PieceStopsAtKey(bytes, i, key);
      EveryKeyIsMasked(bytes, i + PieceAt(bytes, i).len, key);
    }
  }

  // ---------- the output mentions no label ----------

  /** Lower-case letters, which neither the mask's brackets nor a multi-byte character contain. */
  ghost predicate Letters(w: seq<byte>) {
    forall k :: 0 <= k < |w| ==> 97 <= w[k] <= 122
  }

  lemma {:induction false} StartsWithAfter(a: seq<byte>, b: seq<byte>, j: nat, w: seq<byte>)
    ensures StartsWith(a + b, |a| + j, w) <==> StartsWith(b, j, w)
  {
    if j + |w| <= |b| {
      assert StartsWith(a + b, |a| + j, w) ==> StartsWith(b, j, w) by {
        if StartsWith(a + b, |a| + j, w) {
          forall k | 0 <= k < |w| ensures Lower(b[j + k]) == w[k] {
            assert Lower((a + b)[|a| + j + k]) == w[k];
          }
        }
      }
    }
  }

  lemma {:induction false} StartsWithHead(s: seq<byte>, i: nat, w: seq<byte>)
    requires w != [] && StartsWith(s, i, w)
    ensures i < |s| && Lower(s[i]) == w[0]
  {
    assert Lower(s[i + 0]) == w[0];
  }

  lemma {:induction false} StartsWithTail(s: seq<byte>, i: nat, w: seq<byte>)
    requires w != []
    ensures StartsWith(s, i, w) <==> i < |s| && Lower(s[i]) == w[0] && StartsWith(s, i + 1, w[1..])
  {
    if StartsWith(s, i, w) {
      assert Lower(s[i + 0]) == w[0];
      forall k | 0 <= k < |w[1..]| ensures Lower(s[i + 1 + k]) == w[1..][k] {
        assert Lower(s[i + (k + 1)]) == w[k + 1];
      }
    }
    if i < |s| && Lower(s[i]) == w[0] && StartsWith(s, i + 1, w[1..]) {
      forall k | 0 <= k < |w| ensures Lower(s[i + k]) == w[k] {
        if k > 0 {
          assert Lower(s[i + 1 + (k - 1)]) == w[1..][k - 1];
        }
      }
    }
  }

  /** A piece that shows a letter first is one copied character. */
  lemma {:induction false} LetterFirst(bytes: seq<byte>, i: nat, letter: byte)
    requires i < |bytes| && Boundary(bytes, i) && 97 <= letter <= 122
    requires Lower(Shown(bytes, PieceAt(bytes, i))[0]) == letter
    ensures PieceAt(bytes, i) == Copy(i, 1)
  {
    hide Boundary, PieceAt, IsSecretKeyAt, StartsWith;
    BoundaryHere(bytes, i);
    PieceAtIsRight(bytes, i);
    assert REDACTED[0] == 91;
  }

  lemma {:induction false} OutputNonEmpty(bytes: seq<byte>, i: nat)
    requires i < |bytes| && Boundary(bytes, i)
    ensures |Shown(bytes, PieceAt(bytes, i))| > 0
  {
    hide Boundary, PieceAt;
    assert |REDACTED| == 10;
  }

  /** If the output reads as `w` here, so does the message. */
  lemma {:induction false} OutputReadsAsInput(bytes: seq<byte>, i: nat, w: seq<byte>)
    requires i <= |bytes| && Boundary(bytes, i)
    requires Letters(w) && StartsWith(Output(bytes, i), 0, w)
    ensures StartsWith(bytes, i, w)
    decreases |w|
  {
    hide *;
    if w != [] {
      LettersTail(w);
      StartsWithTail(Output(bytes, i), 0, w);
      if i == |bytes| {
        OutputEnd(bytes);
      }
      OutputStep(bytes, i);
      OutputNonEmpty(bytes, i);
      LetterFirst(bytes, i, w[0]);
      ShownCopy(bytes, i);
      StartsWithAfter([bytes[i]], Output(bytes, i + 1), 0, w[1..]);
      OutputReadsAsInput(bytes, i + 1, w[1..]);
      StartsWithTail(bytes, i, w);
    } else {
      StartsWithNothing(bytes, i);
    }
  }

  lemma {:induction false} LettersTail(w: seq<byte>)
    requires w != [] && Letters(w)
    ensures 97 <= w[0] <= 122 && Letters(w[1..])
  {
  }

  lemma {:induction false} StartsWithNothing(bytes: seq<byte>, i: nat)
    requires i <= |bytes|
    ensures StartsWith(bytes, i, [])
  {
  }

  lemma {:induction false} ShownCopy(bytes: seq<byte>, i: nat)
    requires i < |bytes|
    ensures Shown(bytes, Copy(i, 1)) == [bytes[i]]
  {
  }

  /** Neither the mask nor a character shows an "s" after its first byte. */
  lemma {:induction false} NoSInside(bytes: seq<byte>, i: nat)
    requires i < |bytes| && Boundary(bytes, i)
    ensures var shown := Shown(bytes, PieceAt(bytes, i)); forall j :: 0 < j < |shown| ==> Lower(shown[j]) != 115
  {
    hide Boundary, PieceAt, IsSecretKeyAt, StartsWith;
    BoundaryHere(bytes, i);
    PieceAtIsRight(bytes, i);
  }

  ghost predicate IsLabel(needle: seq<byte>) {
    needle == SECRET || needle == SEED
  }

  lemma {:induction false} LabelLetters(needle: seq<byte>)
    requires IsLabel(needle)
    ensures needle != [] && needle[0] == 115 && Letters(needle)
  {
  }

  lemma {:induction false} CopyStartsNoLabel(bytes: seq<byte>, i: nat, needle: seq<byte>)
    requires i < |bytes| && Boundary(bytes, i) && PieceAt(bytes, i).Copy? && IsLabel(needle)
    ensures !StartsWith(bytes, i, needle)
  {
    hide Boundary, PieceAt, StartsWith, IsSecretKeyAt;
    PieceAtIsRight(bytes, i);
  }

  /** At no offset does the output contain "secret" or "seed", in any mixture of cases. */
  lemma {:induction false} OutputHasNoLabel(bytes: seq<byte>, i: nat, j: nat, needle: seq<byte>)
    requires i <= |bytes| && Boundary(bytes, i)
    requires IsLabel(needle)
    ensures !StartsWith(Output(bytes, i), j, needle)
    decreases |bytes| - i
  {
    hide *;
    LabelLetters(needle);
    if StartsWith(Output(bytes, i), j, needle) {
      StartsWithHead(Output(bytes, i), j, needle);
    }
    if i == |bytes| {
      OutputEnd(bytes);
    } else {
      OutputStep(bytes, i);
      var p := PieceAt(bytes, i);
      var (shown, rest) := (Shown(bytes, p), Output(bytes, i + p.len));
      if j >= |shown| {
        OutputHasNoLabel(bytes, i + p.len, j - |shown|, needle);
        StartsWithAfter(shown, rest, j - |shown|, needle);
      } else {
        assert (shown + rest)[j] == shown[j];
        NoSInside(bytes, i);
        if j == 0 && StartsWith(Output(bytes, i), 0, needle) {
          LetterFirst(bytes, i, 115);
          OutputReadsAsInput(bytes, i, needle);
          CopyStartsNoLabel(bytes, i, needle);
        }
      }
    }
  }

  // ---------- in terms of characters ----------

  /** An upper-case letter or a digit from 2 to 7. */
  predicate IsKeyChar(b: byte) {
    'A' as int <= b as int <= 'Z' as int || '2' as int <= b as int <= '7' as int
  }

  /** The text at `i` is the lower-case word, in any mixture of cases. */
  predicate Reads(bytes: seq<byte>, i: nat, word: string) {
    && i + |word| <= |bytes|
    && forall k :: 0 <= k < |word| ==>
         bytes[i + k] as int == word[k] as int || bytes[i + k] as int == word[k] as int - 32
  }

  lemma {:induction false} LabelReads(bytes: seq<byte>, i: nat, needle: seq<byte>, word: string)
    requires IsLabel(needle) && |word| == |needle| && forall k :: 0 <= k < |word| ==> word[k] as int == needle[k] as int
    ensures StartsWith(bytes, i, needle) <==> Reads(bytes, i, word)
  {
    LabelLetters(needle);
    forall k | 0 <= k < |needle| && i + |needle| <= |bytes|
      ensures Lower(bytes[i + k]) == needle[k] <==>
              bytes[i + k] as int == word[k] as int || bytes[i + k] as int == word[k] as int - 32
    {
    }
  }

  /** What is masked: 56 characters, an S and 55 of A to Z and 2 to 7, with none of those on either side; and the words
      "secret" and "seed". The mask is "[redacted]". */
  lemma {:induction false} WhatIsMasked(bytes: seq<byte>, i: nat)
    ensures IsSecretKeyAt(bytes, i) <==>
              && i + 56 <= |bytes| && bytes[i] as int == 'S' as int
              && (forall k :: i < k < i + 56 ==> IsKeyChar(bytes[k]))
              && (i > 0 ==> !IsKeyChar(bytes[i - 1])) && (i + 56 < |bytes| ==> !IsKeyChar(bytes[i + 56]))
    ensures StartsWith(bytes, i, SECRET) <==> Reads(bytes, i, "secret")
    ensures StartsWith(bytes, i, SEED) <==> Reads(bytes, i, "seed")
    ensures |REDACTED| == |"[redacted]"|
    ensures forall k :: 0 <= k < |REDACTED| ==> REDACTED[k] as int == "[redacted]"[k] as int
  {
    forall b: byte
      ensures IsBase32Byte(b) <==> IsKeyChar(b)
    {
    }
    hide IsBase32Byte, IsKeyChar, StartsWith, Reads;
    LabelReads(bytes, i, SECRET, "secret");
    LabelReads(bytes, i, SEED, "seed");
  }

  /** The redacted message mentions neither word anywhere. */
  lemma {:induction false} NoWordIsLeft(message: seq<byte>, j: nat)
    requires Boundary(message, 0)
    ensures !Reads(Output(message, 0), j, "secret") && !Reads(Output(message, 0), j, "seed")
  {
    hide *;
    WhatIsMasked(Output(message, 0), j);
    LabelsAreLabels();
    OutputHasNoLabel(message, 0, j, SECRET);
    OutputHasNoLabel(message, 0, j, SEED);
  }

  lemma LabelsAreLabels()
    ensures IsLabel(SECRET) && IsLabel(SEED)
  {
  }

  // ---------- what a key is cannot be told from the output ----------

  /** The messages differ in nothing but the key that stands at `key`. */
  ghost predicate DifferInKey(x: seq<byte>, y: seq<byte>, key: nat) {
    && |x| == |y| && IsSecretKeyAt(x, key) && IsSecretKeyAt(y, key)
    && forall k :: 0 <= k < |x| && !(key <= k < key + 56) ==> x[k] == y[k]
  }

  lemma {:induction false} DifferBothWays(x: seq<byte>, y: seq<byte>, key: nat)
    requires DifferInKey(x, y, key)
    ensures DifferInKey(y, x, key)
  {
    hide IsSecretKeyAt;
  }

  lemma {:induction false} KeyElsewhere(x: seq<byte>, y: seq<byte>, key: nat, i: nat)
    requires DifferInKey(x, y, key) && (i < key || key + 56 <= i) && IsSecretKeyAt(x, i)
    ensures IsSecretKeyAt(y, i)
  {
    if i < key {
      assert !IsBase32Byte(x[key - 1]);
      assert i + 56 <= key;
    }
  }

  lemma {:induction false} LabelElsewhere(x: seq<byte>, y: seq<byte>, key: nat, i: nat, needle: seq<byte>)
    requires DifferInKey(x, y, key) && (i < key || key + 56 <= i) && IsLabel(needle) && StartsWith(x, i, needle)
    ensures StartsWith(y, i, needle)
  {
    LabelHasOneS(x, i, needle);
    hide IsSecretKeyAt;
    assert x[key] == 83 by { KeyBeginsWithS(x, key); }
    assert forall k :: i <= k < i + |needle| ==> x[k] == y[k];
    forall k | 0 <= k < |needle|
      ensures Lower(y[i + k]) == needle[k]
    {
      assert Lower(x[i + k]) == needle[k];
    }
  }

  lemma {:induction false} KeyBeginsWithS(x: seq<byte>, key: nat)
    requires IsSecretKeyAt(x, key)
    ensures key + 56 <= |x| && x[key] == 83
  {
  }

  /** Everywhere else the scan does the same for both. */
  lemma {:induction false} SamePieceElsewhere(x: seq<byte>, y: seq<byte>, key: nat, i: nat)
    requires DifferInKey(x, y, key) && (i < key || key + 56 <= i < |x|)
    requires i < |x| && Boundary(x, i) && Boundary(y, i)
    ensures PieceAt(x, i) == PieceAt(y, i)
  {
    DifferBothWays(x, y, key);
    LabelsAreLabels();
    hide IsSecretKeyAt, StartsWith, Boundary, IsLabel;
    if IsSecretKeyAt(x, i) { KeyElsewhere(x, y, key, i); }
    if IsSecretKeyAt(y, i) { KeyElsewhere(y, x, key, i); }
    if StartsWith(x, i, SECRET) { LabelElsewhere(x, y, key, i, SECRET); }
    if StartsWith(y, i, SECRET) { LabelElsewhere(y, x, key, i, SECRET); }
    if StartsWith(x, i, SEED) { LabelElsewhere(x, y, key, i, SEED); }
    if StartsWith(y, i, SEED) { LabelElsewhere(y, x, key, i, SEED); }
    assert x[i] == y[i];
  }

  lemma {:induction false} KeyPiece(x: seq<byte>, key: nat)
    requires IsSecretKeyAt(x, key) && Boundary(x, key)
    ensures key < |x| && PieceAt(x, key) == Mask(key, 56)
  {
    hide StartsWith, Boundary;
  }

  /** The output does not depend on the key: two messages that differ only in an isolated key are redacted to the
      same text. */
  lemma {:induction false} KeyDoesNotShow(x: seq<byte>, y: seq<byte>, key: nat, i: nat)
    requires DifferInKey(x, y, key) && (i <= key || key + 56 <= i <= |x|)
    requires i <= |x| && Boundary(x, i) && Boundary(y, i)
    ensures Output(x, i) == Output(y, i)
    decreases |x| - i
  {
    hide Output, Boundary, PieceAt, StartsWith;
    if i == |x| {
      OutputEnd(x);
      OutputEnd(y);
    } else {
      var p := PieceAt(x, i);
      OutputStep(x, i);
      OutputStep(y, i);
      if i == key {
        KeyPiece(x, key);
        KeyPiece(y, key);
      } else {
        SamePieceElsewhere(x, y, key, i);
        if i < key {
          PieceStopsAtKey(x, i, key);
        }
        assert x[p.at..p.at + p.len] == y[p.at..p.at + p.len];
      }
      KeyDoesNotShow(x, y, key, i + p.len);
    }
  }
}
