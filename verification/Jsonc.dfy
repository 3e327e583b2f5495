/** The scanner that turns JSON with comments and trailing commas into JSON. */
module Jsonc {
  /** The characters of Unicode's White_Space property. */
  predicate IsWhitespace(c: char) {
    || '\t' <= c <= '\r' || c == ' ' || c == '\U{85}' || c == '\U{A0}' || c == '\U{1680}'
    || '\U{2000}' <= c <= '\U{200A}' || c == '\U{2028}' || c == '\U{2029}' || c == '\U{202F}' || c == '\U{205F}'
    || c == '\U{3000}'
  }

  predicate IsCloser(c: char) {
    c == '}' || c == ']'
  }

  // ---- Tokens ------------------------------------------------------------------------------------------------

  /** How far a string literal reaches past its opening quote. A backslash takes the next character with it. */
  function LiteralTail(t: string): (n: nat)
    ensures n <= |t|
  {
    if t == [] then 0
    else if t[0] == '\\' && |t| > 1 then 2 + LiteralTail(t[2..])
    else if t[0] == '"' then 1
    else 1 + LiteralTail(t[1..])
  }

  predicate LineStarts(s: string) {
    |s| > 1 && s[0] == '/' && s[1] == '/'
  }

  predicate BlockStarts(s: string) {
    |s| > 1 && s[0] == '/' && s[1] == '*'
  }

  /** The length of a line without its line feed. */
  function LineLength(s: string): (n: nat)
    ensures n <= |s|
  {
    if s == [] || s[0] == '\n' then 0 else 1 + LineLength(s[1..])
  }

  /** How far a block comment reaches past its opening. */
  function BlockTail(t: string): (n: nat)
    ensures n <= |t|
  {
    if |t| < 2 then |t|
    else if t[0] == '*' && t[1] == '/' then 2
    else 1 + BlockTail(t[1..])
  }

  /** The line feeds that the scan of a block comment passes. The very last character is never looked at. */
  function BlockLines(t: string): string {
    if |t| < 2 || (t[0] == '*' && t[1] == '/') then ""
    else (if t[0] == '\n' then "\n" else "") + BlockLines(t[1..])
  }

  /** Only whitespace comes before a closer. */
  predicate Closes(s: string) {
    s != [] && (IsCloser(s[0]) || (IsWhitespace(s[0]) && Closes(s[1..])))
  }

  /** The length of the first token. */
  function Front(s: string): (n: nat)
    requires s != []
    ensures 0 < n <= |s|
  {
    if s[0] == '"' then 1 + LiteralTail(s[1..])
    else if LineStarts(s) then LineLength(s)
    else if BlockStarts(s) then 2 + BlockTail(s[2..])
    else 1
  }

  /** What becomes of the first token. */
  function Piece(s: string): string
    requires s != []
  {
    if LineStarts(s) then ""
    else if BlockStarts(s) then BlockLines(s[2..])
    else if s[0] == ',' && Closes(s[1..]) then ""
    else s[..Front(s)]
  }

  function Json(s: string): string
    decreases |s|
  {
    if s == [] then "" else Piece(s) + Json(s[Front(s)..])
  }

  // ---- The scanner -------------------------------------------------------------------------------------------

  /** The output for the rest of the input when the scanner is inside a string literal. */
  function Inside(t: string): string {
    t[..LiteralTail(t)] + Json(t[LiteralTail(t)..])
  }

  lemma InsideStep(t: string)
    requires t != []
    ensures Inside(t) ==
            if t[0] == '\\' && |t| > 1 then t[..2] + Inside(t[2..])
            else if t[0] == '"' then t[..1] + Json(t[1..])
            else t[..1] + Inside(t[1..])
  {
    hide Json;
    if t[0] == '\\' && |t| > 1 {
      assert t[..LiteralTail(t)] == t[..2] + t[2..][..LiteralTail(t[2..])];
      assert t[LiteralTail(t)..] == t[2..][LiteralTail(t[2..])..];
    } else if t[0] != '"' {
      assert t[..LiteralTail(t)] == t[..1] + t[1..][..LiteralTail(t[1..])];
      assert t[LiteralTail(t)..] == t[1..][LiteralTail(t[1..])..];
    }
  }

  lemma InsideNothing()
    ensures Inside([]) == "" && Json([]) == ""
  {
  }

  lemma JsonStep(s: string)
    requires s != []
    ensures Json(s) == Piece(s) + Json(s[Front(s)..])
  {
  }

  lemma LiteralFront(s: string)
    requires s != [] && s[0] == '"'
    ensures Front(s) == 1 + LiteralTail(s[1..]) && Piece(s) == s[..1 + LiteralTail(s[1..])]
  {
    hide Json, LiteralTail;
  }

  lemma SplitAfterFirst(s: string, n: nat)
    requires n < |s|
    ensures s[..1 + n] == s[..1] + s[1..][..n] && s[1 + n..] == s[1..][n..]
  {
  }

  lemma JsonOpens(s: string)
    requires s != [] && s[0] == '"'
    ensures Json(s) == s[..1] + Inside(s[1..])
  {
    hide Json, LiteralTail, Front, Piece;
    JsonStep(s);
    LiteralFront(s);
    SplitAfterFirst(s, LiteralTail(s[1..]));
    assert s[..1] + Inside(s[1..]) == Piece(s) + Json(s[Front(s)..]);
  }

  lemma JsonLine(s: string)
    requires LineStarts(s)
    ensures Json(s) == Json(s[LineLength(s)..])
  {
    hide Json, LineLength;
    JsonStep(s);
  }

  lemma JsonBlock(s: string)
    requires BlockStarts(s)
    ensures Json(s) == BlockLines(s[2..]) + Json(s[2 + BlockTail(s[2..])..])
  {
    hide Json, BlockLines, BlockTail;
    JsonStep(s);
  }

  lemma JsonPlain(s: string)
    requires s != [] && s[0] != '"' && !LineStarts(s) && !BlockStarts(s)
    ensures Json(s) == (if s[0] == ',' && Closes(s[1..]) then "" else s[..1]) + Json(s[1..])
  {
    hide Json, Closes;
    JsonStep(s);
  }

  /** The position after the line that starts at `i`. */
  method SkipLine(input: string, i: nat) returns (k: nat)
    requires i <= |input|
    ensures i <= k <= |input| && k == i + LineLength(input[i..])
  {
    k := i;
    while k < |input| && input[k] != '\n'
      invariant i <= k <= |input|
      invariant k + LineLength(input[k..]) == i + LineLength(input[i..])
    {
      assert input[k..][1..] == input[k + 1..];
      k := k + 1;
    }
  }

  /** The line feeds of the block comment whose body starts at `i`, and the position after it. */
  method SkipBlock(input: string, i: nat) returns (lines: string, k: nat)
    requires i <= |input|
    ensures i <= k <= |input| && k == i + BlockTail(input[i..])
    ensures lines == BlockLines(input[i..])
  {
    hide *;
    lines, k := "", i;
    while k + 1 < |input| && !(input[k] == '*' && input[k + 1] == '/')
      invariant i <= k <= |input|
      invariant lines + BlockLines(input[k..]) == BlockLines(input[i..])
      invariant k + BlockTail(input[k..]) == i + BlockTail(input[i..])
    {
      BlockStep(input[k..]);
      assert input[k..][1..] == input[k + 1..];
      if input[k] == '\n' {
        lines := lines + "\n";
      }
      k := k + 1;
    }
    BlockStep(input[k..]);
    k := if k + 2 <= |input| then k + 2 else |input|;
  }

  lemma BlockStep(t: string)
    ensures if |t| < 2 then BlockTail(t) == |t| && BlockLines(t) == ""
            else if t[0] == '*' && t[1] == '/' then BlockTail(t) == 2 && BlockLines(t) == ""
            else BlockTail(t) == 1 + BlockTail(t[1..])
                 && BlockLines(t) == (if t[0] == '\n' then "\n" else "") + BlockLines(t[1..])
  {
  }

  /** Whether only whitespace separates position `i` from a closer. */
  method CloserFollows(input: string, i: nat) returns (b: bool)
    requires i <= |input|
    ensures b == Closes(input[i..])
  {
    var j := i;
    while j < |input| && IsWhitespace(input[j])
      invariant i <= j <= |input|
      invariant Closes(input[j..]) == Closes(input[i..])
    {
      SpaceIsNoCloser(input[j]);
      assert input[j..][1..] == input[j + 1..];
      j := j + 1;
    }
    b := j < |input| && IsCloser(input[j]);
  }

  lemma SpaceIsNoCloser(c: char)
    requires IsWhitespace(c)
    ensures !IsCloser(c) && c != '"' && c != '/' && c != ',' && c != '*'
  {
  }

  /** What is still to be written at position `i`. */
  function Rest(input: string, i: nat, inString: bool): string
    requires i <= |input|
  {
    if inString then Inside(input[i..]) else Json(input[i..])
  }

  lemma RestInString(input: string, i: nat)
    requires i < |input|
    ensures Rest(input, i, true) ==
            if input[i] == '\\' && i + 1 < |input| then [input[i], input[i + 1]] + Rest(input, i + 2, true)
            else [input[i]] + Rest(input, i + 1, input[i] != '"')
  {
    hide Inside, Json;
    var rest := input[i..];
    InsideStep(rest);
    assert rest[1..] == input[i + 1..] && rest[..1] == [input[i]];
    if input[i] == '\\' && i + 1 < |input| {
      assert rest[2..] == input[i + 2..] && rest[..2] == [input[i], input[i + 1]];
    }
  }

  lemma RestOpens(input: string, i: nat)
    requires i < |input| && input[i] == '"'
    ensures Rest(input, i, false) == [input[i]] + Rest(input, i + 1, true)
  {
    hide Inside, Json;
    JsonOpens(input[i..]);
    assert input[i..][1..] == input[i + 1..] && input[i..][..1] == [input[i]];
  }

  lemma RestLine(input: string, i: nat, k: nat)
    requires i + 1 < |input| && input[i] == '/' && input[i + 1] == '/'
    requires k <= |input| && k == i + LineLength(input[i..])
    ensures Rest(input, i, false) == Rest(input, k, false) && k > i
  {
    hide Inside, Json, LineLength;
    LineBegins(input[i..]);
    JsonLine(input[i..]);
    assert input[i..][LineLength(input[i..])..] == input[k..];
  }

  lemma RestBlock(input: string, i: nat, k: nat)
    requires i + 1 < |input| && input[i] == '/' && input[i + 1] == '*'
    requires k <= |input| && k == i + 2 + BlockTail(input[i + 2..])
    ensures Rest(input, i, false) == BlockLines(input[i + 2..]) + Rest(input, k, false)
  {
    hide Inside, Json, BlockLines, BlockTail;
    BlockBegins(input[i..]);
    JsonBlock(input[i..]);
    assert input[i..][2..] == input[i + 2..];
    assert input[i..][2 + BlockTail(input[i + 2..])..] == input[k..];
  }

  lemma RestPlain(input: string, i: nat)
    requires i < |input| && input[i] != '"'
    requires !(i + 1 < |input| && input[i] == '/' && (input[i + 1] == '/' || input[i + 1] == '*'))
    ensures Rest(input, i, false) ==
            (if input[i] == ',' && Closes(input[i + 1..]) then "" else [input[i]]) + Rest(input, i + 1, false)
  {
    hide Inside, Json, Closes;
    NothingBegins(input[i..]);
    JsonPlain(input[i..]);
    assert input[i..][1..] == input[i + 1..] && input[i..][..1] == [input[i]];
  }

  lemma RestEnds(input: string)
    ensures Rest(input, 0, false) == Json(input)
    ensures forall inString :: Rest(input, |input|, inString) == ""
  {
    hide Inside, Json;
    InsideNothing();
    assert input[0..] == input && input[|input|..] == [];
  }

  method JsoncToJson(input: string) returns (out: string)
    ensures out == Json(input)
  {
    hide *;
    out := "";
    var i, inString := 0, false;
    RestEnds(input);
    while i < |input|
      invariant 0 <= i <= |input|
      invariant out + Rest(input, i, inString) == Json(input)
    {
      var c := input[i];
      if inString {
        RestInString(input, i);
        out := out + [c];
        if c == '\\' && i + 1 < |input| {
          out := out + [input[i + 1]];
          i := i + 2;
          continue;
        }
        if c == '"' {
          inString := false;
        }
        i := i + 1;
        continue;
      }
      if c == '"' {
        RestOpens(input, i);
        inString := true;
        out := out + [c];
        i := i + 1;
      } else if c == '/' && i + 1 < |input| && input[i + 1] == '/' {
        var k := SkipLine(input, i);
        RestLine(input, i, k);
        i := k;
      } else if c == '/' && i + 1 < |input| && input[i + 1] == '*' {
        var lines, k := SkipBlock(input, i + 2);
        RestBlock(input, i, k);
        out := out + lines;
        i := k;
      } else if c == ',' {
        RestPlain(input, i);
        var closer := CloserFollows(input, i + 1);
        if !closer {
          out := out + [c];
        }
        i := i + 1;
      } else {
        RestPlain(input, i);
        out := out + [c];
        i := i + 1;
      }
    }
  }

  lemma LineBegins(s: string)
    requires |s| > 1 && s[0] == '/' && s[1] == '/'
    ensures LineStarts(s) && LineLength(s) >= 2
  {
  }

  lemma BlockBegins(s: string)
    requires |s| > 1 && s[0] == '/' && s[1] == '*'
    ensures BlockStarts(s)
  {
  }

  lemma NothingBegins(s: string)
    requires s != [] && !(|s| > 1 && s[0] == '/' && (s[1] == '/' || s[1] == '*'))
    ensures !LineStarts(s) && !BlockStarts(s)
  {
  }
}
