/** Trailing commas and line numbers: exactly when one pass is enough, and exactly when lines are kept. */
module JsoncCommas {
  import opened Jsonc
  import opened JsoncProperties

  // ---- Trailing commas in text without comments --------------------------------------------------------------

  /** Drops every comma outside literals that has only whitespace before a closer. */
  function Commas(t: string): string
    decreases |t|
  {
    if t == [] then ""
    else if t[0] == '"' then
      var n := 1 + LiteralTail(t[1..]);
      t[..n] + Commas(t[n..])
    else (if t[0] == ',' && Closes(t[1..]) then "" else t[..1]) + Commas(t[1..])
  }

  lemma {:induction false} CommasOnly(t: string)
    requires NoComments(t)
    ensures Json(t) == Commas(t)
    decreases |t|
  {
    hide LiteralTail, Closes, LineStarts, BlockStarts;
    if t != [] {
      CommasOnly(t[Front(t)..]);
    }
  }

  /** A second pass can only drop commas. */
  lemma SecondPass(s: string)
    ensures Json(Json(s)) == Commas(Json(s))
  {
    hide *;
    LiteralsVerbatim(s);
    CommasOnly(Json(s));
  }

  lemma CommasNothing()
    ensures Commas("") == "" && Strip("") == ""
  {
  }

  lemma CommasLiteral(s: string, x: string)
    requires s != [] && s[0] == '"' && (Terminated(s[1..]) || x == "")
    ensures Commas(s[..Front(s)] + x) == s[..Front(s)] + Commas(x)
  {
    hide LiteralTail, Closes, Terminated;
    var u := s[..Front(s)] + x;
    var n := LiteralTail(s[1..]);
    if Terminated(s[1..]) {
      LiteralAlone(s[1..], x);
      assert u[1..] == s[1..][..n] + x;
    } else {
      UnterminatedReachesEnd(s[1..]);
      assert u[1..] == s[1..];
      CommasNothing();
    }
    assert u[..1 + n] == s[..Front(s)] && u[1 + n..] == x;
  }

  lemma CommasPlain(c: char, x: string)
    requires c != '"'
    ensures Commas([c] + x) == (if c == ',' && Closes(x) then "" else [c]) + Commas(x)
  {
    hide Closes;
    assert ([c] + x)[1..] == x && ([c] + x)[..1] == [c];
  }

  lemma {:induction false} CommasLines(t: string, x: string)
    ensures Commas(BlockLines(t) + x) == BlockLines(t) + Commas(x)
  {
    hide Commas, BlockLines, BlockTail;
    BlockStep(t);
    if |t| < 2 || (t[0] == '*' && t[1] == '/') {
      assert BlockLines(t) + x == x;
    } else {
      CommasLines(t[1..], x);
      if t[0] == '\n' {
        CommasPlain('\n', BlockLines(t[1..]) + x);
        assert BlockLines(t) + x == "\n" + (BlockLines(t[1..]) + x);
      } else {
        assert BlockLines(t) == BlockLines(t[1..]);
      }
    }
  }

  lemma ClosesPlain(c: char, x: string)
    ensures Closes([c] + x) <==> IsCloser(c) || (IsWhitespace(c) && Closes(x))
  {
    assert ([c] + x)[1..] == x;
  }

  lemma {:induction false} LinesClose(t: string, x: string)
    ensures Closes(BlockLines(t) + x) <==> Closes(x)
  {
    hide Closes, BlockLines, BlockTail;
    BlockStep(t);
    if |t| < 2 || (t[0] == '*' && t[1] == '/') {
      assert BlockLines(t) + x == x;
    } else {
      LinesClose(t[1..], x);
      if t[0] == '\n' {
        ClosesPlain('\n', BlockLines(t[1..]) + x);
        assert BlockLines(t) + x == "\n" + (BlockLines(t[1..]) + x);
      } else {
        assert BlockLines(t) == BlockLines(t[1..]);
      }
    }
  }

  // ---- One pass against two ----------------------------------------------------------------------------------

  /** Only the comments are taken out. */
  function Strip(s: string): string
    decreases |s|
  {
    if s == [] then ""
    else (if s[0] == ',' then "," else Piece(s)) + Strip(s[Front(s)..])
  }

  predicate CommentStarts(s: string) {
    LineStarts(s) || BlockStarts(s)
  }

  /** Only whitespace and comments come before a closer. */
  predicate ClosesBeyondComments(s: string)
    decreases |s|
  {
    s != [] && (IsCloser(s[0]) || ((IsWhitespace(s[0]) || CommentStarts(s)) && ClosesBeyondComments(s[Front(s)..])))
  }

  /** Somewhere a comment stands between a comma and the closer after it. */
  predicate CommentedComma(s: string)
    decreases |s|
  {
    s != [] &&
    ((s[0] == ',' && ClosesBeyondComments(s[1..]) && !Closes(s[1..])) || CommentedComma(s[Front(s)..]))
  }

  /** A token other than a literal, a comment or a comma. */
  predicate PlainStarts(s: string) {
    s != [] && s[0] != '"' && s[0] != ',' && !CommentStarts(s)
  }

  lemma StripToken(s: string)
    requires s != []
    ensures s[0] == '"' ==> Strip(s) == s[..Front(s)] + Strip(s[Front(s)..])
    ensures LineStarts(s) ==> Strip(s) == Strip(s[Front(s)..])
    ensures BlockStarts(s) ==> Strip(s) == BlockLines(s[2..]) + Strip(s[Front(s)..])
    ensures s[0] == ',' ==> Front(s) == 1 && Strip(s) == "," + Strip(s[1..])
    ensures PlainStarts(s) ==> Front(s) == 1 && Strip(s) == [s[0]] + Strip(s[1..])
  {
    hide LiteralTail, Closes, BlockLines, LineLength, BlockTail;
  }

  lemma CommentPiece(s: string)
    requires CommentStarts(s)
    ensures Piece(s) == if LineStarts(s) then "" else BlockLines(s[2..])
  {
    hide LiteralTail, Closes, BlockLines, LineLength, BlockTail;
  }

  lemma CharPiece(s: string)
    requires s != [] && s[0] != '"' && !CommentStarts(s)
    ensures Front(s) == 1 && Piece(s) == if s[0] == ',' && Closes(s[1..]) then "" else [s[0]]
  {
    hide LiteralTail, Closes, BlockLines, LineLength, BlockTail;
  }

  lemma JsonToken(s: string)
    requires s != []
    ensures s[0] == '"' ==> Json(s) == s[..Front(s)] + Json(s[Front(s)..])
    ensures LineStarts(s) ==> Json(s) == Json(s[Front(s)..])
    ensures BlockStarts(s) ==> Json(s) == BlockLines(s[2..]) + Json(s[Front(s)..])
    ensures s[0] == ',' ==> Front(s) == 1 && Json(s) == if Closes(s[1..]) then Json(s[1..]) else "," + Json(s[1..])
    ensures PlainStarts(s) ==> Front(s) == 1 && Json(s) == [s[0]] + Json(s[1..])
  {
    hide Closes, BlockLines, LiteralTail, Front, Piece, Json;
    JsonStep(s);
    if s[0] == '"' {
      LiteralFront(s);
    } else if CommentStarts(s) {
      CommentPiece(s);
    } else {
      CharPiece(s);
    }
  }

  /** The five kinds of token. */
  lemma TokenKinds(s: string)
    requires s != []
    ensures s[0] == '"' || s[0] == ',' || LineStarts(s) || BlockStarts(s) || PlainStarts(s)
    ensures IsWhitespace(s[0]) || IsCloser(s[0]) ==> PlainStarts(s)
    ensures IsCloser(s[0]) ==> !IsWhitespace(s[0])
    ensures LineStarts(s) || BlockStarts(s) ==> |s| > 1 && s[0] == '/'
  {
    if IsWhitespace(s[0]) {
      SpaceIsNoCloser(s[0]);
    }
  }

  lemma ClosesNothing()
    ensures !Closes("")
  {
  }

  lemma {:induction false} BeyondExact(s: string)
    ensures ClosesBeyondComments(s) <==> Closes(Strip(s))
    decreases |s|
  {
    hide Strip, Closes, IsWhitespace, LineStarts, BlockStarts, Front, BlockLines, IsCloser;
    if s == [] {
      CommasNothing();
      ClosesNothing();
    } else {
      TokenKinds(s);
      StripToken(s);
      BeyondExact(s[Front(s)..]);
      if s[0] == '"' {
        QuoteNoCloser(s, Strip(s[Front(s)..]));
      } else if BlockStarts(s) {
        LinesClose(s[2..], Strip(s[Front(s)..]));
      } else if !LineStarts(s) {
        ClosesPlain(s[0], Strip(s[1..]));
        CommaIsNoCloser();
      }
    }
  }

  lemma CommaIsNoCloser()
    ensures !IsCloser(',') && !IsWhitespace(',')
  {
  }

  lemma QuoteNoCloser(s: string, x: string)
    requires s != [] && s[0] == '"'
    ensures !Closes(s[..Front(s)] + x) && !IsCloser(s[0]) && !IsWhitespace(s[0]) && !CommentStarts(s)
  {
    hide LiteralTail;
    assert (s[..Front(s)] + x)[0] == '"';
  }

  lemma {:induction false} ClosesIsBeyond(s: string)
    requires Closes(s)
    ensures ClosesBeyondComments(s)
  {
    TokenKinds(s);
    if !IsCloser(s[0]) {
      ClosesIsBeyond(s[1..]);
      assert Front(s) == 1;
    }
  }

  lemma LiteralEnds(s: string)
    requires s != [] && s[0] == '"'
    ensures Terminated(s[1..]) || s[Front(s)..] == ""
  {
    if !Terminated(s[1..]) {
      UnterminatedReachesEnd(s[1..]);
    }
  }

  /** Dropping the commas after the comments never leaves more, and leaves less exactly at a commented comma. */
  lemma {:induction false} TwoPasses(s: string)
    ensures |Commas(Strip(s))| <= |Json(s)|
    ensures CommentedComma(s) ==> |Commas(Strip(s))| < |Json(s)|
    ensures !CommentedComma(s) ==> Commas(Strip(s)) == Json(s)
    decreases |s|
  {
    hide Strip, Commas, Json, Closes, ClosesBeyondComments, LineStarts, BlockStarts, Front, BlockLines, Terminated;
    InsideNothing();
    CommasNothing();
    if s != [] {
      TokenKinds(s);
      StripToken(s);
      JsonToken(s);
      var rest := s[Front(s)..];
      TwoPasses(rest);
      if s[0] == '"' {
        LiteralEnds(s);
        CommasLiteral(s, Strip(rest));
      } else if BlockStarts(s) {
        CommasLines(s[2..], Strip(rest));
      } else if !LineStarts(s) {
        CommasPlain(s[0], Strip(rest));
        if s[0] == ',' {
          BeyondExact(s[1..]);
          if Closes(s[1..]) { ClosesIsBeyond(s[1..]); }
        }
      }
    }
  }

  /** The single pass equals stripping comments and then trailing commas exactly when no comma is commented. */
  lemma OnePassExact(s: string)
    ensures Json(s) == Commas(Strip(s)) <==> !CommentedComma(s)
  {
    hide *;
    TwoPasses(s);
  }

  // ---- Idempotence -------------------------------------------------------------------------------------------

  /** A closer will follow once the comments and a comma that is dropped are gone. */
  predicate ClosesLate(s: string)
    decreases |s|
  {
    s != [] && (|| IsCloser(s[0])
                || ((IsWhitespace(s[0]) || CommentStarts(s)) && ClosesLate(s[Front(s)..]))
                || (s[0] == ',' && Closes(s[1..])))
  }

  /** Somewhere a comma is kept that the output itself shows to be trailing. */
  predicate Leftover(s: string)
    decreases |s|
  {
    s != [] && ((s[0] == ',' && ClosesLate(s[1..]) && !Closes(s[1..])) || Leftover(s[Front(s)..]))
  }

  lemma {:induction false} ClosesInOutput(s: string)
    requires Closes(s)
    ensures Closes(Json(s))
  {
    hide Json, IsWhitespace, IsCloser;
    ClosesFirst(s);
    if !IsCloser(s[0]) {
      ClosesInOutput(s[1..]);
    }
  }

  lemma {:induction false} LateExact(s: string)
    ensures ClosesLate(s) <==> Closes(Json(s))
    decreases |s|
  {
    hide Json, Closes, IsWhitespace, LineStarts, BlockStarts, Front, BlockLines, IsCloser;
    InsideNothing();
    ClosesNothing();
    if s != [] {
      TokenKinds(s);
      JsonToken(s);
      LateExact(s[Front(s)..]);
      if s[0] == '"' {
        QuoteNoCloser(s, Json(s[Front(s)..]));
      } else if BlockStarts(s) {
        LinesClose(s[2..], Json(s[Front(s)..]));
        SlashIsNoCloser();
      } else if LineStarts(s) {
        SlashIsNoCloser();
      } else if s[0] == ',' && Closes(s[1..]) {
        ClosesInOutput(s[1..]);
      } else {
        ClosesPlain(s[0], Json(s[1..]));
        CommaIsNoCloser();
      }
    }
  }

  lemma SlashIsNoCloser()
    ensures !IsCloser('/') && !IsWhitespace('/')
  {
  }

  /** A second pass leaves less exactly when a comma is left over. */
  lemma {:induction false} Rescan(s: string)
    ensures |Commas(Json(s))| <= |Json(s)|
    ensures Leftover(s) ==> |Commas(Json(s))| < |Json(s)|
    ensures !Leftover(s) ==> Commas(Json(s)) == Json(s)
    decreases |s|
  {
    hide Commas, Json, Closes, ClosesLate, LineStarts, BlockStarts, Front, BlockLines, Terminated;
    InsideNothing();
    CommasNothing();
    if s != [] {
      TokenKinds(s);
      JsonToken(s);
      var rest := s[Front(s)..];
      Rescan(rest);
      if s[0] == '"' {
        LiteralEnds(s);
        CommasLiteral(s, Json(rest));
      } else if BlockStarts(s) {
        CommasLines(s[2..], Json(rest));
      } else if !LineStarts(s) {
        CommasPlain(s[0], Json(rest));
        LateExact(rest);
      }
    }
  }

  /** Scanning twice is scanning once exactly when no comma is left over. */
  lemma IdempotentExact(s: string)
    ensures Json(Json(s)) == Json(s) <==> !Leftover(s)
  {
    hide *;
    SecondPass(s);
    Rescan(s);
  }

  lemma TwoCommasLeft()
    ensures Leftover(",,]")
  {
    hide Leftover;
    assert ",]"[1..] == "]" && Closes("]");
    assert ClosesLate(",]") && !Closes(",]");
    LeftAtComma(",]");
    assert "," + ",]" == ",,]";
  }

  lemma CommentedCommaLeft()
    ensures Leftover(",//\n]")
  {
    hide Leftover, LiteralTail;
    var line, end := "//\n]", "\n]";
    assert line[1..] == "/\n]" && line[1..][1..] == end && line[2..] == end && end[1..] == "]";
    assert LineLength(end) == 0 && LineLength(line[1..]) == 1;
    assert LineStarts(line) && Front(line) == 2;
    assert ClosesLate("]") && ClosesLate(end) && ClosesLate(line) && !Closes(line);
    LeftAtComma(line);
    assert "," + line == ",//\n]";
  }

  lemma LeftAtComma(rest: string)
    requires ClosesLate(rest) && !Closes(rest)
    ensures Leftover("," + rest)
  {
    hide ClosesLate, Closes;
    assert ("," + rest)[1..] == rest;
  }

  /** Two commas before a closer, or a comma and a comment, need a second pass. */
  lemma NotIdempotent()
    ensures Json(Json(",,]")) != Json(",,]")
    ensures Json(Json(",//\n]")) != Json(",//\n]")
  {
    hide *;
    TwoCommasLeft();
    IdempotentExact(",,]");
    CommentedCommaLeft();
    IdempotentExact(",//\n]");
  }

  // ---- Line numbers ------------------------------------------------------------------------------------------

  function LineFeeds(s: string): nat {
    if s == [] then 0 else (if s[0] == '\n' then 1 else 0) + LineFeeds(s[1..])
  }

  lemma {:induction false} LineFeedsAdd(a: string, b: string)
    ensures LineFeeds(a + b) == LineFeeds(a) + LineFeeds(b)
  {
    if a == [] {
      assert a + b == b;
    } else {
      LineFeedsAdd(a[1..], b);
      assert (a + b)[1..] == a[1..] + b;
    }
  }

  /** A block comment that is ended. */
  predicate Ended(t: string) {
    |t| >= 2 && ((t[0] == '*' && t[1] == '/') || Ended(t[1..]))
  }

  /** The input ends inside a block comment. */
  predicate OpenBlock(s: string)
    decreases |s|
  {
    s != [] && if BlockStarts(s) && !Ended(s[2..]) then true else OpenBlock(s[Front(s)..])
  }

  function LastFeed(t: string): nat {
    if t != [] && t[|t| - 1] == '\n' then 1 else 0
  }

  lemma {:induction false} BlockFeeds(t: string)
    ensures LineFeeds(t[..BlockTail(t)]) == LineFeeds(BlockLines(t)) + (if Ended(t) then 0 else LastFeed(t))
    ensures !Ended(t) ==> BlockTail(t) == |t|
  {
    hide BlockLines, BlockTail;
    BlockStep(t);
    if |t| < 2 {
      assert t[..BlockTail(t)] == t;
      if |t| == 1 {
        assert t == [t[0]] && t[1..] == [];
      }
    } else if t[0] == '*' && t[1] == '/' {
      assert t[..2] == "*/" && "*/"[1..] == "/" && "/"[1..] == "";
    } else {
      BlockFeeds(t[1..]);
      assert t[..BlockTail(t)][1..] == t[1..][..BlockTail(t[1..])];
      LineFeedsAdd(if t[0] == '\n' then "\n" else "", BlockLines(t[1..]));
      assert "\n"[1..] == "" && LineFeeds("\n") == 1;
    }
  }

  lemma {:induction false} LineHasNoFeed(s: string)
    ensures LineFeeds(s[..LineLength(s)]) == 0
  {
    if s != [] && s[0] != '\n' {
      LineHasNoFeed(s[1..]);
      assert s[..LineLength(s)][1..] == s[1..][..LineLength(s[1..])];
    }
  }

  /** The line feeds of one token, as far as they are lost. */
  lemma TokenFeeds(s: string)
    requires s != []
    ensures LineFeeds(s[..Front(s)]) ==
            LineFeeds(Piece(s)) + (if BlockStarts(s) && !Ended(s[2..]) then LastFeed(s[2..]) else 0)
    ensures BlockStarts(s) && !Ended(s[2..]) ==> Front(s) == |s|
  {
    hide LiteralTail, LineLength, BlockTail, BlockLines, Closes, Ended, LineFeeds;
    if LineStarts(s) {
      LineHasNoFeed(s);
      NoFeeds();
    } else if BlockStarts(s) {
      var t := s[2..];
      BlockFeeds(t);
      assert s[..Front(s)] == "/*" + t[..BlockTail(t)];
      LineFeedsAdd("/*", t[..BlockTail(t)]);
      NoFeeds();
    } else if s[0] == ',' {
      assert s[..Front(s)] == ",";
      NoFeeds();
    }
  }

  lemma NoFeeds()
    ensures LineFeeds("") == 0 && LineFeeds("/*") == 0 && LineFeeds(",") == 0
  {
    assert "/*"[1..] == "*" && "*"[1..] == "" && ","[1..] == "";
  }

  /** Lines keep their numbers, except for a line feed at the very end of an unended block comment. */
  lemma {:induction false} LineFeedsExact(s: string)
    ensures LineFeeds(Json(s)) == LineFeeds(s) - (if OpenBlock(s) then LastFeed(s) else 0)
    decreases |s|
  {
    hide LineFeeds, Json, Front, Piece, BlockStarts, Ended;
    InsideNothing();
    if s != [] {
      TokenKinds(s);
      JsonStep(s);
      TokenFeeds(s);
      var rest := s[Front(s)..];
      LineFeedsExact(rest);
      LineFeedsAdd(Piece(s), Json(rest));
      LineFeedsAdd(s[..Front(s)], rest);
      assert s == s[..Front(s)] + rest;
      if BlockStarts(s) && !Ended(s[2..]) {
        assert rest == "";
        OpenLast(s);
      } else {
        RestOpen(rest);
      }
    }
  }

  lemma OpenLast(s: string)
    requires BlockStarts(s)
    ensures LastFeed(s[2..]) == LastFeed(s) && !OpenBlock("")
  {
  }

  lemma RestOpen(rest: string)
    ensures OpenBlock(rest) ==> rest != ""
  {
  }
}
