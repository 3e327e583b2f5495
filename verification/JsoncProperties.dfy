/** What the scanner keeps, and how far it is from stripping comments first and trailing commas after. */
module JsoncProperties {
  import opened Jsonc

  // ---- The output is a subsequence of the input --------------------------------------------------------------

  /** `a` is `b` with some characters left out. */
  predicate Subsequence(a: string, b: string) {
    a == "" || (b != "" && ((a[0] == b[0] && Subsequence(a[1..], b[1..])) || Subsequence(a, b[1..])))
  }

  lemma {:induction false} SubsequenceSame(a: string)
    ensures Subsequence(a, a)
  {
    if a != "" {
      SubsequenceSame(a[1..]);
    }
  }

  lemma {:induction false} SubsequenceJoin(a: string, b: string, c: string, d: string)
    requires Subsequence(a, b) && Subsequence(c, d)
    ensures Subsequence(a + c, b + d)
    decreases |b|
  {
    if b == "" {
      assert a + c == c && b + d == d;
    } else {
      assert (b + d)[1..] == b[1..] + d;
      if a != "" && a[0] == b[0] && Subsequence(a[1..], b[1..]) {
        SubsequenceJoin(a[1..], b[1..], c, d);
        assert (a + c)[1..] == a[1..] + c;
      } else {
        SubsequenceJoin(a, b[1..], c, d);
      }
    }
  }

  lemma {:induction false} LinesSubsequence(t: string)
    ensures Subsequence(BlockLines(t), t[..BlockTail(t)])
  {
    if |t| >= 2 && !(t[0] == '*' && t[1] == '/') {
      LinesSubsequence(t[1..]);
      assert t[..BlockTail(t)][1..] == t[1..][..BlockTail(t[1..])];
      if t[0] == '\n' {
        assert BlockLines(t)[1..] == BlockLines(t[1..]);
      } else {
        assert BlockLines(t) == BlockLines(t[1..]);
      }
    }
  }

  lemma PieceSubsequence(s: string)
    requires s != []
    ensures Subsequence(Piece(s), s[..Front(s)])
  {
    hide Subsequence, Closes, LineLength, BlockTail, BlockLines, LiteralTail;
    EmptySubsequence(s[..Front(s)]);
    SubsequenceSame(s[..Front(s)]);
    if BlockStarts(s) {
      var t := s[2..];
      LinesSubsequence(t);
      EmptySubsequence(s[..2]);
      SubsequenceJoin("", s[..2], BlockLines(t), t[..BlockTail(t)]);
      assert s[..Front(s)] == s[..2] + t[..BlockTail(t)] && "" + BlockLines(t) == BlockLines(t);
    }
  }

  lemma EmptySubsequence(s: string)
    ensures Subsequence("", s)
  {
  }

  lemma {:induction false} JsonIsSubsequence(s: string)
    ensures Subsequence(Json(s), s)
    decreases |s|
  {
    hide Piece, Subsequence, Json;
    if s == [] {
      InsideNothing();
      EmptySubsequence(s);
    } else {
      JsonStep(s);
      PieceSubsequence(s);
      JsonIsSubsequence(s[Front(s)..]);
      SubsequenceJoin(Piece(s), s[..Front(s)], Json(s[Front(s)..]), s[Front(s)..]);
      assert s == s[..Front(s)] + s[Front(s)..];
    }
  }

  // ---- Rescanning the output ---------------------------------------------------------------------------------

  /** A literal that does reach its closing quote. */
  predicate Terminated(t: string) {
    t != [] && if t[0] == '\\' && |t| > 1 then Terminated(t[2..]) else t[0] == '"' || Terminated(t[1..])
  }

  lemma {:induction false} UnterminatedReachesEnd(t: string)
    requires !Terminated(t)
    ensures LiteralTail(t) == |t|
  {
    if t != [] {
      UnterminatedReachesEnd(if t[0] == '\\' && |t| > 1 then t[2..] else t[1..]);
    }
  }

  /** A terminated literal ends where it did, whatever follows it. */
  lemma {:induction false} LiteralAlone(t: string, x: string)
    requires Terminated(t)
    ensures LiteralTail(t[..LiteralTail(t)] + x) == LiteralTail(t)
  {
    var u := t[..LiteralTail(t)] + x;
    if t[0] == '\\' && |t| > 1 {
      LiteralAlone(t[2..], x);
      assert u[2..] == t[2..][..LiteralTail(t[2..])] + x;
    } else if t[0] != '"' {
      LiteralAlone(t[1..], x);
      assert u[1..] == t[1..][..LiteralTail(t[1..])] + x;
    }
  }

  /** The string literals, in order. */
  function Literals(s: string): seq<string>
    decreases |s|
  {
    if s == [] then []
    else (if s[0] == '"' then [s[..Front(s)]] else []) + Literals(s[Front(s)..])
  }

  /** No comment begins outside a string literal. */
  predicate NoComments(s: string)
    decreases |s|
  {
    s == [] || (!LineStarts(s) && !BlockStarts(s) && NoComments(s[Front(s)..]))
  }

  /** The first literal of the input is the first of the output. */
  lemma LiteralFirst(s: string)
    requires s != [] && s[0] == '"'
    ensures var out := Json(s);
            out != [] && out[0] == '"' && Front(out) == Front(s) && out[..Front(s)] == s[..Front(s)] &&
            out[Front(s)..] == Json(s[Front(s)..])
  {
    hide LiteralTail, Json, Closes;
    JsonStep(s);
    var t, n := s[1..], LiteralTail(s[1..]);
    assert Piece(s) == s[..1 + n];
    var out := Json(s);
    assert out[1..] == t[..n] + Json(s[Front(s)..]);
    if Terminated(t) {
      LiteralAlone(t, Json(s[Front(s)..]));
    } else {
      UnterminatedReachesEnd(t);
      assert s[Front(s)..] == [];
      InsideNothing();
      assert out[1..] == t;
    }
  }

  /** Text before a closer that only has whitespace in between begins as it is. */
  lemma {:induction false} ClosesFirst(s: string)
    requires Closes(s)
    ensures Json(s) != [] && Json(s)[0] == s[0] && s[0] != '/' && s[0] != '*' && s[0] != '"' && s[0] != ','
    ensures Json(s)[1..] == Json(s[1..])
  {
    hide Json, IsWhitespace;
    if IsWhitespace(s[0]) {
      SpaceIsNoCloser(s[0]);
    }
    JsonPlain(s);
  }

  /** What follows a plain character: if it starts neither with a slash nor with a star, nor does its output. */
  lemma NoNewComment(s: string)
    requires s != [] && s[0] != '/' && s[0] != '*'
    ensures Json(s) != [] ==> Json(s)[0] != '/' && Json(s)[0] != '*'
  {
    hide Json, Closes;
    if s[0] == '"' {
      LiteralFirst(s);
    } else {
      JsonPlain(s);
      if s[0] == ',' && Closes(s[1..]) {
        ClosesFirst(s[1..]);
      }
    }
  }

  /** A token that is neither a literal nor a comment is copied, and cannot begin a comment in the output. */
  lemma PlainStays(s: string)
    requires s != [] && s[0] != '"' && !LineStarts(s) && !BlockStarts(s) && !(s[0] == ',' && Closes(s[1..]))
    ensures var out := Json(s);
            out == s[..1] + Json(s[1..]) && !LineStarts(out) && !BlockStarts(out) && Front(out) == 1
  {
    hide Json, Closes;
    JsonPlain(s);
    if s[0] == '/' && |s| > 1 {
      NoNewComment(s[1..]);
    }
    InsideNothing();
  }

  lemma {:induction false} LinesAreNoTokens(t: string, x: string)
    ensures Literals(BlockLines(t) + x) == Literals(x) && (NoComments(BlockLines(t) + x) <==> NoComments(x))
  {
    hide Literals, NoComments;
    if |t| < 2 || (t[0] == '*' && t[1] == '/') {
      assert BlockLines(t) + x == x;
    } else {
      LinesAreNoTokens(t[1..], x);
      if t[0] == '\n' {
        LineFeed(BlockLines(t[1..]) + x);
        assert BlockLines(t) + x == "\n" + (BlockLines(t[1..]) + x);
      } else {
        assert BlockLines(t) == BlockLines(t[1..]);
      }
    }
  }

  lemma LineFeed(x: string)
    ensures Literals("\n" + x) == Literals(x) && (NoComments("\n" + x) <==> NoComments(x))
  {
    assert ("\n" + x)[1..] == x;
  }

  /** Every string literal is kept verbatim, none appears, and the output has no comment. */
  lemma {:induction false} LiteralsVerbatim(s: string)
    ensures Literals(Json(s)) == Literals(s) && NoComments(Json(s))
    decreases |s|
  {
    hide Json, Closes, Piece, LineLength, BlockLines, BlockTail, LiteralTail;
    if s == [] {
      InsideNothing();
    } else {
      LiteralsVerbatim(s[Front(s)..]);
      if s[0] == '"' {
        LiteralFirst(s);
      } else if LineStarts(s) {
        JsonLine(s);
      } else if BlockStarts(s) {
        BlockGone(s);
      } else if s[0] == ',' && Closes(s[1..]) {
        JsonPlain(s);
        assert "" + Json(s[1..]) == Json(s[1..]);
      } else {
        PlainStays(s);
        assert Json(s)[1..] == Json(s[1..]);
      }
    }
  }

  lemma BlockGone(s: string)
    requires BlockStarts(s)
    ensures Literals(Json(s)) == Literals(Json(s[Front(s)..])) && (NoComments(Json(s)) <==> NoComments(Json(s[Front(s)..])))
  {
    hide Json, Literals, NoComments, BlockLines, BlockTail;
    JsonBlock(s);
    LinesAreNoTokens(s[2..], Json(s[Front(s)..]));
  }
}
