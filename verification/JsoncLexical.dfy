/** Where tokens end and what becomes of them, told by the characters alone. */
module JsoncLexical {
  import opened Jsonc
  import opened JsoncCommas

  // ---- Where tokens end --------------------------------------------------------------------------------------

  /** A line ends at its first line feed, or with the input. */
  lemma {:induction false} LineEnds(s: string)
    ensures var n := LineLength(s);
            (n == |s| || (n < |s| && s[n] == '\n')) && forall i :: 0 <= i < n ==> s[i] != '\n'
  {
    if s != [] && s[0] != '\n' {
      LineEnds(s[1..]);
    }
  }

  /** `position` is where a star is followed by a slash. */
  predicate EndsComment(t: string, position: int) {
    0 <= position < |t| - 1 && t[position] == '*' && t[position + 1] == '/'
  }

  /** A block comment ends right after the first star with a slash, or with the input. */
  lemma {:induction false} BlockEnds(t: string)
    ensures var n := BlockTail(t);
            if exists i :: EndsComment(t, i) then EndsComment(t, n - 2) && forall i :: EndsComment(t, i) ==> i >= n - 2
            else n == |t|
  {
    if |t| >= 2 && !EndsComment(t, 0) {
      BlockEnds(t[1..]);
      CommentEndsFrom(t);
    } else if |t| >= 2 {
      assert EndsComment(t, 0);
    }
  }

  lemma CommentEndsFrom(t: string)
    requires |t| >= 2 && !EndsComment(t, 0)
    ensures forall i :: EndsComment(t, i) <==> EndsComment(t[1..], i - 1)
    ensures (exists i :: EndsComment(t, i)) <==> exists i :: EndsComment(t[1..], i)
  {
    forall i ensures EndsComment(t, i) <==> EndsComment(t[1..], i - 1) {
    }
    if i :| EndsComment(t[1..], i) {
      assert i + 1 - 1 == i;
      assert EndsComment(t, i + 1);
    }
  }

  /** The number of backslashes right before a position. */
  function Slashes(t: string, i: nat): nat
    requires i <= |t|
  {
    if i > 0 && t[i - 1] == '\\' then 1 + Slashes(t, i - 1) else 0
  }

  /** A quote that is not escaped: the number of backslashes before it is even. */
  predicate Quote(t: string, i: int) {
    0 <= i < |t| && t[i] == '"' && Slashes(t, i) % 2 == 0
  }

  lemma {:induction false} SlashesShift(t: string, m: nat, i: nat)
    requires m + i <= |t|
    ensures Slashes(t, m + i) == Slashes(t[m..], i) + if Slashes(t[m..], i) == i then Slashes(t, m) else 0
    ensures Slashes(t[m..], i) <= i
  {
    if i > 0 {
      assert t[m..][i - 1] == t[m + (i - 1)];
      if t[m + i - 1] == '\\' {
        SlashesShift(t, m, i - 1);
      } else {
        SlashesBound(t[m..], i - 1);
      }
    }
  }

  lemma {:induction false} SlashesBound(t: string, i: nat)
    requires i <= |t|
    ensures Slashes(t, i) <= i
  {
    if i > 0 {
      SlashesBound(t, i - 1);
    }
  }

  /** After a character that is no backslash, or after an escaped one, everything is as at the start. */
  lemma QuoteShift(t: string, m: nat, i: int)
    requires m <= |t| && Slashes(t, m) % 2 == 0
    ensures i >= m ==> (Quote(t, i) <==> Quote(t[m..], i - m))
  {
    hide Slashes;
    if m <= i < |t| {
      SlashesShift(t, m, i - m);
      EvenMore(Slashes(t[m..], i - m), Slashes(t, m));
      assert m + (i - m) == i && t[m..][i - m] == t[i];
    }
  }

  lemma EvenMore(a: nat, b: nat)
    requires b % 2 == 0
    ensures (a + b) % 2 == a % 2
  {
  }

  /** The position `n` is right after the first quote that is not escaped, or the end if there is none. */
  ghost predicate EndsLiteral(t: string, n: nat) {
    if exists i :: Quote(t, i) then Quote(t, n - 1) && forall i :: Quote(t, i) ==> i >= n - 1 else n == |t|
  }

  lemma EndShifts(t: string, m: nat, n: nat)
    requires m <= |t| && EndsLiteral(t[m..], n)
    requires (exists i :: Quote(t, i)) <==> exists i :: Quote(t[m..], i)
    requires forall i :: Quote(t, i) <==> i >= m && Quote(t[m..], i - m)
    ensures EndsLiteral(t, n + m)
  {
    if exists i :: Quote(t[m..], i) {
      QuoteInside(t[m..], n - 1);
      assert n + m - 1 - m == n - 1;
      assert Quote(t, n + m - 1);
    }
  }

  /** A literal ends right after the first quote that is not escaped, or with the input. */
  lemma {:induction false} LiteralEnds(t: string)
    ensures EndsLiteral(t, LiteralTail(t))
  {
    hide Quote, EndsLiteral;
    if t == [] {
      NoQuote(t);
    } else if t[0] == '\\' && |t| > 1 {
      LiteralEnds(t[2..]);
      TwoSlashes(t);
      forall i ensures i >= 2 ==> (Quote(t, i) <==> Quote(t[2..], i - 2)) {
        EscapedPair(t, i);
      }
      QuotesFrom(t, 2);
      EndShifts(t, 2, LiteralTail(t[2..]));
    } else if t[0] == '"' {
      EndsAtFirst(t);
    } else if t[0] == '\\' {
      NoQuote(t);
    } else {
      LiteralEnds(t[1..]);
      QuoteFirst(t);
      forall i ensures i >= 1 ==> (Quote(t, i) <==> Quote(t[1..], i - 1)) {
        QuoteShift(t, 1, i);
      }
      QuotesFrom(t, 1);
      EndShifts(t, 1, LiteralTail(t[1..]));
    }
  }

  lemma NoQuote(t: string)
    requires t == [] || t == ['\\']
    ensures EndsLiteral(t, |t|)
  {
  }

  lemma EndsAtFirst(t: string)
    requires t != [] && t[0] == '"'
    ensures EndsLiteral(t, 1)
  {
    assert Quote(t, 0);
  }

  lemma QuoteFirst(t: string)
    requires t != []
    ensures Slashes(t, 0) == 0 && (Quote(t, 0) <==> t[0] == '"') && (t[0] != '\\' ==> Slashes(t, 1) == 0)
    ensures forall i :: Quote(t, i) ==> i >= 0
  {
  }

  /** Neither the backslash nor what it escapes ends the literal. */
  lemma TwoSlashes(t: string)
    requires |t| > 1 && t[0] == '\\'
    ensures !Quote(t, 0) && !Quote(t, 1) && forall i :: Quote(t, i) ==> i >= 0
  {
    assert Slashes(t, 1) == 1 + Slashes(t, 0);
  }

  lemma EscapedPair(t: string, i: int)
    requires |t| > 1 && t[0] == '\\'
    ensures i >= 2 ==> (Quote(t, i) <==> Quote(t[2..], i - 2))
  {
    assert Slashes(t, 1) == 1 + Slashes(t, 0);
    assert Slashes(t, 2) == if t[1] == '\\' then 1 + Slashes(t, 1) else 0;
    QuoteShift(t, 2, i);
  }

  lemma QuotesFrom(t: string, m: nat)
    requires m <= |t| && (forall i :: 0 <= i < m ==> !Quote(t, i)) && forall i :: Quote(t, i) ==> i >= 0
    requires forall i :: i >= m ==> (Quote(t, i) <==> Quote(t[m..], i - m))
    ensures (exists i :: Quote(t, i)) <==> exists i :: Quote(t[m..], i)
    ensures forall i :: Quote(t, i) <==> i >= m && Quote(t[m..], i - m)
  {
    if i :| Quote(t, i) {
      assert Quote(t[m..], i - m);
    }
    if i :| Quote(t[m..], i) {
      QuoteInside(t[m..], i);
      assert i + m - m == i;
      assert Quote(t, i + m);
    }
  }

  lemma QuoteInside(t: string, i: int)
    requires Quote(t, i)
    ensures 0 <= i < |t|
  {
  }

  /** Only whitespace comes before the first closer. */
  lemma {:induction false} ClosesExact(s: string)
    ensures Closes(s) <==> exists i :: 0 <= i < |s| && IsCloser(s[i]) && forall j :: 0 <= j < i ==> IsWhitespace(s[j])
  {
    if s != [] && !IsCloser(s[0]) && IsWhitespace(s[0]) {
      ClosesExact(s[1..]);
      if i :| 0 <= i < |s[1..]| && IsCloser(s[1..][i]) && forall j :: 0 <= j < i ==> IsWhitespace(s[1..][j]) {
        assert IsCloser(s[i + 1]);
        forall j | 0 <= j < i + 1 ensures IsWhitespace(s[j]) {
          assert j > 0 ==> s[j] == s[1..][j - 1];
        }
      }
      if i :| 0 <= i < |s| && IsCloser(s[i]) && forall j :: 0 <= j < i ==> IsWhitespace(s[j]) {
        assert IsCloser(s[1..][i - 1]);
        forall j | 0 <= j < i - 1 ensures IsWhitespace(s[1..][j]) {
          assert s[1..][j] == s[j + 1];
        }
      }
    }
  }

  // ---- What becomes of them ----------------------------------------------------------------------------------

  /** Text without quotes, slashes and commas. */
  predicate Ordinary(u: string) {
    forall i :: 0 <= i < |u| ==> u[i] != '"' && u[i] != '/' && u[i] != ','
  }

  /** Ordinary text is kept as it is, whatever comes after it. */
  lemma {:induction false} OrdinaryKept(u: string, v: string)
    requires Ordinary(u)
    ensures Json(u + v) == u + Json(v)
  {
    hide Json;
    if u == [] {
      assert u + v == v;
    } else {
      var s := u + v;
      assert s[1..] == u[1..] + v && s[0] == u[0] && s[..1] == u[..1];
      OrdinaryKept(u[1..], v);
      JsonPlain(s);
      assert u == u[..1] + u[1..];
    }
  }

  lemma LineLengthIs(c: string, v: string)
    requires forall i :: 0 <= i < |c| ==> c[i] != '\n'
    ensures LineLength(c + ("\n" + v)) == |c|
  {
    hide LineLength;
    var s := c + ("\n" + v);
    LineEnds(s);
    assert s[|c|] == '\n';
    assert forall i :: 0 <= i < |c| ==> s[i] == c[i];
  }

  /** A line comment goes, whatever it says; its line feed stays. */
  lemma LineCommentGoes(u: string, c: string, v: string)
    requires Ordinary(u) && forall i :: 0 <= i < |c| ==> c[i] != '\n'
    ensures Json(u + ("//" + c + ("\n" + v))) == u + ("\n" + Json(v))
  {
    hide Json, Ordinary, LineLength;
    var s := "//" + c + ("\n" + v);
    OrdinaryKept(u, s);
    LineLengthIs("//" + c, v);
    JsonLine(s);
    assert s[LineLength(s)..] == "\n" + v;
    FeedIsOrdinary();
    OrdinaryKept("\n", v);
  }

  lemma FeedIsOrdinary()
    ensures Ordinary("\n")
  {
  }

  /** A line comment at the end of the input. */
  lemma LastLineCommentGoes(u: string, c: string)
    requires Ordinary(u) && forall i :: 0 <= i < |c| ==> c[i] != '\n'
    ensures Json(u + ("//" + c)) == u
  {
    hide Json, Ordinary, LineLength;
    var s := "//" + c;
    OrdinaryKept(u, s);
    LineEnds(s);
    JsonLine(s);
    assert s[|s|..] == "";
    InsideNothing();
  }

  /** The line feeds of a text. */
  function Feeds(c: string): string {
    if c == [] then "" else (if c[0] == '\n' then "\n" else "") + Feeds(c[1..])
  }

  lemma {:induction false} BlockLinesAre(c: string, v: string)
    requires forall i :: 0 <= i < |c| ==> !EndsComment(c + "*/", i)
    ensures BlockLines(c + "*/" + v) == Feeds(c) && BlockTail(c + "*/" + v) == |c| + 2
  {
    var t := c + "*/" + v;
    BlockStep(t);
    if c == [] {
      assert t[0] == '*' && t[1] == '/';
    } else {
      assert t[0] == (c + "*/")[0] && t[1] == (c + "*/")[1];
      assert !EndsComment(c + "*/", 0);
      forall i | 0 <= i < |c[1..]| ensures !EndsComment(c[1..] + "*/", i) {
        assert c[1..] + "*/" == (c + "*/")[1..];
        assert !EndsComment(c + "*/", i + 1);
      }
      BlockLinesAre(c[1..], v);
      assert t[1..] == c[1..] + "*/" + v;
    }
  }

  /** A block comment goes, whatever it says; its line feeds stay. */
  lemma BlockCommentGoes(u: string, c: string, v: string)
    requires Ordinary(u) && forall i :: 0 <= i < |c| ==> !EndsComment(c + "*/", i)
    ensures Json(u + ("/*" + (c + "*/" + v))) == u + (Feeds(c) + Json(v))
  {
    hide Json, Ordinary, BlockLines, BlockTail, EndsComment, Feeds;
    var s := "/*" + (c + "*/" + v);
    OrdinaryKept(u, s);
    BlockLinesAre(c, v);
    assert s[2..] == c + "*/" + v;
    JsonBlock(s);
    assert s[2 + (|c| + 2)..] == v;
  }

  /** A literal is kept to the letter: quotes that are escaped, slashes, stars and commas in it mean nothing. */
  lemma LiteralStays(u: string, c: string, v: string)
    requires Ordinary(u) && Quote(c + "\"", |c|) && forall i :: 0 <= i < |c| ==> !Quote(c + "\"", i)
    ensures Json(u + ("\"" + (c + "\"" + v))) == u + ("\"" + c + "\"" + Json(v))
  {
    hide Json, Ordinary, LiteralTail, Quote, Inside;
    var s, t := "\"" + (c + "\"" + v), c + "\"" + v;
    OrdinaryKept(u, s);
    assert s[1..] == t && s[..1] == "\"";
    JsonOpens(s);
    FirstQuote(c, v);
    InsideIs(t, |c| + 1);
    assert t[..|c| + 1] == c + "\"" && t[|c| + 1..] == v;
  }

  lemma InsideIs(t: string, n: nat)
    requires n == LiteralTail(t)
    ensures n <= |t| && Inside(t) == t[..n] + Json(t[n..])
  {
    hide Json, LiteralTail;
  }

  lemma FirstQuote(c: string, v: string)
    requires Quote(c + "\"", |c|) && forall i :: 0 <= i < |c| ==> !Quote(c + "\"", i)
    ensures LiteralTail(c + "\"" + v) == |c| + 1
  {
    hide LiteralTail;
    var t := c + "\"" + v;
    forall i | 0 <= i <= |c| ensures Quote(t, i) <==> Quote(c + "\"", i) {
      SlashesFront(c + "\"", v, i);
    }
    LiteralEnds(t);
  }

  lemma {:induction false} SlashesFront(a: string, b: string, i: nat)
    requires i < |a|
    ensures Slashes(a + b, i) == Slashes(a, i) && (a + b)[i] == a[i]
  {
    if i > 0 {
      SlashesFront(a, b, i - 1);
    }
  }

  /** A comma goes exactly when only whitespace comes between it and a closer. */
  lemma CommaExact(u: string, v: string)
    requires Ordinary(u)
    ensures Json(u + ("," + v)) ==
            u + ((if exists i :: 0 <= i < |v| && IsCloser(v[i]) && forall j :: 0 <= j < i ==> IsWhitespace(v[j])
                  then "" else ",") + Json(v))
  {
    hide Json, Ordinary, Closes, IsCloser, IsWhitespace;
    var s := "," + v;
    OrdinaryKept(u, s);
    assert s[1..] == v && s[..1] == ",";
    JsonPlain(s);
    ClosesExact(v);
  }
}
