/** What sanitizing means for text of any length: a projection onto the well-formed texts that reports what it lost. */
module Utf8Properties {
  import opened Wrappers
  import opened Utf8

  // ---- Well-formed text --------------------------------------------------------------------------------------

  lemma FrontChar(s: Bytes, w: nat)
    requires 0 < w <= |s| && Char(s[..w])
    ensures Width(s) == w
  {
    hide Char;
  }

  lemma CharBound(c: Bytes, s: Bytes)
    requires Char(c)
    ensures Width(c + s) == |c| > 0
    ensures (c + s)[..|c|] == c && (c + s)[|c|..] == s
  {
    CharNonempty(c);
    assert (c + s)[..|c|] == c;
    FrontChar(c + s, |c|);
  }

  lemma CharNonempty(c: Bytes)
    requires Char(c)
    ensures 0 < |c| <= 4
  {
  }

  lemma ReplacementIsChar()
    ensures Char(REPLACEMENT) && |REPLACEMENT| == 3
  {
  }

  lemma WellFormedMore(c: Bytes, s: Bytes)
    requires Char(c) && WellFormed(s)
    ensures WellFormed(c + s)
  {
    hide Char;
    CharBound(c, s);
  }

  /** The output is always well-formed. */
  lemma {:induction false} SanitizedWellFormed(s: Bytes)
    ensures WellFormed(Sanitized(s))
    decreases |s|
  {
    hide Char;
    if s != [] {
      if Width(s) > 0 {
        SanitizedWellFormed(s[Width(s)..]);
        WellFormedMore(s[..Width(s)], Sanitized(s[Width(s)..]));
      } else {
        SanitizedWellFormed(s[1..]);
        ReplacementIsChar();
        WellFormedMore(REPLACEMENT, Sanitized(s[1..]));
      }
    }
  }

  lemma FrontStep(c: Bytes, s: Bytes)
    requires Char(c)
    ensures Sanitized(c + s) == c + Sanitized(s)
    ensures Lossy(c + s) <==> c == REPLACEMENT || Lossy(s)
  {
    hide Char;
    CharBound(c, s);
  }

  /** A well-formed front is kept as it is, and what follows is sanitized as if it stood alone. */
  lemma {:induction false} Distributes(a: Bytes, b: Bytes)
    requires WellFormed(a)
    ensures Sanitized(a + b) == a + Sanitized(b)
    ensures Lossy(a + b) <==> Lossy(a) || Lossy(b)
    decreases |a|
  {
    hide Char, Sanitized, Lossy;
    if a == [] {
      assert a + b == b;
      SanitizedNothing();
    } else {
      var w: nat :| 0 < w <= |a| && Char(a[..w]) && WellFormed(a[w..]);
      Distributes(a[w..], b);
      FrontStep(a[..w], a[w..] + b);
      FrontStep(a[..w], a[w..]);
      assert a + b == a[..w] + (a[w..] + b) && a == a[..w] + a[w..];
      assert a[..w] + (a[w..] + Sanitized(b)) == a + Sanitized(b);
    }
  }

  /** Exactly the well-formed texts are returned unchanged. */
  lemma KeptExactly(s: Bytes)
    ensures Sanitized(s) == s <==> WellFormed(s)
  {
    hide *;
    SanitizedWellFormed(s);
    if WellFormed(s) {
      Distributes(s, []);
      SanitizedNothing();
      assert s + [] == s;
    }
  }

  lemma Idempotent(s: Bytes)
    ensures Sanitized(Sanitized(s)) == Sanitized(s)
  {
    hide *;
    SanitizedWellFormed(s);
    KeptExactly(Sanitized(s));
  }

  /** A byte at which no character starts is replaced alone: what comes before and after it is read as if by itself. */
  lemma ByteReplaced(u: Bytes, b: Byte, v: Bytes)
    requires WellFormed(u) && forall n :: 0 < n <= |[b] + v| ==> !Char(([b] + v)[..n])
    ensures Sanitized(u + ([b] + v)) == u + (REPLACEMENT + Sanitized(v)) && Lossy(u + ([b] + v))
  {
    hide Char, WellFormed, Sanitized, Lossy;
    var s := [b] + v;
    NoWidth(s);
    FrontReplaced(s);
    assert s[1..] == v;
    Distributes(u, s);
  }

  lemma NoWidth(s: Bytes)
    requires forall n :: 0 < n <= |s| ==> !Char(s[..n])
    ensures Width(s) == 0
  {
    hide Char;
  }

  // ---- Which texts become the same ---------------------------------------------------------------------------

  /** The first character, with U+FFFD for a byte that starts none. */
  function FirstOf(s: Bytes): Bytes
    requires s != []
  {
    if Width(s) > 0 then s[..Width(s)] else REPLACEMENT
  }

  function RestOf(s: Bytes): (r: Bytes)
    requires s != []
    ensures |r| < |s|
  {
    if Width(s) > 0 then s[Width(s)..] else s[1..]
  }

  /** The same character by character, when every byte that starts none is read as U+FFFD. */
  predicate Alike(a: Bytes, b: Bytes)
    decreases |a|
  {
    if a == [] || b == [] then a == b
    else FirstOf(a) == FirstOf(b) && Alike(RestOf(a), RestOf(b))
  }

  lemma SanitizedStep(s: Bytes)
    requires s != []
    ensures Sanitized(s) == FirstOf(s) + Sanitized(RestOf(s)) && Char(FirstOf(s))
  {
    hide Char;
    ReplacementIsChar();
  }

  /** Exactly the texts that are alike become the same. */
  lemma {:induction false} SanitizedSame(a: Bytes, b: Bytes)
    ensures Sanitized(a) == Sanitized(b) <==> Alike(a, b)
    decreases |a|
  {
    hide Char, FirstOf, RestOf, Sanitized;
    SanitizedNothing();
    if a != [] {
      SanitizedStep(a);
      CharBound(FirstOf(a), Sanitized(RestOf(a)));
    }
    if b != [] {
      SanitizedStep(b);
      CharBound(FirstOf(b), Sanitized(RestOf(b)));
    }
    if a != [] && b != [] {
      SanitizedSame(RestOf(a), RestOf(b));
    }
  }

  lemma {:induction false} AtMostThreefold(s: Bytes)
    ensures |Sanitized(s)| <= 3 * |s|
    decreases |s|
  {
    hide Char;
    if s != [] {
      AtMostThreefold(if Width(s) > 0 then s[Width(s)..] else s[1..]);
    }
  }

  // ---- The loss flag -----------------------------------------------------------------------------------------

  /** The bytes of U+FFFD occur somewhere. */
  predicate Contains(s: Bytes) {
    exists i :: 0 <= i <= |s| - 3 && OccursAt(s, i)
  }

  predicate OccursAt(s: Bytes, i: nat)
    requires i + 3 <= |s|
  {
    s[i] == 0xef && s[i + 1] == 0xbf && s[i + 2] == 0xbd
  }

  /** In a character only the first byte can be EF. */
  lemma LeadOnlyFirst(c: Bytes, i: nat)
    requires Char(c) && 0 < i < |c|
    ensures c[i] != 0xef
  {
  }

  lemma LeadOfThree(c: Bytes)
    requires Char(c) && c[0] == 0xef
    ensures |c| == 3
  {
  }

  /** The bytes of U+FFFD occur only where a character begins. */
  lemma ContainsFront(c: Bytes, s: Bytes)
    requires Char(c)
    ensures Contains(c + s) <==> c == REPLACEMENT || Contains(s)
  {
    hide Char;
    CharNonempty(c);
    if Contains(c + s) {
      var i :| 0 <= i <= |c + s| - 3 && OccursAt(c + s, i);
      if i == 0 {
        LeadOfThree(c);
        assert c == [(c + s)[0], (c + s)[1], (c + s)[2]];
      } else if i < |c| {
        LeadOnlyFirst(c, i);
      } else {
        assert OccursAt(s, i - |c|);
      }
    }
    if c == REPLACEMENT {
      assert OccursAt(c + s, 0);
    }
    if Contains(s) {
      var i :| 0 <= i <= |s| - 3 && OccursAt(s, i);
      assert OccursAt(c + s, |c| + i);
    }
  }

  /** The flag is raised exactly when U+FFFD is in the output. */
  lemma {:induction false} LossyExact(s: Bytes)
    ensures Lossy(s) <==> Contains(Sanitized(s))
    decreases |s|
  {
    hide Char, Contains;
    if s == [] {
      NothingContained();
    } else if Width(s) > 0 {
      LossyExact(s[Width(s)..]);
      ContainsFront(s[..Width(s)], Sanitized(s[Width(s)..]));
    } else {
      ReplacementIsChar();
      ContainsFront(REPLACEMENT, Sanitized(s[1..]));
    }
  }

  lemma NothingContained()
    ensures !Contains([])
  {
  }

  /** Unflagged text was well-formed, had no replacement character, and came through unchanged; and conversely. */
  lemma {:induction false} UnflaggedExactly(s: Bytes)
    ensures !Lossy(s) <==> WellFormed(s) && !Contains(s)
    decreases |s|
  {
    hide Contains;
    LossyExact(s);
    KeptExactly(s);
    if !Lossy(s) {
      UnflaggedKept(s);
    }
  }

  lemma {:induction false} UnflaggedKept(s: Bytes)
    requires !Lossy(s)
    ensures Sanitized(s) == s
    decreases |s|
  {
    hide Char;
    if s != [] {
      UnflaggedKept(s[Width(s)..]);
    }
  }

  // ---- Section 3 ---------------------------------------------------------------------------------------------

  type ScalarValue = c: bv32 | Scalar(c)

  lemma EncodeOne(c: bv32)
    requires c < 0x80
    ensures One([c as Byte]) && LeadBits(c as Byte) == c
  {
  }

  lemma EncodeTwo(c: bv32)
    requires 0x80 <= c < 0x800
    ensures var a, b := (0xc0 | (c >> 6)) as Byte, TailOf(c);
            Two([a, b]) && Push(LeadBits(a), b) == c
  {
  }

  lemma EncodeThree(c: bv32)
    requires 0x800 <= c < 0x10000 && Scalar(c)
    ensures var a, b, d := (0xe0 | (c >> 12)) as Byte, TailOf(c >> 6), TailOf(c);
            Three([a, b, d]) && Push(Push(LeadBits(a), b), d) == c
  {
  }

  lemma EncodeFour(c: bv32)
    requires 0x10000 <= c <= 0x10ffff
    ensures var a, b, d, e := (0xf0 | (c >> 18)) as Byte, TailOf(c >> 12), TailOf(c >> 6), TailOf(c);
            Four([a, b, d, e]) && Push(Push(Push(LeadBits(a), b), d), e) == c
  {
  }

  /** Encoding a scalar value gives a character of that code point. */
  lemma EncodeIsChar(c: ScalarValue)
    ensures Char(Encode(c)) && CodePoint(Encode(c)) == c
  {
    hide CodePoint, Push, LeadBits, TailOf, Scalar, One, Two, Three, Four;
    if c < 0x80 {
      EncodeOne(c);
    } else if c < 0x800 {
      EncodeTwo(c);
    } else if c < 0x10000 {
      EncodeThree(c);
    } else {
      LargestScalar(c);
      EncodeFour(c);
    }
    CodePointParts(Encode(c));
  }

  lemma LargestScalar(c: bv32)
    requires Scalar(c)
    ensures c <= 0x10ffff
  {
  }

  /** A character's bytes are those of the encoding of its bits. */
  lemma TwoEncoded(a: Byte, b: Byte)
    requires Two([a, b])
    ensures var c := Push(LeadBits(a), b);
            Scalar(c) && Encode(c) == [a, b]
  {
  }

  lemma ThreeEncoded(a: Byte, b: Byte, d: Byte)
    requires Three([a, b, d])
    ensures var c := Push(Push(LeadBits(a), b), d);
            Scalar(c) && Encode(c) == [a, b, d]
  {
  }

  lemma FourEncoded(a: Byte, b: Byte, d: Byte, e: Byte)
    requires Four([a, b, d, e])
    ensures var c := Push(Push(Push(LeadBits(a), b), d), e);
            Scalar(c) && Encode(c) == [a, b, d, e]
  {
  }

  /** And every character is the encoding of its code point. */
  lemma CharIsEncoded(s: Bytes)
    requires Char(s)
    ensures Scalar(CodePoint(s)) && Encode(CodePoint(s)) == s
  {
    hide CodePoint, Push, Encode, Scalar, One, Two, Three, Four, LeadBits;
    CharParts(s);
    CodePointParts(s);
    if One(s) {
      OneEncoded(s[0]);
    } else if Two(s) {
      TwoEncoded(s[0], s[1]);
    } else if Three(s) {
      ThreeEncoded(s[0], s[1], s[2]);
    } else {
      FourEncoded(s[0], s[1], s[2], s[3]);
    }
  }

  lemma OneEncoded(a: Byte)
    requires One([a])
    ensures Scalar(LeadBits(a)) && Encode(LeadBits(a)) == [a]
  {
  }

  lemma CharParts(s: Bytes)
    ensures One(s) ==> |s| == 1 && s == [s[0]]
    ensures Two(s) ==> |s| == 2 && s == [s[0], s[1]]
    ensures Three(s) ==> |s| == 3 && s == [s[0], s[1], s[2]]
    ensures Four(s) ==> |s| == 4 && s == [s[0], s[1], s[2], s[3]]
  {
  }

  function EncodeAll(cs: seq<ScalarValue>): Bytes {
    if cs == [] then [] else Encode(cs[0]) + EncodeAll(cs[1..])
  }

  lemma {:induction false} EncodeAllWellFormed(cs: seq<ScalarValue>)
    ensures WellFormed(EncodeAll(cs))
  {
    hide Encode, Char, CodePoint;
    if cs != [] {
      EncodeAllWellFormed(cs[1..]);
      EncodeIsChar(cs[0]);
      WellFormedMore(Encode(cs[0]), EncodeAll(cs[1..]));
    }
  }

  lemma {:induction false} EncodeAllInjective(a: seq<ScalarValue>, b: seq<ScalarValue>)
    requires EncodeAll(a) == EncodeAll(b)
    ensures a == b
  {
    hide Encode, Char, CodePoint, Scalar;
    if a != [] {
      EncodeIsChar(a[0]);
      CharBound(Encode(a[0]), EncodeAll(a[1..]));
    }
    if b != [] {
      EncodeIsChar(b[0]);
      CharBound(Encode(b[0]), EncodeAll(b[1..]));
    }
    if a != [] && b != [] {
      assert Encode(a[0]) == Encode(b[0]) && EncodeAll(a[1..]) == EncodeAll(b[1..]);
      EncodeAllInjective(a[1..], b[1..]);
      assert a == [a[0]] + a[1..] && b == [b[0]] + b[1..];
    }
  }

  /** Sections 3 and 4 agree: the well-formed texts are the encodings of sequences of scalar values. */
  lemma {:induction false} WellFormedExactly(s: Bytes)
    ensures WellFormed(s) <==> exists cs: seq<ScalarValue> :: EncodeAll(cs) == s
    decreases |s|
  {
    hide Encode, Char, CodePoint, Scalar;
    if cs: seq<ScalarValue> :| EncodeAll(cs) == s {
      EncodeAllWellFormed(cs);
    }
    if s == [] {
      assert EncodeAll([]) == s;
    } else if WellFormed(s) {
      var w: nat :| 0 < w <= |s| && Char(s[..w]) && WellFormed(s[w..]);
      WellFormedExactly(s[w..]);
      var rest: seq<ScalarValue> :| EncodeAll(rest) == s[w..];
      CharIsEncoded(s[..w]);
      EncodeAllMore(CodePoint(s[..w]), rest);
      assert s == s[..w] + s[w..];
    }
  }

  lemma EncodeAllMore(c: ScalarValue, cs: seq<ScalarValue>)
    ensures EncodeAll([c] + cs) == Encode(c) + EncodeAll(cs)
  {
    hide Encode;
    assert ([c] + cs)[1..] == cs;
  }
}
