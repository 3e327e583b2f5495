/**
 * The text sanitizer of the envelope against RFC 3629: section 4 gives the grammar of well-formed text as byte
 * ranges, section 3 the encoding of a scalar value. The sanitizer itself works on bits.
 */
module Utf8 {
  import opened Wrappers

  // ---- Section 4: the byte ranges ----------------------------------------------------------------------------

  predicate Tail(b: Byte) {
    0x80 <= b <= 0xbf
  }

  predicate One(c: Bytes) {
    |c| == 1 && c[0] <= 0x7f
  }

  predicate Two(c: Bytes) {
    |c| == 2 && 0xc2 <= c[0] <= 0xdf && Tail(c[1])
  }

  predicate Three(c: Bytes) {
    && |c| == 3 && Tail(c[2])
    && (|| (c[0] == 0xe0 && 0xa0 <= c[1] <= 0xbf)
        || (0xe1 <= c[0] <= 0xec && Tail(c[1]))
        || (c[0] == 0xed && 0x80 <= c[1] <= 0x9f)
        || (0xee <= c[0] <= 0xef && Tail(c[1])))
  }

  predicate Four(c: Bytes) {
    && |c| == 4 && Tail(c[2]) && Tail(c[3])
    && (|| (c[0] == 0xf0 && 0x90 <= c[1] <= 0xbf)
        || (0xf1 <= c[0] <= 0xf3 && Tail(c[1]))
        || (c[0] == 0xf4 && 0x80 <= c[1] <= 0x8f))
  }

  /** The octets of one character. */
  predicate Char(c: Bytes) {
    One(c) || Two(c) || Three(c) || Four(c)
  }

  /** A sequence of characters. */
  ghost predicate WellFormed(s: Bytes) {
    s == [] || exists w: nat :: 0 < w <= |s| && Char(s[..w]) && WellFormed(s[w..])
  }

  // ---- Section 3: the encoding -------------------------------------------------------------------------------

  /** A code point that is not a surrogate. */
  predicate Scalar(c: bv32) {
    c <= 0x10ffff && !(0xd800 <= c <= 0xdfff)
  }

  function TailOf(c: bv32): Byte {
    (0x80 | (c & 0x3f)) as Byte
  }

  function Encode(c: bv32): Bytes
    requires Scalar(c)
  {
    if c < 0x80 then [c as Byte]
    else if c < 0x800 then [(0xc0 | (c >> 6)) as Byte, TailOf(c)]
    else if c < 0x10000 then [(0xe0 | (c >> 12)) as Byte, TailOf(c >> 6), TailOf(c)]
    else [(0xf0 | (c >> 18)) as Byte, TailOf(c >> 12), TailOf(c >> 6), TailOf(c)]
  }

  // ---- Decoding by bits --------------------------------------------------------------------------------------

  function LeadWidth(b: Byte): nat {
    if b <= 0x7f then 1
    else if 0xc2 <= b <= 0xdf then 2
    else if 0xe0 <= b <= 0xef then 3
    else if 0xf0 <= b <= 0xf4 then 4
    else 0
  }

  function LeadBits(b: Byte): bv32 {
    if b <= 0x7f then b as bv32
    else if 0xc2 <= b <= 0xdf then (b & 0x1f) as bv32
    else if 0xe0 <= b <= 0xef then (b & 0x0f) as bv32
    else if 0xf0 <= b <= 0xf4 then (b & 0x07) as bv32
    else 0
  }

  predicate TailBits(b: Byte) {
    (b & 0xc0) == 0x80
  }

  /** Six more bits. */
  function Push(c: bv32, b: Byte): bv32 {
    (c << 6) | ((b & 0x3f) as bv32)
  }

  /** Six bits of every continuation byte, after the bits of the lead. */
  function Gathered(lead: bv32, tails: Bytes): bv32 {
    if tails == [] then lead else Push(Gathered(lead, tails[..|tails| - 1]), tails[|tails| - 1])
  }

  predicate Overlong(width: nat, c: bv32) {
    (width == 2 && c < 0x80) || (width == 3 && c < 0x800) || (width == 4 && c < 0x10000)
  }

  function CodePoint(c: Bytes): bv32
    requires c != []
  {
    Gathered(LeadBits(c[0]), c[1..])
  }

  /** What the sanitizer tests. */
  predicate Accepted(c: Bytes) {
    && c != [] && |c| == LeadWidth(c[0])
    && (forall j :: 1 <= j < |c| ==> TailBits(c[j]))
    && !Overlong(|c|, CodePoint(c)) && Scalar(CodePoint(c))
  }

  lemma GatheredOne(lead: bv32, a: Byte)
    ensures Gathered(lead, [a]) == Push(lead, a)
  {
    hide Push;
    assert [a][..0] == [];
  }

  lemma GatheredMore(lead: bv32, tails: Bytes, b: Byte)
    ensures Gathered(lead, tails + [b]) == Push(Gathered(lead, tails), b)
  {
    hide Push;
    assert (tails + [b])[..|tails|] == tails;
  }

  lemma TailExact(b: Byte)
    ensures TailBits(b) <==> Tail(b)
  {
  }

  lemma TwoBits(a: Byte, b: Byte)
    requires 0xc2 <= a <= 0xdf && Tail(b)
    ensures var c := Push(LeadBits(a), b);
            !Overlong(2, c) && Scalar(c)
  {
  }

  lemma ThreeBits(a: Byte, b: Byte, d: Byte)
    requires 0xe0 <= a <= 0xef && Tail(b) && Tail(d)
    ensures var c := Push(Push(LeadBits(a), b), d);
            !Overlong(3, c) && Scalar(c) <==> Three([a, b, d])
  {
  }

  lemma FourBits(a: Byte, b: Byte, d: Byte, e: Byte)
    requires 0xf0 <= a <= 0xf4 && Tail(b) && Tail(d) && Tail(e)
    ensures var c := Push(Push(Push(LeadBits(a), b), d), e);
            !Overlong(4, c) && Scalar(c) <==> Four([a, b, d, e])
  {
  }

  lemma OneBits(a: Byte)
    requires a <= 0x7f
    ensures !Overlong(1, LeadBits(a)) && Scalar(LeadBits(a))
  {
  }

  /** The code point of a character, byte by byte. */
  lemma CodePointParts(c: Bytes)
    requires 0 < |c| <= 4
    ensures var lead := LeadBits(c[0]);
            && (|c| == 1 ==> CodePoint(c) == lead)
            && (|c| == 2 ==> CodePoint(c) == Push(lead, c[1]))
            && (|c| == 3 ==> CodePoint(c) == Push(Push(lead, c[1]), c[2]))
            && (|c| == 4 ==> CodePoint(c) == Push(Push(Push(lead, c[1]), c[2]), c[3]))
  {
    hide Push, LeadBits;
    var lead := LeadBits(c[0]);
    if |c| == 1 {
      assert c[1..] == [];
    } else {
      GatheredOne(lead, c[1]);
      if |c| == 2 {
        assert c[1..] == [c[1]];
      } else {
        GatheredMore(lead, [c[1]], c[2]);
        if |c| == 3 {
          assert c[1..] == [c[1]] + [c[2]];
        } else {
          GatheredMore(lead, [c[1]] + [c[2]], c[3]);
          assert c[1..] == [c[1]] + [c[2]] + [c[3]];
        }
      }
    }
  }

  /** The tests on bits and code points accept exactly the byte ranges of the grammar. */
  lemma RangesExact(c: Bytes)
    ensures Accepted(c) <==> Char(c)
  {
    hide Push, LeadBits, TailBits, Overlong, Scalar, Gathered, CodePoint;
    if c != [] && |c| == LeadWidth(c[0]) {
      CodePointParts(c);
      forall j | 1 <= j < |c| ensures TailBits(c[j]) <==> Tail(c[j]) {
        TailExact(c[j]);
      }
      if |c| == 1 {
        OneBits(c[0]);
      } else if |c| == 2 {
        if Tail(c[1]) { TwoBits(c[0], c[1]); }
      } else if |c| == 3 {
        assert c == [c[0], c[1], c[2]];
        if Tail(c[1]) && Tail(c[2]) { ThreeBits(c[0], c[1], c[2]); }
      } else {
        assert c == [c[0], c[1], c[2], c[3]];
        if Tail(c[1]) && Tail(c[2]) && Tail(c[3]) { FourBits(c[0], c[1], c[2], c[3]); }
      }
    }
  }

  // ---- Sanitizing --------------------------------------------------------------------------------------------

  /** The three bytes of U+FFFD. */
  const REPLACEMENT: Bytes := [0xef, 0xbf, 0xbd]

  /** The length of the character at the front, or zero when there is none. */
  function Width(s: Bytes): (w: nat)
    ensures w <= |s| && (w > 0 ==> Char(s[..w]))
    ensures forall n :: 0 < n <= |s| && Char(s[..n]) ==> n == w
  {
    if |s| >= 1 && Char(s[..1]) then 1
    else if |s| >= 2 && Char(s[..2]) then 2
    else if |s| >= 3 && Char(s[..3]) then 3
    else if |s| >= 4 && Char(s[..4]) then 4
    else 0
  }

  /** Characters are kept; a byte that starts none is replaced. */
  function Sanitized(s: Bytes): Bytes
    decreases |s|
  {
    if s == [] then []
    else if Width(s) > 0 then s[..Width(s)] + Sanitized(s[Width(s)..])
    else REPLACEMENT + Sanitized(s[1..])
  }

  /** A byte was replaced, or the replacement character was already there. */
  predicate Lossy(s: Bytes)
    decreases |s|
  {
    s != [] &&
    if Width(s) > 0 then s[..Width(s)] == REPLACEMENT || Lossy(s[Width(s)..]) else true
  }

  lemma ReplacementPoint(c: Bytes)
    requires Char(c)
    ensures CodePoint(c) == 0xfffd <==> c == REPLACEMENT
  {
    hide Gathered, CodePoint;
    CodePointParts(c);
  }

  /** A character at the front is as wide as its first byte says. */
  lemma WidthByTests(s: Bytes)
    requires s != []
    ensures var w := LeadWidth(s[0]);
            Width(s) == if 0 < w <= |s| && Accepted(s[..w]) then w else 0
  {
    hide Char, CodePoint, Overlong, Scalar, TailBits, LeadWidth;
    var w := LeadWidth(s[0]);
    if 0 < w <= |s| {
      RangesExact(s[..w]);
    }
    RangesExact(s[..Width(s)]);
  }

  /** The continuation bytes between `i` and `k` pass their test. */
  predicate TailsPass(s: Bytes, i: nat, k: nat)
    requires k <= |s|
  {
    forall n :: i < n < k ==> TailBits(s[n])
  }

  lemma BadTail(s: Bytes, i: nat, j: nat)
    requires i < |s| && 1 <= j < LeadWidth(s[i]) && i + j < |s| && !TailBits(s[i + j])
    ensures Width(s[i..]) == 0
  {
    hide TailBits, LeadWidth, CodePoint, Overlong, Scalar;
    WidthByTests(s[i..]);
    var w := LeadWidth(s[i]);
    if i + w <= |s| {
      assert s[i..][..w][j] == s[i + j];
    }
  }

  lemma GoodTails(s: Bytes, i: nat, w: nat)
    requires i < |s| && w == LeadWidth(s[i]) && 0 < w && i + w <= |s| && TailsPass(s, i, i + w)
    ensures var c := Gathered(LeadBits(s[i]), s[i + 1..i + w]);
            && c == CodePoint(s[i..i + w])
            && Width(s[i..]) == if !Overlong(w, c) && Scalar(c) then w else 0
  {
    hide TailBits, LeadWidth, Overlong, Scalar, Gathered, LeadBits;
    WidthByTests(s[i..]);
    assert s[i..][..w] == s[i..i + w];
    assert s[i..i + w][1..] == s[i + 1..i + w];
    var c := s[i..i + w];
    forall j | 1 <= j < |c| ensures TailBits(c[j]) {
      assert c[j] == s[i + j];
    }
  }

  /** The continuation bytes before `j` pass their test and make up the code point. */
  predicate Gathering(s: Bytes, i: nat, j: nat, codePoint: bv32)
    requires i < |s| && 1 <= j && i + j <= |s|
  {
    TailsPass(s, i, i + j) && codePoint == Gathered(LeadBits(s[i]), s[i + 1..i + j])
  }

  lemma GatherNothing(s: Bytes, i: nat)
    requires i < |s|
    ensures Gathering(s, i, 1, LeadBits(s[i]))
  {
    hide TailBits, LeadBits;
  }

  lemma GatherStep(s: Bytes, i: nat, j: nat, codePoint: bv32)
    requires i < |s| && 1 <= j && i + j < |s|
    requires Gathering(s, i, j, codePoint) && TailBits(s[i + j])
    ensures Gathering(s, i, j + 1, Push(codePoint, s[i + j]))
  {
    hide TailBits, LeadBits, Push, Gathered;
    assert s[i + 1..i + j + 1] == s[i + 1..i + j] + [s[i + j]];
    GatheredMore(LeadBits(s[i]), s[i + 1..i + j], s[i + j]);
  }

  lemma GatherEnd(s: Bytes, i: nat, w: nat, codePoint: bv32)
    requires i < |s| && w == LeadWidth(s[i]) && 0 < w && i + w <= |s| && Gathering(s, i, w, codePoint)
    ensures Width(s[i..]) == if !Overlong(w, codePoint) && Scalar(codePoint) then w else 0
    ensures codePoint == CodePoint(s[i..i + w])
  {
    hide TailBits, LeadWidth, Overlong, Scalar, Gathered, LeadBits, CodePoint;
    GoodTails(s, i, w);
  }

  lemma NoRoom(s: Bytes, i: nat)
    requires i < |s| && (LeadWidth(s[i]) == 0 || i + LeadWidth(s[i]) > |s|)
    ensures Width(s[i..]) == 0
  {
    hide LeadWidth, Accepted;
    WidthByTests(s[i..]);
  }

  /** The inner loop of the sanitizer: the character that starts at position `i`, if there is one. */
  method ReadChar(input: Bytes, i: nat) returns (width: nat, codePoint: bv32, valid: bool)
    requires i < |input|
    ensures valid <==> Width(input[i..]) > 0
    ensures valid ==> width == Width(input[i..]) && codePoint == CodePoint(input[i..i + width])
  {
    hide *;
    width, codePoint := LeadWidth(input[i]), LeadBits(input[i]);
    valid := width != 0 && i + width <= |input|;
    GatherNothing(input, i);
    if !valid {
      NoRoom(input, i);
    }
    var j := 1;
    while valid && j < width
      invariant 1 <= j
      invariant valid ==> 0 < width && i + width <= |input| && j <= width && Gathering(input, i, j, codePoint)
      invariant !valid ==> Width(input[i..]) == 0
    {
      if !TailBits(input[i + j]) {
        BadTail(input, i, j);
        valid := false;
        break;
      }
      GatherStep(input, i, j, codePoint);
      codePoint := Push(codePoint, input[i + j]);
      j := j + 1;
    }
    if valid {
      GatherEnd(input, i, width, codePoint);
      valid := !Overlong(width, codePoint) && Scalar(codePoint);
    }
  }

  lemma SanitizedNothing()
    ensures Sanitized([]) == [] && !Lossy([])
  {
  }

  lemma FrontKept(s: Bytes)
    requires Width(s) > 0
    ensures var w := Width(s);
            && Sanitized(s) == s[..w] + Sanitized(s[w..])
            && (Lossy(s) <==> CodePoint(s[..w]) == 0xfffd || Lossy(s[w..]))
  {
    hide CodePoint, Char;
    ReplacementPoint(s[..Width(s)]);
  }

  lemma FrontReplaced(s: Bytes)
    requires s != [] && Width(s) == 0
    ensures Sanitized(s) == REPLACEMENT + Sanitized(s[1..]) && Lossy(s)
  {
    hide Char;
  }

  method SanitizeText(input: Bytes) returns (output: Bytes, lossy: bool)
    ensures output == Sanitized(input)
    ensures lossy == Lossy(input)
  {
    hide *;
    output, lossy := [], false;
    var i := 0;
    SanitizedNothing();
    assert input[0..] == input && input[|input|..] == [];
    while i < |input|
      invariant i <= |input|
      invariant output + Sanitized(input[i..]) == Sanitized(input)
      invariant lossy || Lossy(input[i..]) <==> Lossy(input)
    {
      var width, codePoint, valid := ReadChar(input, i);
      if valid {
        FrontKept(input[i..]);
        assert input[i..][..width] == input[i..i + width] && input[i..][width..] == input[i + width..];
        if codePoint == 0xfffd {
          lossy := true;
        }
        output := output + input[i..i + width];
        i := i + width;
      } else {
        FrontReplaced(input[i..]);
        assert input[i..][1..] == input[i + 1..];
        output := output + REPLACEMENT;
        lossy := true;
        i := i + 1;
      }
    }
  }
}
