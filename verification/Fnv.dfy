/** The 64-bit FNV-1a fingerprint: every step can be undone, so a change of a single byte is always seen. */
module Fnv {
  import opened Wrappers

  const OFFSET: bv64 := 0xcbf29ce484222325
  const PRIME: bv64 := 0x00000100000001b3

  /** The inverse of the prime modulo 2 to the power of 64. */
  const INVERSE: bv64 := 0xce965057aff6957b

  /** The product wraps around. */
  function Times(x: bv64, y: bv64): bv64 {
    x * y
  }

  function Xored(x: bv64, byte: Byte): bv64 {
    x ^ (byte as bv64)
  }

  /** One byte is mixed in. */
  function Mix(hash: bv64, byte: Byte): bv64 {
    Times(Xored(hash, byte), PRIME)
  }

  /** The hash after all bytes, from a given one. */
  function Mixed(hash: bv64, bytes: Bytes): bv64 {
    if bytes == [] then hash else Mix(Mixed(hash, bytes[..|bytes| - 1]), bytes[|bytes| - 1])
  }

  function HexDigit(d: bv64): char {
    if d == 0 then '0' else if d == 1 then '1' else if d == 2 then '2' else if d == 3 then '3'
    else if d == 4 then '4' else if d == 5 then '5' else if d == 6 then '6' else if d == 7 then '7'
    else if d == 8 then '8' else if d == 9 then '9' else if d == 10 then 'a' else if d == 11 then 'b'
    else if d == 12 then 'c' else if d == 13 then 'd' else if d == 14 then 'e' else 'f'
  }

  /** Without its lowest hexadecimal digit. */
  function Shifted(h: bv64): bv64 {
    h >> 4
  }

  /** The lowest `n` hexadecimal digits, with leading zeros. */
  function Hex(h: bv64, n: nat): string {
    if n == 0 then "" else Hex(Shifted(h), n - 1) + [HexDigit(h & 0xf)]
  }

  function Fingerprint(bytes: Bytes): string {
    Hex(Mixed(OFFSET, bytes), 16)
  }

  method Fnv1a64(bytes: Bytes) returns (text: string)
    ensures text == Fingerprint(bytes)
  {
    hide Mix, Hex;
    var hash := OFFSET;
    for i := 0 to |bytes|
      invariant hash == Mixed(OFFSET, bytes[..i])
    {
      hash := Mix(hash, bytes[i]);
      assert bytes[..i + 1][..i] == bytes[..i];
    }
    assert bytes[..|bytes|] == bytes;
    text := Hex(hash, 16);
  }

  // ---- One step is a bijection -------------------------------------------------------------------------------

  function Unmix(hash: bv64, byte: Byte): bv64 {
    Xored(Times(hash, INVERSE), byte)
  }

  lemma TimesIs(x: bv64, y: bv64, product: bv64)
    requires product == x * y
    ensures Times(x, y) == product
  {
  }

  lemma ProductsAssociate(x: bv64, y: bv64, z: bv64)
    ensures Times(x * y, z) == Times(x, y * z)
  {
  }

  lemma TimesLeft(x: bv64, y: bv64, z: bv64)
    ensures Times(Times(x, y), z) == Times(x * y, z)
  {
    hide Times;
    var product := x * y;
    TimesIs(x, y, product);
  }

  lemma TimesRight(x: bv64, y: bv64, z: bv64)
    ensures Times(x, Times(y, z)) == Times(x, y * z)
  {
    hide Times;
    var product := y * z;
    TimesIs(y, z, product);
  }

  lemma Associative(x: bv64, y: bv64, z: bv64)
    ensures Times(Times(x, y), z) == Times(x, Times(y, z))
  {
    hide Times;
    TimesLeft(x, y, z);
    ProductsAssociate(x, y, z);
    TimesRight(x, y, z);
  }

  lemma Inverse()
    ensures Times(PRIME, INVERSE) == 1 && Times(INVERSE, PRIME) == 1
  {
  }

  lemma Unit(x: bv64)
    ensures Times(x, 1) == x
  {
  }

  lemma XorTwice(x: bv64, byte: Byte)
    ensures Xored(Xored(x, byte), byte) == x
  {
  }

  lemma XorTells(x: bv64, a: Byte, b: Byte)
    ensures Xored(x, a) == Xored(x, b) <==> a == b
  {
  }

  /** Factors that cancel. */
  lemma Cancel(x: bv64, y: bv64, z: bv64)
    requires Times(y, z) == 1
    ensures Times(Times(x, y), z) == x
  {
    hide Times;
    Associative(x, y, z);
    Unit(x);
  }

  lemma UnmixMix(hash: bv64, byte: Byte)
    ensures Unmix(Mix(hash, byte), byte) == hash
  {
    hide Times, Xored;
    Inverse();
    Cancel(Xored(hash, byte), PRIME, INVERSE);
    XorTwice(hash, byte);
  }

  lemma MixUnmix(hash: bv64, byte: Byte)
    ensures Mix(Unmix(hash, byte), byte) == hash
  {
    hide Times, Xored;
    Inverse();
    XorTwice(Times(hash, INVERSE), byte);
    Cancel(hash, INVERSE, PRIME);
  }

  /** Every step can be undone, and every hash is reached by a step: mixing in a byte permutes the hashes. */
  lemma MixIsBijection(hash: bv64, byte: Byte)
    ensures Unmix(Mix(hash, byte), byte) == hash && Mix(Unmix(hash, byte), byte) == hash
  {
    hide Mix, Unmix;
    UnmixMix(hash, byte);
    MixUnmix(hash, byte);
  }

  /** From one hash, different bytes lead to different hashes. */
  lemma MixTellsBytes(hash: bv64, a: Byte, b: Byte)
    ensures Mix(hash, a) == Mix(hash, b) <==> a == b
  {
    hide Times, Xored;
    Inverse();
    Cancel(Xored(hash, a), PRIME, INVERSE);
    Cancel(Xored(hash, b), PRIME, INVERSE);
    XorTells(hash, a, b);
  }

  // ---- Whole inputs ------------------------------------------------------------------------------------------

  lemma {:induction false} MixedAppend(hash: bv64, a: Bytes, b: Bytes)
    ensures Mixed(hash, a + b) == Mixed(Mixed(hash, a), b)
  {
    hide Mix;
    if b == [] {
      assert a + b == a;
    } else {
      MixedAppend(hash, a, b[..|b| - 1]);
      assert (a + b)[..|a + b| - 1] == a + b[..|b| - 1];
    }
  }

  /** The same bytes keep different hashes apart. */
  lemma {:induction false} MixedInjective(h: bv64, g: bv64, bytes: Bytes)
    ensures Mixed(h, bytes) == Mixed(g, bytes) <==> h == g
  {
    hide Mix, Unmix;
    if bytes != [] {
      var init, last := bytes[..|bytes| - 1], bytes[|bytes| - 1];
      MixedInjective(h, g, init);
      MixIsBijection(Mixed(h, init), last);
      MixIsBijection(Mixed(g, init), last);
    }
  }

  /** Which digit a character is. */
  function DigitOf(c: char): bv64 {
    if c == '0' then 0 else if c == '1' then 1 else if c == '2' then 2 else if c == '3' then 3
    else if c == '4' then 4 else if c == '5' then 5 else if c == '6' then 6 else if c == '7' then 7
    else if c == '8' then 8 else if c == '9' then 9 else if c == 'a' then 10 else if c == 'b' then 11
    else if c == 'c' then 12 else if c == 'd' then 13 else if c == 'e' then 14 else 15
  }

  lemma DigitOfHex(a: bv64)
    requires a < 16
    ensures DigitOf(HexDigit(a)) == a
  {
  }

  lemma HexDigitTells(a: bv64, b: bv64)
    requires a < 16 && b < 16
    ensures HexDigit(a) == HexDigit(b) <==> a == b
  {
    hide HexDigit, DigitOf;
    DigitOfHex(a);
    DigitOfHex(b);
  }

  lemma NibbleSplit(a: bv64, b: bv64)
    ensures (a & 0xf) < 16
    ensures Shifted(a) == Shifted(b) && a & 0xf == b & 0xf ==> a == b
  {
  }

  /** Sixteen digits tell all hashes apart. */
  lemma {:induction false} HexTells(a: bv64, b: bv64, n: nat)
    requires n <= 16 && Hex(a, n) == Hex(b, n) && Beyond(a, n) == Beyond(b, n)
    ensures a == b
    decreases n
  {
    hide HexDigit, Shifted;
    if n > 0 {
      var x, y := Hex(a, n), Hex(b, n);
      HexLength(a, n);
      HexLength(b, n);
      assert x[..n - 1] == Hex(Shifted(a), n - 1) && y[..n - 1] == Hex(Shifted(b), n - 1);
      assert x[n - 1] == HexDigit(a & 0xf) && y[n - 1] == HexDigit(b & 0xf);
      NibbleSplit(a, b);
      NibbleSplit(b, a);
      HexDigitTells(a & 0xf, b & 0xf);
      HexTells(Shifted(a), Shifted(b), n - 1);
    }
  }

  /** What is left of a hash when `n` digits are gone. */
  function Beyond(h: bv64, n: nat): bv64 {
    if n == 0 then h else Beyond(Shifted(h), n - 1)
  }

  lemma {:induction false} HexLength(h: bv64, n: nat)
    ensures |Hex(h, n)| == n
  {
    hide HexDigit;
    if n > 0 {
      HexLength(Shifted(h), n - 1);
    }
  }

  lemma NothingBeyond(h: bv64)
    ensures Beyond(h, 16) == 0
  {
    FourBeyond(h, 12);
    var a := h >> 16;
    FourBeyond(a, 8);
    var b := a >> 16;
    FourBeyond(b, 4);
    var c := b >> 16;
    FourBeyond(c, 0);
    AllGone(h);
  }

  lemma FourShifts(h: bv64)
    ensures Shifted(Shifted(Shifted(Shifted(h)))) == h >> 16
  {
  }

  lemma FourBeyond(h: bv64, n: nat)
    ensures Beyond(h, n + 4) == Beyond(h >> 16, n)
  {
    hide Shifted;
    var a := Shifted(h);
    var b := Shifted(a);
    assert Beyond(h, n + 4) == Beyond(a, n + 3);
    assert Beyond(a, n + 3) == Beyond(b, n + 2);
    assert Beyond(b, n + 2) == Beyond(Shifted(b), n + 1);
    assert Beyond(Shifted(b), n + 1) == Beyond(Shifted(Shifted(b)), n);
    FourShifts(h);
  }

  lemma AllGone(h: bv64)
    ensures (((h >> 16) >> 16) >> 16) >> 16 == 0 && Beyond(0, 0) == 0
  {
  }

  /** Two inputs that differ in exactly one byte always have different fingerprints. */
  lemma OneByteSeen(u: Bytes, a: Byte, b: Byte, v: Bytes)
    ensures Fingerprint(u + [a] + v) == Fingerprint(u + [b] + v) <==> a == b
  {
    hide Mix, Hex, Beyond, Mixed;
    var h := Mixed(OFFSET, u);
    MixedAppend(OFFSET, u + [a], v);
    MixedAppend(OFFSET, u, [a]);
    MixedAppend(OFFSET, u + [b], v);
    MixedAppend(OFFSET, u, [b]);
    MixedOne(h, a);
    MixedOne(h, b);
    MixTellsBytes(h, a, b);
    MixedInjective(Mix(h, a), Mix(h, b), v);
    var x, y := Mixed(Mix(h, a), v), Mixed(Mix(h, b), v);
    NothingBeyond(x);
    NothingBeyond(y);
    if Hex(x, 16) == Hex(y, 16) {
      HexTells(x, y, 16);
    }
  }

  lemma MixedOne(hash: bv64, byte: Byte)
    ensures Mixed(hash, [byte]) == Mix(hash, byte)
  {
    hide Mix;
    assert [byte][..0] == [];
  }

  /** The same by position. */
  lemma ChangeSeen(x: Bytes, y: Bytes, i: nat)
    requires |x| == |y| && i < |x| && x[i] != y[i]
    requires forall j :: 0 <= j < |x| && j != i ==> x[j] == y[j]
    ensures Fingerprint(x) != Fingerprint(y)
  {
    hide Fingerprint;
    OneByteSeen(x[..i], x[i], y[i], x[i + 1..]);
    assert x == x[..i] + [x[i]] + x[i + 1..];
    assert y == x[..i] + [y[i]] + x[i + 1..];
  }

  // ---- Known fingerprints ------------------------------------------------------------------------------------

  /** One digit after another. */
  lemma HexStep(h: bv64, n: nat, rest: bv64, digit: bv64)
    requires Shifted(h) == rest && h & 0xf == digit
    ensures Hex(h, n + 1) == Hex(rest, n) + [HexDigit(digit)]
  {
    hide Shifted, HexDigit;
  }

  lemma NextDigit(h: bv64, n: nat, rest: bv64, digit: bv64, text: string)
    requires n < |text| && Shifted(h) == rest && h & 0xf == digit
    requires Hex(rest, n) == text[..n] && text[n] == HexDigit(digit)
    ensures Hex(h, n + 1) == text[..n + 1]
  {
    hide Hex, Shifted, HexDigit;
    HexStep(h, n, rest, digit);
    assert text[..n + 1] == text[..n] + [text[n]];
  }

  lemma NothingMixed(hash: bv64)
    ensures Mixed(hash, []) == hash
  {
  }

  lemma OffsetDigits()
    ensures Hex(0xcbf29ce484222325, 16) == "cbf29ce484222325"
  {
    hide Hex;
    var text := "cbf29ce484222325";
    OffsetDigitsFront();
    NextDigit(0xcbf29ce48, 8, 0xcbf29ce4, 0x8, text);
    NextDigit(0xcbf29ce484, 9, 0xcbf29ce48, 0x4, text);
    NextDigit(0xcbf29ce4842, 10, 0xcbf29ce484, 0x2, text);
    NextDigit(0xcbf29ce48422, 11, 0xcbf29ce4842, 0x2, text);
    NextDigit(0xcbf29ce484222, 12, 0xcbf29ce48422, 0x2, text);
    NextDigit(0xcbf29ce4842223, 13, 0xcbf29ce484222, 0x3, text);
    NextDigit(0xcbf29ce48422232, 14, 0xcbf29ce4842223, 0x2, text);
    NextDigit(0xcbf29ce484222325, 15, 0xcbf29ce48422232, 0x5, text);
    assert text[..16] == text;
  }

  lemma OffsetDigitsFront()
    ensures Hex(0xcbf29ce4, 8) == "cbf29ce484222325"[..8]
  {
    hide Hex;
    var text := "cbf29ce484222325";
    HexNothing();
    assert text[..0] == "";
    NextDigit(0xc, 0, 0x0, 0xc, text);
    NextDigit(0xcb, 1, 0xc, 0xb, text);
    NextDigit(0xcbf, 2, 0xcb, 0xf, text);
    NextDigit(0xcbf2, 3, 0xcbf, 0x2, text);
    NextDigit(0xcbf29, 4, 0xcbf2, 0x9, text);
    NextDigit(0xcbf29c, 5, 0xcbf29, 0xc, text);
    NextDigit(0xcbf29ce, 6, 0xcbf29c, 0xe, text);
    NextDigit(0xcbf29ce4, 7, 0xcbf29ce, 0x4, text);
  }

  lemma LetterDigits()
    ensures Hex(0xaf63dc4c8601ec8c, 16) == "af63dc4c8601ec8c"
  {
    hide Hex;
    var text := "af63dc4c8601ec8c";
    LetterDigitsFront();
    NextDigit(0xaf63dc4c8, 8, 0xaf63dc4c, 0x8, text);
    NextDigit(0xaf63dc4c86, 9, 0xaf63dc4c8, 0x6, text);
    NextDigit(0xaf63dc4c860, 10, 0xaf63dc4c86, 0x0, text);
    NextDigit(0xaf63dc4c8601, 11, 0xaf63dc4c860, 0x1, text);
    NextDigit(0xaf63dc4c8601e, 12, 0xaf63dc4c8601, 0xe, text);
    NextDigit(0xaf63dc4c8601ec, 13, 0xaf63dc4c8601e, 0xc, text);
    NextDigit(0xaf63dc4c8601ec8, 14, 0xaf63dc4c8601ec, 0x8, text);
    NextDigit(0xaf63dc4c8601ec8c, 15, 0xaf63dc4c8601ec8, 0xc, text);
    assert text[..16] == text;
  }

  lemma LetterDigitsFront()
    ensures Hex(0xaf63dc4c, 8) == "af63dc4c8601ec8c"[..8]
  {
    hide Hex;
    var text := "af63dc4c8601ec8c";
    HexNothing();
    assert text[..0] == "";
    NextDigit(0xa, 0, 0x0, 0xa, text);
    NextDigit(0xaf, 1, 0xa, 0xf, text);
    NextDigit(0xaf6, 2, 0xaf, 0x6, text);
    NextDigit(0xaf63, 3, 0xaf6, 0x3, text);
    NextDigit(0xaf63d, 4, 0xaf63, 0xd, text);
    NextDigit(0xaf63dc, 5, 0xaf63d, 0xc, text);
    NextDigit(0xaf63dc4, 6, 0xaf63dc, 0x4, text);
    NextDigit(0xaf63dc4c, 7, 0xaf63dc4, 0xc, text);
  }

  lemma OneByteMixed()
    ensures Mix(OFFSET, 0x61) == 0xaf63dc4c8601ec8c
  {
  }

  /** The published fingerprints of no byte and of the letter "a". */
  lemma KnownFingerprints()
    ensures Fingerprint([]) == "cbf29ce484222325" && Fingerprint([0x61]) == "af63dc4c8601ec8c"
  {
    hide Hex, Mixed, Mix;
    NothingMixed(OFFSET);
    OffsetDigits();
    MixedOne(OFFSET, 0x61);
    OneByteMixed();
    LetterDigits();
  }

  lemma HexNothing()
    ensures Hex(0, 0) == ""
  {
  }
}
