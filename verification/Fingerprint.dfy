/** The error-grouping hash of packages/observability/src/fingerprint.ts: two 32-bit FNV-style
    halves over UTF-16 code units, printed as sixteen hex digits. */
module Fingerprint {
  import opened Common
  import opened Decimal

  const MODULUS: nat := 0x1_0000_0000

  /** An unsigned 32-bit word: what `>>> 0` leaves. */
  type Word = w: nat | w < MODULUS

  const H1_START: Word := 0x811c9dc5
  const H1_FACTOR: Word := 0x01000193
  const H2_START: Word := 0x01000193
  const H2_FACTOR: Word := 0x85ebca6b

  /** The inverses of the two factors modulo 2^32. */
  const H1_INVERSE: Word := 0x359c449b
  const H2_INVERSE: Word := 0xa5cb9243

  /** Bitwise exclusive or. */
  function BitXor(a: nat, b: nat): nat
    decreases a + b
  {
    if a == 0 && b == 0 then 0 else 2 * BitXor(a / 2, b / 2) + (if a % 2 == b % 2 then 0 else 1)
  }

  lemma {:induction false} BitXorBound(a: nat, b: nat, k: nat)
    requires a < Pow2(k) && b < Pow2(k)
    ensures BitXor(a, b) < Pow2(k)
  {
    if k > 0 && !(a == 0 && b == 0) {
      BitXorBound(a / 2, b / 2, k - 1);
    }
  }

  /** One bit of the exclusive or, and the bits above it. */
  lemma BitXorHalves(a: nat, b: nat)
    ensures BitXor(a, b) / 2 == BitXor(a / 2, b / 2)
    ensures BitXor(a, b) % 2 == if a % 2 == b % 2 then 0 else 1
  {
  }

  lemma {:induction false} BitXorTwice(a: nat, b: nat)
    ensures BitXor(BitXor(a, b), b) == a
    decreases a + b
  {
    if a != 0 || b != 0 {
      BitXorTwice(a / 2, b / 2);
      BitXorHalves(a, b);
      BitXorHalves(BitXor(a, b), b);
      hide BitXor;
    }
  }

  function Bit(a: nat, k: nat): nat {
    if k == 0 then a % 2 else Bit(a / 2, k - 1)
  }

  /** Every bit of the exclusive or is set exactly when one of the two is. */
  lemma {:induction false} BitXorBits(a: nat, b: nat, k: nat)
    ensures Bit(BitXor(a, b), k) == if Bit(a, k) == Bit(b, k) then 0 else 1
  {
    BitXorHalves(a, b);
    hide BitXor;
    if k > 0 {
      BitXorBits(a / 2, b / 2, k - 1);
    }
  }

  lemma Pow2Of32()
    ensures Pow2(32) == MODULUS
  {
    assert Pow2(8) == 0x100;
    assert Pow2(16) == 0x1_0000;
    assert Pow2(24) == 0x100_0000;
  }

  /** The xor of two words is a word. */
  function Xor(h: Word, c: Word): Word {
    Pow2Of32();
    BitXorBound(h, c, 32);
    BitXor(h, c)
  }

  /** `Math.imul(a, b) >>> 0`. */
  function Imul(a: Word, b: Word): Word {
    (a * b) % MODULUS
  }

  lemma CongruentWord(x: Word, t: int)
    ensures (t * MODULUS + x) % MODULUS == x
  {
  }

  predicate Inverses(factor: Word, inverse: Word) {
    (factor * inverse) % MODULUS == 1
  }

  /** Multiplying by a factor and then by its inverse modulo 2^32 gives the word back. */
  lemma FactorUndone(x: Word, factor: Word, inverse: Word)
    requires Inverses(factor, inverse)
    ensures Imul(Imul(x, factor), inverse) == x
  {
    var k, q := (factor * inverse) / MODULUS, (x * factor) / MODULUS;
    calc {
      Imul(x, factor) * inverse;
      (x * factor - q * MODULUS) * inverse;
      x * (factor * inverse) - q * MODULUS * inverse;
      x * (k * MODULUS + 1) - q * MODULUS * inverse;
      (x * k - q * inverse) * MODULUS + x;
    }
    CongruentWord(x, x * k - q * inverse);
  }

  // ------------------------------------------------------------------ one half

  function Step(h: Word, c: CodeUnit, factor: Word): Word {
    Imul(Xor(h, c), factor)
  }

  function Unstep(h: Word, c: CodeUnit, inverse: Word): Word {
    Xor(Imul(h, inverse), c)
  }

  function Fold(h: Word, text: seq<CodeUnit>, factor: Word): Word {
    if text == [] then h else Step(Fold(h, text[..|text| - 1], factor), text[|text| - 1], factor)
  }

  /** Runs a half backwards over its text. */
  function Unfold(h: Word, text: seq<CodeUnit>, inverse: Word): Word
    decreases |text|
  {
    if text == [] then h else Unfold(Unstep(h, text[|text| - 1], inverse), text[..|text| - 1], inverse)
  }

  lemma StepUndone(h: Word, c: CodeUnit, factor: Word, inverse: Word)
    requires Inverses(factor, inverse)
    ensures Unstep(Step(h, c, factor), c, inverse) == h
    ensures Step(Unstep(h, c, inverse), c, factor) == h
  {
    FactorUndone(Xor(h, c), factor, inverse);
    BitXorTwice(h, c);
    BitXorTwice(Imul(h, inverse), c);
    assert inverse * factor == factor * inverse;
    FactorUndone(h, inverse, factor);
  }

  /** Over any text, a half is a bijection of the 32-bit words. */
  lemma {:induction false} FoldIsBijective(h: Word, text: seq<CodeUnit>, factor: Word, inverse: Word)
    requires Inverses(factor, inverse)
    ensures Unfold(Fold(h, text, factor), text, inverse) == h
    ensures Fold(Unfold(h, text, inverse), text, factor) == h
    decreases |text|
  {
    hide Step, Unstep, Inverses;
    if text != [] {
      var front, c := text[..|text| - 1], text[|text| - 1];
      StepUndone(Fold(h, front, factor), c, factor, inverse);
      FoldIsBijective(h, front, factor, inverse);
      StepUndone(h, c, factor, inverse);
      FoldIsBijective(Unstep(h, c, inverse), front, factor, inverse);
    }
  }

  lemma {:induction false} FoldAppend(h: Word, a: seq<CodeUnit>, b: seq<CodeUnit>, factor: Word)
    ensures Fold(h, a + b, factor) == Fold(Fold(h, a, factor), b, factor)
  {
    hide Step;
    if b == [] {
      assert a + b == a;
    } else {
      assert (a + b)[..|a + b| - 1] == a + b[..|b| - 1];
      FoldAppend(h, a, b[..|b| - 1], factor);
    }
  }

  /** From one state, different code units lead to different states. */
  lemma {:induction false} StepDistinguishes(h: Word, c: CodeUnit, d: CodeUnit, factor: Word, inverse: Word)
    requires Inverses(factor, inverse)
    ensures Step(h, c, factor) == Step(h, d, factor) <==> c == d
  {
    FactorUndone(Xor(h, c), factor, inverse);
    FactorUndone(Xor(h, d), factor, inverse);
    BitXorCommutes(h, c);
    BitXorCommutes(h, d);
    BitXorTwice(c, h);
    BitXorTwice(d, h);
  }

  lemma {:induction false} BitXorCommutes(a: nat, b: nat)
    ensures BitXor(a, b) == BitXor(b, a)
    decreases a + b
  {
    if a != 0 || b != 0 {
      BitXorCommutes(a / 2, b / 2);
    }
  }

  /** The text with the unit at one index replaced. */
  function Replaced(text: seq<CodeUnit>, at: nat, c: CodeUnit): seq<CodeUnit>
    requires at < |text|
  {
    text[at := c]
  }

  /** Changing one code unit always changes a half. */
  lemma OneUnitDecidesTheHalf(start: Word, text: seq<CodeUnit>, at: nat, c: CodeUnit, factor: Word, inverse: Word)
    requires at < |text| && Inverses(factor, inverse)
    ensures Fold(start, Replaced(text, at, c), factor) == Fold(start, text, factor) <==> c == text[at]
  {
    hide Step, Fold, Unfold, Inverses;
    var before, after := text[..at], text[at + 1..];
    var h := Fold(start, before, factor);
    var g, g' := Step(h, text[at], factor), Step(h, c, factor);
    FoldAround(start, before, text[at], after, factor);
    FoldAround(start, before, c, after, factor);
    assert text == before + [text[at]] + after && Replaced(text, at, c) == before + [c] + after;
    StepDistinguishes(h, c, text[at], factor, inverse);
    FoldIsBijective(g, after, factor, inverse);
    FoldIsBijective(g', after, factor, inverse);
  }

  lemma FoldAround(start: Word, before: seq<CodeUnit>, c: CodeUnit, after: seq<CodeUnit>, factor: Word)
    ensures Fold(start, before + [c] + after, factor)
         == Fold(Step(Fold(start, before, factor), c, factor), after, factor)
  {
    hide Step;
    FoldAppend(start, before + [c], after, factor);
    FoldAppend(start, before, [c], factor);
    assert [c][..0] == [];
  }

  // ------------------------------------------------------------------ hexadecimal text

  function HexDigit(d: nat): char
    requires d < 16
  {
    if d < 10 then DigitChar(d) else ('a' as int + d - 10) as char
  }

  predicate IsHexDigit(c: char) {
    '0' <= c <= '9' || 'a' <= c <= 'f'
  }

  predicate AllHexDigits(s: string) {
    forall i :: 0 <= i < |s| ==> IsHexDigit(s[i])
  }

  /** `n.toString(16)`. */
  function HexText(n: nat): string {
    if n < 16 then [HexDigit(n)] else HexText(n / 16) + [HexDigit(n % 16)]
  }

  /** What a run of hex digits denotes. */
  function HexValue(s: string): nat
    requires AllHexDigits(s)
  {
    if s == "" then 0
    else
      var c := s[|s| - 1];
      HexValue(s[..|s| - 1]) * 16 + if IsDigit(c) then DigitValue(c) else c as int - 'a' as int + 10
  }

  function Pow16(k: nat): nat {
    if k == 0 then 1 else 16 * Pow16(k - 1)
  }

  lemma {:induction false} HexTextDenotes(n: nat, k: nat)
    requires k > 0
    ensures AllHexDigits(HexText(n)) && HexValue(HexText(n)) == n
    ensures n < Pow16(k) ==> |HexText(n)| <= k
    decreases n
  {
    if n < 16 {
      assert HexText(n)[..0] == "";
    } else {
      HexTextDenotes(n / 16, if k > 1 then k - 1 else 1);
      var t := HexText(n / 16);
      assert HexText(n)[..|t|] == t;
      if k == 1 {
        assert Pow16(1) == 16 * Pow16(0);
      }
    }
  }

  lemma {:induction false} LeadingZeros(k: nat, s: string)
    requires AllHexDigits(s)
    ensures AllHexDigits(Zeros(k) + s) && HexValue(Zeros(k) + s) == HexValue(s)
  {
    if s == "" {
      if k > 0 {
        LeadingZeros(k - 1, s);
        assert (Zeros(k) + s)[..k - 1] == Zeros(k - 1) + s;
      }
    } else {
      LeadingZeros(k, s[..|s| - 1]);
      assert (Zeros(k) + s)[..k + |s| - 1] == Zeros(k) + s[..|s| - 1];
    }
  }

  lemma EightDigits(w: Word)
    ensures |PadStart(HexText(w), 8)| == 8 && AllHexDigits(PadStart(HexText(w), 8))
    ensures HexValue(PadStart(HexText(w), 8)) == w
  {
    assert Pow16(4) == 0x1_0000;
    assert Pow16(8) == MODULUS;
    HexTextDenotes(w, 8);
    LeadingZeros(8 - |HexText(w)|, HexText(w));
  }

  lemma {:induction false} BitXorZero(a: nat)
    ensures BitXor(a, 0) == a
  {
    if a > 0 {
      BitXorZero(a / 2);
    }
  }

  lemma BitXorOfA()
    ensures BitXor(0x811c9dc5, 0x61) == 0x811c9da4
  {
    BitXorZero(0x102393b);
    hide BitXor;
    BitXorHalves(0x2047277, 0x1);
    assert BitXor(0x2047277, 0x1) == 0x2047276;
    BitXorHalves(0x408e4ee, 0x3);
    assert BitXor(0x408e4ee, 0x3) == 0x408e4ed;
    BitXorHalves(0x811c9dc, 0x6);
    assert BitXor(0x811c9dc, 0x6) == 0x811c9da;
    BitXorHalves(0x102393b8, 0xc);
    assert BitXor(0x102393b8, 0xc) == 0x102393b4;
    BitXorHalves(0x20472771, 0x18);
    assert BitXor(0x20472771, 0x18) == 0x20472769;
    BitXorHalves(0x408e4ee2, 0x30);
    assert BitXor(0x408e4ee2, 0x30) == 0x408e4ed2;
    BitXorHalves(0x811c9dc5, 0x61);
    assert BitXor(0x811c9dc5, 0x61) == 0x811c9da4;
  }

  /** The published FNV-1a values of the empty text and of "a": a unit is xored in before the multiplication. */
  lemma KnownValues()
    ensures Fold(H1_START, [], H1_FACTOR) == 0x811c9dc5
    ensures Fold(H1_START, [0x61], H1_FACTOR) == 0xe40c292c
  {
    BitXorOfA();
    hide BitXor;
    assert [0x61][..0] == [];
  }

  // ------------------------------------------------------------------ the fingerprint

  function Hash(text: seq<CodeUnit>): string {
    PadStart(HexText(Fold(H1_START, text, H1_FACTOR)), 8) + PadStart(HexText(Fold(H2_START, text, H2_FACTOR)), 8)
  }

  method Fnv1a64(text: seq<CodeUnit>) returns (hash: string)
    ensures hash == Hash(text)
  {
    var h1, h2 := H1_START, H2_START;
    for i := 0 to |text|
      invariant h1 == Fold(H1_START, text[..i], H1_FACTOR)
      invariant h2 == Fold(H2_START, text[..i], H2_FACTOR)
    {
      var c := text[i];
      h1 := Xor(h1, c);
      h1 := Imul(h1, H1_FACTOR);
      h2 := Xor(h2, c);
      h2 := Imul(h2, H2_FACTOR);
      assert text[..i + 1][..i] == text[..i];
    }
    assert text[..|text|] == text;
    return PadStart(HexText(h1), 8) + PadStart(HexText(h2), 8);
  }

  /** Sixteen lowercase hex digits from which both halves can be read back. */
  lemma HashIsSixteenHexDigits(text: seq<CodeUnit>)
    ensures |Hash(text)| == 16 && AllHexDigits(Hash(text))
    ensures HexValue(Hash(text)[..8]) == Fold(H1_START, text, H1_FACTOR)
    ensures HexValue(Hash(text)[8..]) == Fold(H2_START, text, H2_FACTOR)
  {
    hide Fold, HexText, PadStart;
    var h1, h2 := Fold(H1_START, text, H1_FACTOR), Fold(H2_START, text, H2_FACTOR);
    EightDigits(h1);
    EightDigits(h2);
    assert Hash(text)[..8] == PadStart(HexText(h1), 8) && Hash(text)[8..] == PadStart(HexText(h2), 8);
  }

  /** Texts that differ in at most one code unit agree in either half of the hash only when equal. */
  lemma OneUnitChangesBothHalves(text: seq<CodeUnit>, at: nat, c: CodeUnit)
    requires at < |text|
    ensures Hash(Replaced(text, at, c))[..8] == Hash(text)[..8] <==> c == text[at]
    ensures Hash(Replaced(text, at, c))[8..] == Hash(text)[8..] <==> c == text[at]
  {
    hide Fold, Hash, HexValue;
    HashIsSixteenHexDigits(text);
    HashIsSixteenHexDigits(Replaced(text, at, c));
    OneUnitDecidesTheHalf(H1_START, text, at, c, H1_FACTOR, H1_INVERSE);
    OneUnitDecidesTheHalf(H2_START, text, at, c, H2_FACTOR, H2_INVERSE);
    if c == text[at] {
      assert Replaced(text, at, c) == text;
    }
  }
}
