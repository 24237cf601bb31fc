/** Facts about the concrete replacement table of core/font_converter.py:32-93.
    Each fact is proved for every line of the table on its own and then glued
    along the table's comment groups: which characters the patterns and glyphs
    use, and the order of the patterns. */
module KrutidevTable {
  import opened Text
  import opened FontConverter
  import opened RuleTables

  // ---------------------------------------------------------------------------
  // Character classes of the table
  // ---------------------------------------------------------------------------

  /** U+0901 to U+094D: every character of every letter pattern lies here. */
  predicate InLetterRange(c: char) {
    '\U{0901}' <= c <= '\U{094D}'
  }

  /** A character a letter rule may emit: a key of the legacy font, which is
      never Devanagari, never `/`, never an ASCII digit and never one of the two
      fallback characters U+2024 and U+2215. */
  predicate IsLegacyKey(c: char) {
    !IsDevanagari(c) && c != '/' && !('0' <= c <= '9') && c != '\U{2024}' && c != '\U{2215}'
  }

  // ---------------------------------------------------------------------------
  // Shapes of rules, and how they survive concatenation
  // ---------------------------------------------------------------------------

  /** The shape of every rule of the last six groups. A glyph holding `.`
      only comes from a pattern holding ण. */
  predicate LetterRule(r: (string, string)) {
    && r.0 != []
    && (forall k | 0 <= k < |r.0| :: InLetterRange(r.0[k]))
    && (forall k | 0 <= k < |r.1| :: IsLegacyKey(r.1[k]))
    && ('.' in r.1 ==> '\U{0923}' in r.0)
  }

  predicate LetterRules(rules: Rules) {
    forall j | 0 <= j < |rules| :: LetterRule(rules[j])
  }

  /** The shape of every rule of the first five groups: one character, outside
      the letter range. */
  predicate PunctuationRule(r: (string, string)) {
    |r.0| == 1 && !InLetterRange(r.0[0])
  }

  predicate PunctuationRules(rules: Rules) {
    forall j | 0 <= j < |rules| :: PunctuationRule(rules[j])
  }

  /** All patterns have length `n` and their first characters strictly
      increase along the list. */
  predicate IncreasingHeads(rules: Rules, n: nat) {
    && n >= 1
    && (forall j | 0 <= j < |rules| :: |rules[j].0| == n)
    && (forall j | 0 < j < |rules| :: rules[j - 1].0[0] < rules[j].0[0])
  }

  /** One-character patterns whose characters lie in `lo..hi`. */
  predicate SinglesWithin(rules: Rules, lo: char, hi: char) {
    forall j | 0 <= j < |rules| :: |rules[j].0| == 1 && lo <= rules[j].0[0] <= hi
  }

  /** One-character patterns whose characters lie outside `lo..hi`. */
  predicate SinglesOutside(rules: Rules, lo: char, hi: char) {
    forall j | 0 <= j < |rules| :: |rules[j].0| == 1 && !(lo <= rules[j].0[0] <= hi)
  }

  /** Half forms: a consonant followed by the halant. */
  predicate HalfShaped(rules: Rules) {
    forall j | 0 <= j < |rules| :: |rules[j].0| == 2 && rules[j].0[1] == Halant
  }

  /** Longer than a half form, or as long but not ending in the halant. */
  predicate NotHalfShaped(rules: Rules) {
    forall j | 0 <= j < |rules| :: |rules[j].0| >= 3 || (|rules[j].0| == 2 && rules[j].0[1] != Halant)
  }

  predicate PatternsAtLeast(rules: Rules, n: nat) {
    forall j | 0 <= j < |rules| :: |rules[j].0| >= n
  }

  predicate PatternsBelow(rules: Rules, n: nat) {
    forall j | 0 <= j < |rules| :: |rules[j].0| < n
  }

  /** The rule at position `j` of `a + b`. */
  lemma AppendAt(a: Rules, b: Rules, j: int)
    requires 0 <= j < |a + b|
    ensures (a + b)[j] == if j < |a| then a[j] else b[j - |a|]
  {
  }

  lemma {:induction false} LetterRulesAppend(a: Rules, b: Rules)
    requires LetterRules(a) && LetterRules(b)
    ensures LetterRules(a + b)
  {
    forall j | 0 <= j < |a + b| ensures LetterRule((a + b)[j]) { AppendAt(a, b, j); }
  }

  lemma {:induction false} PunctuationRulesAppend(a: Rules, b: Rules)
    requires PunctuationRules(a) && PunctuationRules(b)
    ensures PunctuationRules(a + b)
  {
    forall j | 0 <= j < |a + b| ensures PunctuationRule((a + b)[j]) { AppendAt(a, b, j); }
  }

  lemma {:induction false} IncreasingHeadsAppend(a: Rules, b: Rules, n: nat)
    requires IncreasingHeads(a, n) && IncreasingHeads(b, n) && a != [] && b != []
    requires a[|a| - 1].0[0] < b[0].0[0]
    ensures IncreasingHeads(a + b, n)
  {
    forall j | 0 <= j < |a + b| ensures |(a + b)[j].0| == n { AppendAt(a, b, j); }
    forall j | 0 < j < |a + b| ensures (a + b)[j - 1].0[0] < (a + b)[j].0[0] {
      AppendAt(a, b, j);
      AppendAt(a, b, j - 1);
    }
  }

  lemma {:induction false} SinglesWithinAppend(a: Rules, b: Rules, lo: char, hi: char)
    requires SinglesWithin(a, lo, hi) && SinglesWithin(b, lo, hi)
    ensures SinglesWithin(a + b, lo, hi)
  {
    forall j | 0 <= j < |a + b| ensures |(a + b)[j].0| == 1 && lo <= (a + b)[j].0[0] <= hi {
      AppendAt(a, b, j);
    }
  }

  lemma {:induction false} SinglesOutsideAppend(a: Rules, b: Rules, lo: char, hi: char)
    requires SinglesOutside(a, lo, hi) && SinglesOutside(b, lo, hi)
    ensures SinglesOutside(a + b, lo, hi)
  {
    forall j | 0 <= j < |a + b| ensures |(a + b)[j].0| == 1 && !(lo <= (a + b)[j].0[0] <= hi) {
      AppendAt(a, b, j);
    }
  }

  lemma {:induction false} HalfShapedAppend(a: Rules, b: Rules)
    requires HalfShaped(a) && HalfShaped(b)
    ensures HalfShaped(a + b)
  {
    forall j | 0 <= j < |a + b| ensures |(a + b)[j].0| == 2 && (a + b)[j].0[1] == Halant {
      AppendAt(a, b, j);
    }
  }

  lemma {:induction false} NotHalfShapedAppend(a: Rules, b: Rules)
    requires NotHalfShaped(a) && NotHalfShaped(b)
    ensures NotHalfShaped(a + b)
  {
    forall j | 0 <= j < |a + b|
      ensures |(a + b)[j].0| >= 3 || (|(a + b)[j].0| == 2 && (a + b)[j].0[1] != Halant)
    {
      AppendAt(a, b, j);
    }
  }

  lemma {:induction false} AtLeastAppend(a: Rules, b: Rules, n: nat)
    requires PatternsAtLeast(a, n) && PatternsAtLeast(b, n)
    ensures PatternsAtLeast(a + b, n)
  {
    forall j | 0 <= j < |a + b| ensures |(a + b)[j].0| >= n { AppendAt(a, b, j); }
  }

  lemma {:induction false} WithinBelow(rules: Rules, lo: char, hi: char)
    requires SinglesWithin(rules, lo, hi)
    ensures PatternsBelow(rules, 2)
  {
    forall j | 0 <= j < |rules| ensures |rules[j].0| < 2 { }
  }

  lemma {:induction false} OutsideBelow(rules: Rules, lo: char, hi: char)
    requires SinglesOutside(rules, lo, hi)
    ensures PatternsBelow(rules, 2)
  {
    forall j | 0 <= j < |rules| ensures |rules[j].0| < 2 { }
  }

  // ---------------------------------------------------------------------------
  // Ordering predicates
  // ---------------------------------------------------------------------------

  /** No pattern occurs inside a pattern listed after it: an earlier rule never
      consumes part of the text a later rule is written for, so conjuncts are
      rewritten before their parts. */
  predicate NoShadow(rules: Rules) {
    forall i, j | 0 <= i < j < |rules| :: !Contains(rules[j].0, rules[i].0)
  }

  /** No pattern of `a` occurs inside a pattern of `b`. */
  predicate CrossNoShadow(a: Rules, b: Rules) {
    forall i, j | 0 <= i < |a| && 0 <= j < |b| :: !Contains(b[j].0, a[i].0)
  }

  /** Patterns listed longest first, and pairwise different. */
  predicate LengthOrdered(rules: Rules) {
    forall i, j | 0 <= i < j < |rules| :: |rules[j].0| <= |rules[i].0| && rules[j].0 != rules[i].0
  }

  /** Every pattern of `b` is at most as long as, and different from, every
      pattern of `a`. */
  predicate CrossLengthOrdered(a: Rules, b: Rules) {
    forall i, j | 0 <= i < |a| && 0 <= j < |b| :: |b[j].0| <= |a[i].0| && b[j].0 != a[i].0
  }

  // ---------------------------------------------------------------------------
  // What the letter rules leave alone
  // ---------------------------------------------------------------------------

  /** Letter rules neither read nor write a character outside the letter
      range that is not a legacy key. */
  lemma {:induction false} LetterRulesLeave(rules: Rules, c: char)
    requires LetterRules(rules) && !InLetterRange(c) && !IsLegacyKey(c)
    ensures Leaves(rules, c)
  {
    forall j | 0 <= j < |rules|
      ensures c !in rules[j].0 && c !in rules[j].1
    {
      assert LetterRule(rules[j]);
    }
  }

  /** Letter rules never emit Devanagari. */
  lemma {:induction false} LetterRulesNeverEmit(rules: Rules, c: char)
    requires LetterRules(rules) && !IsLegacyKey(c)
    ensures NeverEmits(rules, c)
  {
    forall j | 0 <= j < |rules|
      ensures c !in rules[j].1
    {
      assert LetterRule(rules[j]);
    }
  }

  /** Text without Devanagari is a fixed point of the letter rules. */
  lemma {:induction false} LetterRulesInert(rules: Rules, s: string)
    requires LetterRules(rules) && DevanagariFree(s)
    ensures Inert(rules, s)
  {
    forall j | 0 <= j < |rules|
      ensures Misses(rules[j].0, s)
    {
      assert LetterRule(rules[j]);
      assert InLetterRange(rules[j].0[0]);
    }
  }

  /** The one-character rules are inert on text made of letter-range characters. */
  lemma {:induction false} PunctuationRulesInert(rules: Rules, s: string)
    requires PunctuationRules(rules)
    requires forall k | 0 <= k < |s| :: InLetterRange(s[k])
    ensures Inert(rules, s)
  {
    forall j | 0 <= j < |rules|
      ensures Misses(rules[j].0, s)
    {
      assert PunctuationRule(rules[j]);
    }
  }

  // ---------------------------------------------------------------------------
  // The table in stages
  // ---------------------------------------------------------------------------

  lemma {:induction false} PunctuationStages(t: string)
    ensures ApplyRules(Punctuation, t)
         == ApplyRules(Digits, ApplyRules(Signs, ApplyRules(FallbackPunctuation,
              ApplyRules(RogueQuotes + Brackets, t))))
  {
    ApplyRulesAppend(RogueQuotes + Brackets + FallbackPunctuation + Signs, Digits, t);
    ApplyRulesAppend(RogueQuotes + Brackets + FallbackPunctuation, Signs, t);
    ApplyRulesAppend(RogueQuotes + Brackets, FallbackPunctuation, t);
  }

  lemma {:induction false} LetterStages(t: string)
    ensures ApplyRules(Letters, t)
         == ApplyRules(Matras, ApplyRules(Vowels, ApplyRules(FullConsonants,
              ApplyRules(HalfConsonants, ApplyRules(RModifiers, ApplyRules(SpecialConjuncts, t))))))
  {
    var c1 := SpecialConjuncts + RModifiers;
    var c2 := c1 + HalfConsonants;
    var c3 := c2 + FullConsonants;
    var c4 := c3 + Vowels;
    ApplyRulesAppend(c4, Matras, t);
    ApplyRulesAppend(c3, Vowels, t);
    ApplyRulesAppend(c2, FullConsonants, t);
    ApplyRulesAppend(c1, HalfConsonants, t);
    ApplyRulesAppend(SpecialConjuncts, RModifiers, t);
  }

  lemma {:induction false} TableStages(t: string)
    ensures ApplyRules(Replacements, t) == ApplyRules(Letters, ApplyRules(Punctuation, t))
  {
    ApplyRulesAppend(Punctuation, Letters, t);
  }

  /** The three fallback rules spelled out. */
  lemma {:induction false} FallbackSteps(t: string)
    ensures ApplyRules(FallbackPunctuation, t)
         == ReplaceAll(ReplaceAll(ReplaceAll(t, ".", "\U{2024}"), "\U{0970}", "\U{2024}"), "/", "\U{2215}")
  {
    var f := FallbackPunctuation;
    assert f[..2][..1] == f[..1] && f[..1][..0] == [];
    assert ApplyRules(f[..1], t) == ReplaceAll(t, ".", "\U{2024}");
    assert ApplyRules(f[..2], t) == ReplaceAll(ApplyRules(f[..1], t), "\U{0970}", "\U{2024}");
  }

  lemma {:induction false} ContainsLonger(s: string, p: string)
    requires |s| < |p|
    ensures !Contains(s, p)
    decreases |s|
  {
    if s != [] { ContainsLonger(s[1..], p); }
  }

  lemma {:induction false} ContainsSameLength(s: string, p: string)
    requires |s| == |p| && Contains(s, p)
    ensures s == p
  {
    if !StartsWith(s, p) {
      ContainsLonger(s[1..], p);
    }
  }

  lemma {:induction false} LengthOrderedNoShadow(rules: Rules)
    requires LengthOrdered(rules)
    ensures NoShadow(rules)
  {
    forall i, j | 0 <= i < j < |rules|
      ensures !Contains(rules[j].0, rules[i].0)
    {
      if |rules[j].0| < |rules[i].0| {
        ContainsLonger(rules[j].0, rules[i].0);
      } else if Contains(rules[j].0, rules[i].0) {
        ContainsSameLength(rules[j].0, rules[i].0);
      }
    }
  }

  lemma {:induction false} NoShadowAppend(a: Rules, b: Rules)
    requires NoShadow(a) && NoShadow(b) && CrossNoShadow(a, b)
    ensures NoShadow(a + b)
  {
    forall i, j | 0 <= i < j < |a + b|
      ensures !Contains((a + b)[j].0, (a + b)[i].0)
    {
      AppendAt(a, b, i);
      AppendAt(a, b, j);
    }
  }

  lemma {:induction false} LengthOrderedAppend(a: Rules, b: Rules)
    requires LengthOrdered(a) && LengthOrdered(b) && CrossLengthOrdered(a, b)
    ensures LengthOrdered(a + b)
  {
    forall i, j | 0 <= i < j < |a + b|
      ensures |(a + b)[j].0| <= |(a + b)[i].0| && (a + b)[j].0 != (a + b)[i].0
    {
      AppendAt(a, b, i);
      AppendAt(a, b, j);
    }
  }

  lemma {:induction false} CrossAppendLeft(a1: Rules, a2: Rules, b: Rules)
    requires CrossLengthOrdered(a1, b) && CrossLengthOrdered(a2, b)
    ensures CrossLengthOrdered(a1 + a2, b)
  {
    forall i, j | 0 <= i < |a1 + a2| && 0 <= j < |b|
      ensures |b[j].0| <= |(a1 + a2)[i].0| && b[j].0 != (a1 + a2)[i].0
    {
      AppendAt(a1, a2, i);
    }
  }

  lemma {:induction false} CrossAppendRight(a: Rules, b1: Rules, b2: Rules)
    requires CrossLengthOrdered(a, b1) && CrossLengthOrdered(a, b2)
    ensures CrossLengthOrdered(a, b1 + b2)
  {
    forall i, j | 0 <= i < |a| && 0 <= j < |b1 + b2|
      ensures |(b1 + b2)[j].0| <= |a[i].0| && (b1 + b2)[j].0 != a[i].0
    {
      AppendAt(b1, b2, j);
    }
  }

  lemma {:induction false} CrossByLength(a: Rules, b: Rules, n: nat)
    requires PatternsAtLeast(a, n) && PatternsBelow(b, n)
    ensures CrossLengthOrdered(a, b)
  {
    forall i, j | 0 <= i < |a| && 0 <= j < |b|
      ensures |b[j].0| <= |a[i].0| && b[j].0 != a[i].0
    {
      assert |a[i].0| >= n > |b[j].0|;
    }
  }

  /** One-character patterns on the two sides of a code-point range. */
  lemma {:induction false} CrossByRange(a: Rules, b: Rules, lo: char, hi: char)
    requires || (SinglesWithin(a, lo, hi) && SinglesOutside(b, lo, hi))
             || (SinglesOutside(a, lo, hi) && SinglesWithin(b, lo, hi))
    ensures CrossLengthOrdered(a, b)
  {
    forall i, j | 0 <= i < |a| && 0 <= j < |b|
      ensures |b[j].0| <= |a[i].0| && b[j].0 != a[i].0
    {
      assert (lo <= a[i].0[0] <= hi) != (lo <= b[j].0[0] <= hi);
    }
  }

  /** Half forms come after longer patterns and after two-character patterns
      that do not end in the halant. */
  lemma {:induction false} CrossByShape(a: Rules, b: Rules)
    requires NotHalfShaped(a) && HalfShaped(b)
    ensures CrossLengthOrdered(a, b)
  {
    forall i, j | 0 <= i < |a| && 0 <= j < |b|
      ensures |b[j].0| <= |a[i].0| && b[j].0 != a[i].0
    {
      if |a[i].0| == 2 { assert a[i].0[1] != b[j].0[1]; }
    }
  }

  lemma {:induction false} IncreasingHeadsApart(rules: Rules, n: nat, i: nat, j: nat)
    requires IncreasingHeads(rules, n) && i < j < |rules|
    ensures rules[i].0[0] < rules[j].0[0]
    decreases j - i
  {
    if i + 1 < j { IncreasingHeadsApart(rules, n, i, j - 1); }
  }

  lemma {:induction false} IncreasingHeadsOrdered(rules: Rules, n: nat)
    requires IncreasingHeads(rules, n)
    ensures LengthOrdered(rules)
  {
    forall i, j | 0 <= i < j < |rules|
      ensures |rules[j].0| <= |rules[i].0| && rules[j].0 != rules[i].0
    {
      IncreasingHeadsApart(rules, n, i, j);
    }
  }

  /** A one-character pattern outside the letter range never occurs inside a
      letter pattern. */
  lemma {:induction false} CrossPunctuationLetters(a: Rules, b: Rules)
    requires PunctuationRules(a) && LetterRules(b)
    ensures CrossNoShadow(a, b)
  {
    forall i, j | 0 <= i < |a| && 0 <= j < |b|
      ensures !Contains(b[j].0, a[i].0)
    {
      assert PunctuationRule(a[i]) && LetterRule(b[j]);
      var c := a[i].0[0];
      assert a[i].0 == [c];
      ContainsChar(b[j].0, c);
    }
  }

  // ---------------------------------------------------------------------------
  // One fact per line of the table. Each is proved by evaluation on the
  // line's literal; keeping them apart keeps every proof small.
  // ---------------------------------------------------------------------------

  lemma RogueQuotesArePunctuation() ensures PunctuationRules(RogueQuotes) { }
  lemma RogueQuotesIncreasing() ensures IncreasingHeads(RogueQuotes, 1) { }
  lemma RogueQuotesOutsideDigits() ensures SinglesOutside(RogueQuotes, DigitLo, DigitHi) { }
  lemma Brackets1ArePunctuation() ensures PunctuationRules(Brackets1) { }
  lemma Brackets1Increasing() ensures IncreasingHeads(Brackets1, 1) { }
  lemma Brackets1OutsideDigits() ensures SinglesOutside(Brackets1, DigitLo, DigitHi) { }
  lemma Brackets2ArePunctuation() ensures PunctuationRules(Brackets2) { }
  lemma Brackets2Increasing() ensures IncreasingHeads(Brackets2, 1) { }
  lemma Brackets2OutsideDigits() ensures SinglesOutside(Brackets2, DigitLo, DigitHi) { }
  lemma FallbackArePunctuation() ensures PunctuationRules(FallbackPunctuation) { }
  lemma FallbackOrdered() ensures LengthOrdered(FallbackPunctuation) { }
  lemma FallbackOutsideDigits() ensures SinglesOutside(FallbackPunctuation, DigitLo, DigitHi) { }
  lemma SignsArePunctuation() ensures PunctuationRules(Signs) { }
  lemma SignsOrdered() ensures LengthOrdered(Signs) { }
  lemma SignsOutsideDigits() ensures SinglesOutside(Signs, DigitLo, DigitHi) { }
  lemma Digits1ArePunctuation() ensures PunctuationRules(Digits1) { }
  lemma Digits1Increasing() ensures IncreasingHeads(Digits1, 1) { }
  lemma Digits1WithinDigits() ensures SinglesWithin(Digits1, DigitLo, DigitHi) { }
  lemma Digits2ArePunctuation() ensures PunctuationRules(Digits2) { }
  lemma Digits2Increasing() ensures IncreasingHeads(Digits2, 1) { }
  lemma Digits2WithinDigits() ensures SinglesWithin(Digits2, DigitLo, DigitHi) { }
  lemma RogueQuotesBeforeFallback() ensures CrossLengthOrdered(RogueQuotes, FallbackPunctuation) { }
  lemma Brackets1BeforeFallback() ensures CrossLengthOrdered(Brackets1, FallbackPunctuation) { }
  lemma Brackets2BeforeFallback() ensures CrossLengthOrdered(Brackets2, FallbackPunctuation) { }
  lemma RogueQuotesBeforeSigns() ensures CrossLengthOrdered(RogueQuotes, Signs) { }
  lemma Brackets1BeforeSigns() ensures CrossLengthOrdered(Brackets1, Signs) { }
  lemma Brackets2BeforeSigns() ensures CrossLengthOrdered(Brackets2, Signs) { }
  lemma FallbackBeforeSigns() ensures CrossLengthOrdered(FallbackPunctuation, Signs) { }
  lemma Conjuncts1Letters() ensures LetterRules(Conjuncts1) { }
  lemma Conjuncts1Ordered() ensures LengthOrdered(Conjuncts1) { }
  lemma Conjuncts1NotHalf() ensures NotHalfShaped(Conjuncts1) { }
  lemma Conjuncts2Letters() ensures LetterRules(Conjuncts2) { }
  lemma Conjuncts2Ordered() ensures LengthOrdered(Conjuncts2) { }
  lemma Conjuncts2NotHalf() ensures NotHalfShaped(Conjuncts2) { }
  lemma Conjuncts3Letters() ensures LetterRules(Conjuncts3) { }
  lemma Conjuncts3Ordered() ensures LengthOrdered(Conjuncts3) { }
  lemma Conjuncts3NotHalf() ensures NotHalfShaped(Conjuncts3) { }
  lemma Conjuncts4Letters() ensures LetterRules(Conjuncts4) { }
  lemma Conjuncts4Ordered() ensures LengthOrdered(Conjuncts4) { }
  lemma Conjuncts4NotHalf() ensures NotHalfShaped(Conjuncts4) { }
  lemma Conjuncts5Letters() ensures LetterRules(Conjuncts5) { }
  lemma Conjuncts5Ordered() ensures LengthOrdered(Conjuncts5) { }
  lemma Conjuncts5NotHalf() ensures NotHalfShaped(Conjuncts5) { }
  lemma Conjuncts1Lengths() ensures PatternsAtLeast(Conjuncts1, 4) { }
  lemma Conjuncts2Lengths() ensures PatternsAtLeast(Conjuncts2, 3) && PatternsBelow(Conjuncts2, 4) { }
  lemma Conjuncts3Lengths() ensures PatternsAtLeast(Conjuncts3, 3) && PatternsBelow(Conjuncts3, 4) { }
  lemma Conjuncts4Lengths() ensures PatternsAtLeast(Conjuncts4, 3) && PatternsBelow(Conjuncts4, 4) { }
  lemma Conjuncts5Lengths() ensures PatternsAtLeast(Conjuncts5, 2) && PatternsBelow(Conjuncts5, 4) { }
  lemma Conjuncts2BeforeConjuncts3() ensures CrossLengthOrdered(Conjuncts2, Conjuncts3) { }
  lemma Conjuncts2BeforeConjuncts4() ensures CrossLengthOrdered(Conjuncts2, Conjuncts4) { }
  lemma Conjuncts2BeforeConjuncts5() ensures CrossLengthOrdered(Conjuncts2, Conjuncts5) { }
  lemma Conjuncts3BeforeConjuncts4() ensures CrossLengthOrdered(Conjuncts3, Conjuncts4) { }
  lemma Conjuncts3BeforeConjuncts5() ensures CrossLengthOrdered(Conjuncts3, Conjuncts5) { }
  lemma Conjuncts4BeforeConjuncts5() ensures CrossLengthOrdered(Conjuncts4, Conjuncts5) { }
  lemma Conjuncts5BeforeRModifiers() ensures CrossLengthOrdered(Conjuncts5, RModifiers) { }
  lemma RModifiersLetters() ensures LetterRules(RModifiers) { }
  lemma RModifiersOrdered() ensures LengthOrdered(RModifiers) { }
  lemma RModifiersLengths() ensures PatternsAtLeast(RModifiers, 2) && PatternsBelow(RModifiers, 3) { }
  lemma Half1Letters() ensures LetterRules(Half1) { }
  lemma Half1Increasing() ensures IncreasingHeads(Half1, 2) { }
  lemma Half1Shaped() ensures HalfShaped(Half1) { }
  lemma RModifiersBeforeHalf1() ensures CrossLengthOrdered(RModifiers, Half1) { }
  lemma Half2Letters() ensures LetterRules(Half2) { }
  lemma Half2Increasing() ensures IncreasingHeads(Half2, 2) { }
  lemma Half2Shaped() ensures HalfShaped(Half2) { }
  lemma RModifiersBeforeHalf2() ensures CrossLengthOrdered(RModifiers, Half2) { }
  lemma Half3Letters() ensures LetterRules(Half3) { }
  lemma Half3Increasing() ensures IncreasingHeads(Half3, 2) { }
  lemma Half3Shaped() ensures HalfShaped(Half3) { }
  lemma RModifiersBeforeHalf3() ensures CrossLengthOrdered(RModifiers, Half3) { }
  lemma Half4Letters() ensures LetterRules(Half4) { }
  lemma Half4Increasing() ensures IncreasingHeads(Half4, 2) { }
  lemma Half4Shaped() ensures HalfShaped(Half4) { }
  lemma RModifiersBeforeHalf4() ensures CrossLengthOrdered(RModifiers, Half4) { }
  lemma Half5Letters() ensures LetterRules(Half5) { }
  lemma Half5Increasing() ensures IncreasingHeads(Half5, 2) { }
  lemma Half5Shaped() ensures HalfShaped(Half5) { }
  lemma RModifiersBeforeHalf5() ensures CrossLengthOrdered(RModifiers, Half5) { }
  lemma Half6Letters() ensures LetterRules(Half6) { }
  lemma Half6Increasing() ensures IncreasingHeads(Half6, 2) { }
  lemma Half6Shaped() ensures HalfShaped(Half6) { }
  lemma RModifiersBeforeHalf6() ensures CrossLengthOrdered(RModifiers, Half6) { }
  lemma Half7Letters() ensures LetterRules(Half7) { }
  lemma Half7Increasing() ensures IncreasingHeads(Half7, 2) { }
  lemma Half7Shaped() ensures HalfShaped(Half7) { }
  lemma RModifiersBeforeHalf7() ensures CrossLengthOrdered(RModifiers, Half7) { }
  lemma Full1Letters() ensures LetterRules(Full1) { }
  lemma Full1Increasing() ensures IncreasingHeads(Full1, 1) { }
  lemma Full1Within() ensures SinglesWithin(Full1, ConsonantLo, ConsonantHi) { }
  lemma Full2Letters() ensures LetterRules(Full2) { }
  lemma Full2Increasing() ensures IncreasingHeads(Full2, 1) { }
  lemma Full2Within() ensures SinglesWithin(Full2, ConsonantLo, ConsonantHi) { }
  lemma Full3Letters() ensures LetterRules(Full3) { }
  lemma Full3Increasing() ensures IncreasingHeads(Full3, 1) { }
  lemma Full3Within() ensures SinglesWithin(Full3, ConsonantLo, ConsonantHi) { }
  lemma Full4Letters() ensures LetterRules(Full4) { }
  lemma Full4Increasing() ensures IncreasingHeads(Full4, 1) { }
  lemma Full4Within() ensures SinglesWithin(Full4, ConsonantLo, ConsonantHi) { }
  lemma Full5Letters() ensures LetterRules(Full5) { }
  lemma Full5Increasing() ensures IncreasingHeads(Full5, 1) { }
  lemma Full5Within() ensures SinglesWithin(Full5, ConsonantLo, ConsonantHi) { }
  lemma Full6Letters() ensures LetterRules(Full6) { }
  lemma Full6Increasing() ensures IncreasingHeads(Full6, 1) { }
  lemma Full6Within() ensures SinglesWithin(Full6, ConsonantLo, ConsonantHi) { }
  lemma Full7Letters() ensures LetterRules(Full7) { }
  lemma Full7Increasing() ensures IncreasingHeads(Full7, 1) { }
  lemma Full7Within() ensures SinglesWithin(Full7, ConsonantLo, ConsonantHi) { }
  lemma Vowels1Letters() ensures LetterRules(Vowels1) { }
  lemma Vowels1Ordered() ensures LengthOrdered(Vowels1) { }
  lemma Vowels1Within() ensures SinglesWithin(Vowels1, VowelLo, VowelHi) { }
  lemma Vowels2Letters() ensures LetterRules(Vowels2) { }
  lemma Vowels2Ordered() ensures LengthOrdered(Vowels2) { }
  lemma Vowels2Within() ensures SinglesWithin(Vowels2, VowelLo, VowelHi) { }
  lemma Vowels3Letters() ensures LetterRules(Vowels3) { }
  lemma Vowels3Ordered() ensures LengthOrdered(Vowels3) { }
  lemma Vowels3Within() ensures SinglesWithin(Vowels3, VowelLo, VowelHi) { }
  lemma Vowels1BeforeVowels2() ensures CrossLengthOrdered(Vowels1, Vowels2) { }
  lemma Vowels1BeforeVowels3() ensures CrossLengthOrdered(Vowels1, Vowels3) { }
  lemma Vowels2BeforeVowels3() ensures CrossLengthOrdered(Vowels2, Vowels3) { }
  lemma Matras1Letters() ensures LetterRules(Matras1) { }
  lemma Matras1Ordered() ensures LengthOrdered(Matras1) { }
  lemma Matras1Outside() ensures SinglesOutside(Matras1, VowelLo, LetterHi) { }
  lemma Matras2Letters() ensures LetterRules(Matras2) { }
  lemma Matras2Ordered() ensures LengthOrdered(Matras2) { }
  lemma Matras2Outside() ensures SinglesOutside(Matras2, VowelLo, LetterHi) { }
  lemma Matras3Letters() ensures LetterRules(Matras3) { }
  lemma Matras3Ordered() ensures LengthOrdered(Matras3) { }
  lemma Matras3Outside() ensures SinglesOutside(Matras3, VowelLo, LetterHi) { }
  lemma Matras4Letters() ensures LetterRules(Matras4) { }
  lemma Matras4Ordered() ensures LengthOrdered(Matras4) { }
  lemma Matras4Outside() ensures SinglesOutside(Matras4, VowelLo, LetterHi) { }
  lemma Matras1BeforeMatras2() ensures CrossLengthOrdered(Matras1, Matras2) { }
  lemma Matras1BeforeMatras3() ensures CrossLengthOrdered(Matras1, Matras3) { }
  lemma Matras1BeforeMatras4() ensures CrossLengthOrdered(Matras1, Matras4) { }
  lemma Matras2BeforeMatras3() ensures CrossLengthOrdered(Matras2, Matras3) { }
  lemma Matras2BeforeMatras4() ensures CrossLengthOrdered(Matras2, Matras4) { }
  lemma Matras3BeforeMatras4() ensures CrossLengthOrdered(Matras3, Matras4) { }

  // ---------------------------------------------------------------------------
  // The punctuation groups
  // ---------------------------------------------------------------------------

  /** The digit range U+0966 to U+096F. */
  const DigitLo: char := '\U{0966}'
  const DigitHi: char := '\U{096F}'

  lemma {:induction false} PunctuationArePunctuationRules()
    ensures PunctuationRules(Punctuation)
  {
    RogueQuotesArePunctuation(); RogueQuotesIncreasing(); RogueQuotesOutsideDigits(); Brackets1ArePunctuation(); Brackets1Increasing(); Brackets1OutsideDigits(); Brackets2ArePunctuation(); Brackets2Increasing(); Brackets2OutsideDigits(); FallbackArePunctuation(); FallbackOrdered(); FallbackOutsideDigits(); RogueQuotesBeforeFallback(); Brackets1BeforeFallback(); Brackets2BeforeFallback(); SignsArePunctuation(); SignsOrdered(); SignsOutsideDigits(); RogueQuotesBeforeSigns(); Brackets1BeforeSigns(); Brackets2BeforeSigns(); FallbackBeforeSigns();
    Digits1ArePunctuation(); Digits1Increasing(); Digits1WithinDigits(); Digits2ArePunctuation(); Digits2Increasing(); Digits2WithinDigits();
    var q, b, f, g, d := RogueQuotes, Brackets, FallbackPunctuation, Signs, Digits;
    PunctuationRulesAppend(Brackets1, Brackets2);
    PunctuationRulesAppend(Digits1, Digits2);
    PunctuationRulesAppend(q, b);
    PunctuationRulesAppend(q + b, f);
    PunctuationRulesAppend(q + b + f, g);
    PunctuationRulesAppend(q + b + f + g, d);
  }

  /** The punctuation rules are pairwise different one-character rules. */
  lemma {:induction false} PunctuationOrdered()
    ensures LengthOrdered(Punctuation)
  {
    RogueQuotesArePunctuation(); RogueQuotesIncreasing(); RogueQuotesOutsideDigits(); Brackets1ArePunctuation(); Brackets1Increasing(); Brackets1OutsideDigits(); Brackets2ArePunctuation(); Brackets2Increasing(); Brackets2OutsideDigits(); FallbackArePunctuation(); FallbackOrdered(); FallbackOutsideDigits(); RogueQuotesBeforeFallback(); Brackets1BeforeFallback(); Brackets2BeforeFallback(); SignsArePunctuation(); SignsOrdered(); SignsOutsideDigits(); RogueQuotesBeforeSigns(); Brackets1BeforeSigns(); Brackets2BeforeSigns(); FallbackBeforeSigns();
    Digits1ArePunctuation(); Digits1Increasing(); Digits1WithinDigits(); Digits2ArePunctuation(); Digits2Increasing(); Digits2WithinDigits();
    var q, b, f, g, d := RogueQuotes, Brackets, FallbackPunctuation, Signs, Digits;
    IncreasingHeadsAppend(Brackets1, Brackets2, 1);
    IncreasingHeadsAppend(q, b, 1);
    IncreasingHeadsOrdered(q + b, 1);
    IncreasingHeadsAppend(Digits1, Digits2, 1);
    IncreasingHeadsOrdered(d, 1);
    SinglesWithinAppend(Digits1, Digits2, DigitLo, DigitHi);
    SinglesOutsideAppend(Brackets1, Brackets2, DigitLo, DigitHi);
    SinglesOutsideAppend(q, b, DigitLo, DigitHi);
    SinglesOutsideAppend(q + b, f, DigitLo, DigitHi);
    SinglesOutsideAppend(q + b + f, g, DigitLo, DigitHi);
    CrossAppendLeft(Brackets1, Brackets2, f);
    CrossAppendLeft(q, b, f);
    LengthOrderedAppend(q + b, f);
    CrossAppendLeft(Brackets1, Brackets2, g);
    CrossAppendLeft(q, b, g);
    CrossAppendLeft(q + b, f, g);
    LengthOrderedAppend(q + b + f, g);
    CrossByRange(q + b + f + g, d, DigitLo, DigitHi);
    LengthOrderedAppend(q + b + f + g, d);
  }

  // ---------------------------------------------------------------------------
  // The letter groups
  // ---------------------------------------------------------------------------

  /** The special conjuncts: letter rules, longest first, none of them a half form. */
  lemma {:induction false} SpecialConjunctsFacts()
    ensures LetterRules(SpecialConjuncts) && LengthOrdered(SpecialConjuncts)
    ensures NotHalfShaped(SpecialConjuncts) && PatternsAtLeast(SpecialConjuncts, 2)
    ensures CrossLengthOrdered(SpecialConjuncts, RModifiers)
  {
    Conjuncts1Letters(); Conjuncts1Ordered(); Conjuncts1NotHalf(); Conjuncts1Lengths(); Conjuncts2Letters(); Conjuncts2Ordered(); Conjuncts2NotHalf(); Conjuncts2Lengths(); Conjuncts3Letters(); Conjuncts3Ordered(); Conjuncts3NotHalf(); Conjuncts3Lengths(); Conjuncts2BeforeConjuncts3(); Conjuncts4Letters(); Conjuncts4Ordered(); Conjuncts4NotHalf(); Conjuncts4Lengths(); Conjuncts2BeforeConjuncts4(); Conjuncts3BeforeConjuncts4(); Conjuncts5Letters(); Conjuncts5Ordered(); Conjuncts5NotHalf(); Conjuncts5Lengths(); Conjuncts2BeforeConjuncts5(); Conjuncts3BeforeConjuncts5(); Conjuncts4BeforeConjuncts5(); Conjuncts5BeforeRModifiers();
    RModifiersLetters(); RModifiersOrdered(); RModifiersLengths();
    var c1, c2, c3, c4, c5 := Conjuncts1, Conjuncts2, Conjuncts3, Conjuncts4, Conjuncts5;
    var p2 := c1 + c2;
    var p3 := p2 + c3;
    var p4 := p3 + c4;
    LetterRulesAppend(c1, c2); LetterRulesAppend(p2, c3);
    LetterRulesAppend(p3, c4); LetterRulesAppend(p4, c5);
    NotHalfShapedAppend(c1, c2); NotHalfShapedAppend(p2, c3);
    NotHalfShapedAppend(p3, c4); NotHalfShapedAppend(p4, c5);
    AtLeastAppend(c1, c2, 3); AtLeastAppend(p2, c3, 3); AtLeastAppend(p3, c4, 3);
    AtLeastAppend(p4, c5, 2);
    CrossByLength(c1, c2, 4);
    LengthOrderedAppend(c1, c2);
    CrossByLength(c1, c3, 4); CrossAppendLeft(c1, c2, c3);
    LengthOrderedAppend(p2, c3);
    CrossByLength(c1, c4, 4); CrossAppendLeft(c1, c2, c4); CrossAppendLeft(p2, c3, c4);
    LengthOrderedAppend(p3, c4);
    CrossByLength(c1, c5, 4); CrossAppendLeft(c1, c2, c5); CrossAppendLeft(p2, c3, c5);
    CrossAppendLeft(p3, c4, c5);
    LengthOrderedAppend(p4, c5);
    CrossByLength(p4, RModifiers, 3);
    CrossAppendLeft(p4, c5, RModifiers);
  }

  /** The half consonants: letter rules, half forms in code-point order. */
  lemma {:induction false} HalfConsonantsFacts()
    ensures LetterRules(HalfConsonants) && IncreasingHeads(HalfConsonants, 2)
    ensures HalfShaped(HalfConsonants) && CrossLengthOrdered(RModifiers, HalfConsonants)
  {
    Half1Letters(); Half1Increasing(); Half1Shaped(); RModifiersBeforeHalf1(); Half2Letters(); Half2Increasing(); Half2Shaped(); RModifiersBeforeHalf2(); Half3Letters(); Half3Increasing(); Half3Shaped(); RModifiersBeforeHalf3(); Half4Letters(); Half4Increasing(); Half4Shaped(); RModifiersBeforeHalf4(); Half5Letters(); Half5Increasing(); Half5Shaped(); RModifiersBeforeHalf5(); Half6Letters(); Half6Increasing(); Half6Shaped(); RModifiersBeforeHalf6(); Half7Letters(); Half7Increasing(); Half7Shaped(); RModifiersBeforeHalf7();
    var p2 := Half1 + Half2;
    var p3 := p2 + Half3;
    var p4 := p3 + Half4;
    var p5 := p4 + Half5;
    var p6 := p5 + Half6;
    LetterRulesAppend(Half1, Half2); LetterRulesAppend(p2, Half3); LetterRulesAppend(p3, Half4);
    LetterRulesAppend(p4, Half5); LetterRulesAppend(p5, Half6); LetterRulesAppend(p6, Half7);
    IncreasingHeadsAppend(Half1, Half2, 2); IncreasingHeadsAppend(p2, Half3, 2);
    IncreasingHeadsAppend(p3, Half4, 2); IncreasingHeadsAppend(p4, Half5, 2);
    IncreasingHeadsAppend(p5, Half6, 2); IncreasingHeadsAppend(p6, Half7, 2);
    HalfShapedAppend(Half1, Half2); HalfShapedAppend(p2, Half3); HalfShapedAppend(p3, Half4);
    HalfShapedAppend(p4, Half5); HalfShapedAppend(p5, Half6); HalfShapedAppend(p6, Half7);
    CrossAppendRight(RModifiers, Half1, Half2); CrossAppendRight(RModifiers, p2, Half3);
    CrossAppendRight(RModifiers, p3, Half4); CrossAppendRight(RModifiers, p4, Half5);
    CrossAppendRight(RModifiers, p5, Half6); CrossAppendRight(RModifiers, p6, Half7);
  }

  /** The consonant range U+0915 to U+0939. */
  const ConsonantLo: char := '\U{0915}'
  const ConsonantHi: char := '\U{0939}'

  /** The full consonants: letter rules, one consonant each, in code-point order. */
  lemma {:induction false} FullConsonantsFacts()
    ensures LetterRules(FullConsonants) && IncreasingHeads(FullConsonants, 1)
    ensures SinglesWithin(FullConsonants, ConsonantLo, ConsonantHi)
  {
    Full1Letters(); Full1Increasing(); Full1Within(); Full2Letters(); Full2Increasing(); Full2Within(); Full3Letters(); Full3Increasing(); Full3Within(); Full4Letters(); Full4Increasing(); Full4Within(); Full5Letters(); Full5Increasing(); Full5Within(); Full6Letters(); Full6Increasing(); Full6Within(); Full7Letters(); Full7Increasing(); Full7Within();
    var p2 := Full1 + Full2;
    var p3 := p2 + Full3;
    var p4 := p3 + Full4;
    var p5 := p4 + Full5;
    var p6 := p5 + Full6;
    LetterRulesAppend(Full1, Full2); LetterRulesAppend(p2, Full3); LetterRulesAppend(p3, Full4);
    LetterRulesAppend(p4, Full5); LetterRulesAppend(p5, Full6); LetterRulesAppend(p6, Full7);
    IncreasingHeadsAppend(Full1, Full2, 1); IncreasingHeadsAppend(p2, Full3, 1);
    IncreasingHeadsAppend(p3, Full4, 1); IncreasingHeadsAppend(p4, Full5, 1);
    IncreasingHeadsAppend(p5, Full6, 1); IncreasingHeadsAppend(p6, Full7, 1);
    SinglesWithinAppend(Full1, Full2, ConsonantLo, ConsonantHi);
    SinglesWithinAppend(p2, Full3, ConsonantLo, ConsonantHi);
    SinglesWithinAppend(p3, Full4, ConsonantLo, ConsonantHi);
    SinglesWithinAppend(p4, Full5, ConsonantLo, ConsonantHi);
    SinglesWithinAppend(p5, Full6, ConsonantLo, ConsonantHi);
    SinglesWithinAppend(p6, Full7, ConsonantLo, ConsonantHi);
  }

  /** The independent vowels lie in U+0904 to U+0914. */
  const VowelLo: char := '\U{0904}'
  const VowelHi: char := '\U{0914}'

  /** The vowel signs lie outside U+0904 to U+093B. */
  const LetterHi: char := '\U{093B}'

  /** The vowels: letter rules, pairwise different single characters. */
  lemma {:induction false} VowelsFacts()
    ensures LetterRules(Vowels) && LengthOrdered(Vowels) && SinglesWithin(Vowels, VowelLo, VowelHi)
  {
    Vowels1Letters(); Vowels1Ordered(); Vowels1Within(); Vowels2Letters(); Vowels2Ordered(); Vowels2Within(); Vowels1BeforeVowels2(); Vowels3Letters(); Vowels3Ordered(); Vowels3Within(); Vowels1BeforeVowels3(); Vowels2BeforeVowels3();
    var p2 := Vowels1 + Vowels2;
    LetterRulesAppend(Vowels1, Vowels2); LetterRulesAppend(p2, Vowels3);
    SinglesWithinAppend(Vowels1, Vowels2, VowelLo, VowelHi);
    SinglesWithinAppend(p2, Vowels3, VowelLo, VowelHi);
    LengthOrderedAppend(Vowels1, Vowels2);
    CrossAppendLeft(Vowels1, Vowels2, Vowels3);
    LengthOrderedAppend(p2, Vowels3);
  }

  /** The vowel signs: letter rules, pairwise different single characters. */
  lemma {:induction false} MatrasFacts()
    ensures LetterRules(Matras) && LengthOrdered(Matras) && SinglesOutside(Matras, VowelLo, LetterHi)
  {
    Matras1Letters(); Matras1Ordered(); Matras1Outside(); Matras2Letters(); Matras2Ordered(); Matras2Outside(); Matras1BeforeMatras2(); Matras3Letters(); Matras3Ordered(); Matras3Outside(); Matras1BeforeMatras3(); Matras2BeforeMatras3(); Matras4Letters(); Matras4Ordered(); Matras4Outside(); Matras1BeforeMatras4(); Matras2BeforeMatras4(); Matras3BeforeMatras4();
    var p2 := Matras1 + Matras2;
    var p3 := p2 + Matras3;
    LetterRulesAppend(Matras1, Matras2); LetterRulesAppend(p2, Matras3); LetterRulesAppend(p3, Matras4);
    SinglesOutsideAppend(Matras1, Matras2, VowelLo, LetterHi);
    SinglesOutsideAppend(p2, Matras3, VowelLo, LetterHi);
    SinglesOutsideAppend(p3, Matras4, VowelLo, LetterHi);
    LengthOrderedAppend(Matras1, Matras2);
    CrossAppendLeft(Matras1, Matras2, Matras3);
    LengthOrderedAppend(p2, Matras3);
    CrossAppendLeft(Matras1, Matras2, Matras4);
    CrossAppendLeft(p2, Matras3, Matras4);
    LengthOrderedAppend(p3, Matras4);
  }

  // ---------------------------------------------------------------------------
  // The whole table
  // ---------------------------------------------------------------------------

  /** Every rule of the last six groups reads only letter-range characters and
      writes only legacy-font keys. */
  lemma {:induction false} LettersAreLetterRules()
    ensures LetterRules(Letters)
  {
    SpecialConjunctsFacts(); RModifiersLetters(); RModifiersOrdered(); RModifiersLengths(); HalfConsonantsFacts();
    FullConsonantsFacts(); VowelsFacts(); MatrasFacts();
    var l1 := SpecialConjuncts + RModifiers;
    var l2 := l1 + HalfConsonants;
    var l3 := l2 + FullConsonants;
    var l4 := l3 + Vowels;
    LetterRulesAppend(SpecialConjuncts, RModifiers);
    LetterRulesAppend(l1, HalfConsonants);
    LetterRulesAppend(l2, FullConsonants);
    LetterRulesAppend(l3, Vowels);
    LetterRulesAppend(l4, Matras);
  }

  lemma {:induction false} SinglesWithinWiden(rules: Rules, lo: char, hi: char, hi': char)
    requires SinglesWithin(rules, lo, hi) && hi <= hi'
    ensures SinglesWithin(rules, lo, hi')
  {
    forall j | 0 <= j < |rules| ensures |rules[j].0| == 1 && lo <= rules[j].0[0] <= hi' { }
  }

  lemma {:induction false} SinglesOutsideNarrow(rules: Rules, lo: char, hi: char, lo': char, hi': char)
    requires SinglesOutside(rules, lo, hi) && lo <= lo' && hi' <= hi
    ensures SinglesOutside(rules, lo', hi')
  {
    forall j | 0 <= j < |rules| ensures |rules[j].0| == 1 && !(lo' <= rules[j].0[0] <= hi') { }
  }

  /** The letter rules are listed longest first, with no pattern repeated. */
  lemma {:induction false} LettersOrdered()
    ensures LengthOrdered(Letters)
  {
    var c, r, h, f, v, m := SpecialConjuncts, RModifiers, HalfConsonants, FullConsonants, Vowels, Matras;
    SpecialConjunctsFacts(); RModifiersLetters(); RModifiersOrdered(); RModifiersLengths(); HalfConsonantsFacts();
    FullConsonantsFacts(); VowelsFacts(); MatrasFacts();
    IncreasingHeadsOrdered(h, 2);
    IncreasingHeadsOrdered(f, 1);
    CrossByShape(c, h);
    CrossByRange(f, v, ConsonantLo, ConsonantHi) by {
      SinglesWithinWiden(v, VowelLo, VowelHi, VowelHi);
      forall j | 0 <= j < |v| ensures |v[j].0| == 1 && !(ConsonantLo <= v[j].0[0] <= ConsonantHi) { }
    }
    SinglesOutsideNarrow(m, VowelLo, LetterHi, ConsonantLo, ConsonantHi);
    CrossByRange(f, m, ConsonantLo, ConsonantHi);
    SinglesWithinWiden(v, VowelLo, VowelHi, LetterHi);
    CrossByRange(v, m, VowelLo, LetterHi);
    WithinBelow(f, ConsonantLo, ConsonantHi);
    WithinBelow(v, VowelLo, VowelHi);
    OutsideBelow(m, VowelLo, LetterHi);
    var l1 := c + r;
    var l2 := l1 + h;
    var l3 := l2 + f;
    var l4 := l3 + v;
    LengthOrderedAppend(c, r);
    CrossAppendLeft(c, r, h);
    LengthOrderedAppend(l1, h);
    AtLeastAppend(c, r, 2);
    AtLeastAppend(l1, h, 2) by {
      forall j | 0 <= j < |h| ensures |h[j].0| >= 2 { }
    }
    CrossByLength(l2, f, 2);
    LengthOrderedAppend(l2, f);
    CrossByLength(l2, v, 2);
    CrossAppendLeft(l2, f, v);
    LengthOrderedAppend(l3, v);
    CrossByLength(l2, m, 2);
    CrossAppendLeft(l2, f, m);
    CrossAppendLeft(l3, v, m);
    LengthOrderedAppend(l4, m);
  }

  /** The ordering hazard of the table is absent: across all 143 rules, no
      pattern occurs inside a pattern listed after it. */
  lemma {:induction false} ReplacementsNoShadow()
    ensures NoShadow(Replacements)
  {
    PunctuationOrdered();
    LengthOrderedNoShadow(Punctuation);
    LettersOrdered();
    LengthOrderedNoShadow(Letters);
    PunctuationArePunctuationRules();
    LettersAreLetterRules();
    CrossPunctuationLetters(Punctuation, Letters);
    NoShadowAppend(Punctuation, Letters);
  }
}
