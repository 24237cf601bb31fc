/** What `unicode_to_krutidev` (core/font_converter.py) guarantees about its
    output: the reordering passes, the fate of the punctuation and digits, and
    the characters that can never survive. */
module KrutidevProperties {
  import opened Wrappers
  import opened Text
  import opened FontConverter
  import opened RuleTables
  import opened KrutidevTable

  // ---------------------------------------------------------------------------
  // The two reordering passes
  // ---------------------------------------------------------------------------

  /** Without र the reph pass changes nothing. */
  lemma {:induction false} RephPassWithoutRa(s: string)
    requires Ra !in s
    ensures RephPass(s) == s
    decreases |s|
  {
    if s != [] {
      RephPassWithoutRa(s[1..]);
      RephSkipStep(s);
      assert s == [s[0]] + s[1..];
    }
  }

  /** Without ि the short-i pass changes nothing. */
  lemma {:induction false} ShortIPassWithoutSign(s: string)
    requires ChhotiEe !in s
    ensures ShortIPass(s) == s
    decreases |s|
  {
    if s != [] {
      ShortIPassWithoutSign(s[1..]);
      ShortISkipStep(s);
      assert s == [s[0]] + s[1..];
    }
  }

  /** The greedy `{matras}?{anusvara}?` takes exactly `t` from `t + rest`. */
  lemma TailLenOfTail(t: string, rest: string)
    requires IsTailOf(t, rest)
    ensures TailLen(t + rest) == |t|
  {
    var u := t + rest;
    if |t| >= 1 { assert u[0] == t[0]; }
    if |t| == 2 { assert u[1] == t[1]; }
    if |t| == 1 && rest != [] { assert u[1] == rest[0]; }
    if t == [] { assert u == rest; }
  }

  lemma DropPrefix(s: string, a: string, b: string)
    requires s == a + b
    ensures s[|a|..] == b
  {
  }

  /** After `र्`, the cluster match covers exactly `cl`. */
  lemma RephClusterAt(s: string, cl: string, u: string)
    requires s == [Ra, Halant] + (cl + u) && IsCluster(cl) && ClusterStops(u)
    ensures RephAt(s) && ClusterLen(s[2..]) == |cl| && s[2 + |cl|..] == u
  {
    DropPrefix(s, [Ra, Halant], cl + u);
    ClusterLenOfCluster(cl, u);
    DropPrefix(cl + u, cl, u);
    assert s[2 + |cl|..] == s[2..][|cl|..];
  }

  lemma Regroup4(a: string, b: string, c: string, d: string)
    ensures a + b + c + d == a + (b + (c + d))
  {
  }

  lemma SlicesOf4(s: string, a: string, b: string, c: string, d: string)
    requires s == a + (b + (c + d))
    ensures s[|a|..|a| + |b| + |c|] == b + c && s[|a| + |b| + |c|..] == d
  {
    assert s == (a + (b + c)) + d;
  }

  /** The reph match ends after the cluster and the tail the scanner takes. */
  lemma RephEndIs(s: string, n: nat, m: nat)
    requires RephAt(s) && ClusterLen(s[2..]) == n && 2 + n <= |s| && TailLen(s[2 + n..]) == m
    ensures RephEnd(s) == 2 + n + m
  {
  }

  /** The reph match in front of a cluster and a tail ends after the tail. */
  lemma RephMatchAt(s: string, cl: string, tail: string, rest: string)
    requires s == [Ra, Halant] + cl + tail + rest
    requires IsCluster(cl) && IsTailOf(tail, rest) && ClusterStops(tail + rest)
    ensures RephAt(s) && RephEnd(s) == 2 + |cl| + |tail|
    ensures s[2..RephEnd(s)] == cl + tail && s[RephEnd(s)..] == rest
  {
    Regroup4([Ra, Halant], cl, tail, rest);
    RephClusterAt(s, cl, tail + rest);
    TailLenOfTail(tail, rest);
    RephEndIs(s, |cl|, |tail|);
    SlicesOf4(s, [Ra, Halant], cl, tail, rest);
  }

  /** The short-i match of a cluster followed by ि ends after the sign. */
  lemma ShortIMatchAt(s: string, cl: string, rest: string)
    requires s == cl + ([ChhotiEe] + rest) && IsCluster(cl)
    ensures ShortIAt(s) && ShortIEnd(s) == |cl| + 1
  {
    ClusterLenOfCluster(cl, [ChhotiEe] + rest);
  }
  lemma SlicesOf3(s: string, a: string, b: string, c: string)
    requires s == a + (b + c)
    ensures s[..|a|] == a && s[|a|..|a| + |b|] == b && s[|a| + |b|..] == c
    ensures a + b + c == s
  {
    assert s == (a + b) + c;
  }

  /** Short-i relocation: a cluster followed by ि becomes ि followed by the
      cluster, and the scan goes on after the sign. */
  lemma ShortIRelocation(cl: string, rest: string)
    requires IsCluster(cl)
    ensures ShortIPass(cl + [ChhotiEe] + rest) == [ChhotiEe] + cl + ShortIPass(rest)
  {
    var s := cl + ([ChhotiEe] + rest);
    ShortIMatchAt(s, cl, rest);
    SlicesOf3(s, cl, [ChhotiEe], rest);
    ShortIMatchStep(s);
  }

  /** Reph relocation: `र्` in front of a cluster, an optional matra and an
      optional anusvara is moved behind them, and the scan goes on after them. */
  lemma RephRelocation(cl: string, tail: string, rest: string)
    requires IsCluster(cl) && IsTailOf(tail, rest) && ClusterStops(tail + rest)
    ensures RephPass([Ra, Halant] + cl + tail + rest) == cl + tail + [Ra, Halant] + RephPass(rest)
  {
    var s := [Ra, Halant] + cl + tail + rest;
    RephMatchAt(s, cl, tail, rest);
    RephMatchStep(s);
  }

  /** The passes only reorder, so every character keeps its number. */
  lemma PassesKeepCounts(s: string, c: char)
    ensures Count(c, ShortIPass(RephPass(s))) == Count(c, s)
  {
    RephPassKeepsCharacters(s);
    ShortIPassKeepsCharacters(RephPass(s));
  }

  // ---------------------------------------------------------------------------
  // The conversion in stages, and what each stage leaves alone
  // ---------------------------------------------------------------------------

  /** The text after the quote and bracket groups. */
  function AfterBrackets(s: string): string {
    ApplyRules(RogueQuotes + Brackets, ShortIPass(RephPass(s)))
  }

  /** The text after the fallback group. */
  function AfterFallback(s: string): string {
    ApplyRules(FallbackPunctuation, AfterBrackets(s))
  }

  /** The text after the sign and digit groups: all punctuation is done. */
  function AfterDigits(s: string): string {
    ApplyRules(Digits, ApplyRules(Signs, AfterFallback(s)))
  }

  /** A non-empty text goes through the passes, the five punctuation groups
      and then the letter groups. */
  lemma ConversionStages(s: string)
    requires s != []
    ensures Krutidev(Some(s)) == ApplyRules(Letters, AfterDigits(s))
  {
    var t0 := ShortIPass(RephPass(s));
    TableStages(t0);
    PunctuationStages(t0);
  }

  /** Every character the quote and bracket rules read or write. */
  predicate IsQuoteOrBracket(c: char) {
    c == '"' || c == '\'' || c == '(' || c == ')' || c == '[' || c == ']' || c == '{' || c == '}'
    || c == '‘' || c == '’' || c == '“' || c == '”' || c == '¼' || c == '½' || c == '^' || c == '*'
    || c == 'Þ' || c == 'ß'
  }

  /** Every character the sign rules read or write. */
  predicate IsSignChar(c: char) {
    c == '।' || c == ':' || c == '-' || c == 'A' || c == '%'
  }

  predicate IsAsciiDigit(c: char) {
    '0' <= c <= '9'
  }

  predicate IsDevanagariDigit(c: char) {
    DigitLo <= c <= DigitHi
  }

  lemma QuotesLeave(c: char)
    requires !IsQuoteOrBracket(c)
    ensures Leaves(RogueQuotes, c)
  {
  }

  lemma Brackets1Leave(c: char)
    requires !IsQuoteOrBracket(c)
    ensures Leaves(Brackets1, c)
  {
  }

  lemma Brackets2Leave(c: char)
    requires !IsQuoteOrBracket(c)
    ensures Leaves(Brackets2, c)
  {
  }

  lemma {:induction false} LeavesAppend(a: Rules, b: Rules, c: char)
    requires Leaves(a, c) && Leaves(b, c)
    ensures Leaves(a + b, c)
  {
    forall j | 0 <= j < |a + b| ensures c !in (a + b)[j].0 && c !in (a + b)[j].1 {
      AppendAt(a, b, j);
    }
  }

  /** The passes and the quote and bracket groups keep the number of every
      other character. */
  lemma {:induction false} QuotesBracketsKeepCount(s: string, c: char)
    requires !IsQuoteOrBracket(c)
    ensures Count(c, AfterBrackets(s)) == Count(c, s)
  {
    QuotesLeave(c);
    Brackets1Leave(c);
    Brackets2Leave(c);
    LeavesAppend(Brackets1, Brackets2, c);
    LeavesAppend(RogueQuotes, Brackets, c);
    PassesKeepCounts(s, c);
    ApplyLeavesCount(RogueQuotes + Brackets, ShortIPass(RephPass(s)), c);
  }

  lemma SignsLeave(c: char)
    requires !IsSignChar(c)
    ensures Leaves(Signs, c)
  {
  }

  lemma FallbackLeaveDigit(c: char)
    requires IsDevanagariDigit(c) || IsAsciiDigit(c)
    ensures Leaves(FallbackPunctuation, c)
  {
  }

  lemma Digits1Leave(c: char)
    requires !IsDevanagariDigit(c) && !IsAsciiDigit(c)
    ensures Leaves(Digits1, c)
  {
  }

  lemma Digits2Leave(c: char)
    requires !IsDevanagariDigit(c) && !IsAsciiDigit(c)
    ensures Leaves(Digits2, c)
  {
  }

  /** The sign and digit groups keep the number of a character they do not
      mention. */
  lemma {:induction false} SignsDigitsKeepCount(u: string, c: char)
    requires !IsSignChar(c) && !IsDevanagariDigit(c) && !IsAsciiDigit(c)
    ensures Count(c, ApplyRules(Digits, ApplyRules(Signs, u))) == Count(c, u)
  {
    SignsLeave(c);
    ApplyLeavesCount(Signs, u, c);
    Digits1Leave(c);
    Digits2Leave(c);
    LeavesAppend(Digits1, Digits2, c);
    ApplyLeavesCount(Digits, ApplyRules(Signs, u), c);
  }

  /** The letter groups keep the number of a character outside the letter
      range that is not a legacy key. */
  lemma {:induction false} LettersKeepCount(s: string, c: char)
    requires s != [] && !InLetterRange(c) && !IsLegacyKey(c)
    ensures Count(c, Krutidev(Some(s))) == Count(c, AfterDigits(s))
  {
    ConversionStages(s);
    LettersAreLetterRules();
    LetterRulesLeave(Letters, c);
    ApplyLeavesCount(Letters, AfterDigits(s), c);
  }

  /** The letter groups never bring back a character that is not a legacy
      key. */
  lemma {:induction false} LettersKeepAbsent(s: string, c: char)
    requires s != [] && !IsLegacyKey(c) && c !in AfterDigits(s)
    ensures c !in Krutidev(Some(s))
  {
    ConversionStages(s);
    LettersAreLetterRules();
    LetterRulesNeverEmit(Letters, c);
    ApplyKeepsAbsent(Letters, AfterDigits(s), c);
  }

  // ---------------------------------------------------------------------------
  // The fallback characters
  // ---------------------------------------------------------------------------

  /** The fallback group turns every `/` into U+2215. */
  lemma {:induction false} FallbackSlashCounts(u: string)
    ensures Count('/', ApplyRules(FallbackPunctuation, u)) == 0
    ensures Count('\U{2215}', ApplyRules(FallbackPunctuation, u)) == Count('/', u) + Count('\U{2215}', u)
  {
    FallbackSteps(u);
    var v1 := ReplaceAll(u, ".", "\U{2024}");
    var v2 := ReplaceAll(v1, "\U{0970}", "\U{2024}");
    ReplaceKeepsCount(u, ".", "\U{2024}", '/');
    ReplaceKeepsCount(u, ".", "\U{2024}", '\U{2215}');
    ReplaceKeepsCount(v1, "\U{0970}", "\U{2024}", '/');
    ReplaceKeepsCount(v1, "\U{0970}", "\U{2024}", '\U{2215}');
    ReplaceCharCount(v2, '/', "\U{2215}", '/');
    ReplaceCharCount(v2, '/', "\U{2215}", '\U{2215}');
    TimesZeroOne(Count('/', v2));
  }

  /** A character no quote, bracket, sign or digit rule mentions is changed
      only by the fallback group. */
  lemma {:induction false} OnlyFallbackCounts(s: string, c: char)
    requires !IsQuoteOrBracket(c) && !IsSignChar(c) && !IsDevanagariDigit(c) && !IsAsciiDigit(c)
    ensures Count(c, AfterBrackets(s)) == Count(c, s)
    ensures Count(c, AfterDigits(s)) == Count(c, AfterFallback(s))
  {
    QuotesBracketsKeepCount(s, c);
    SignsDigitsKeepCount(AfterFallback(s), c);
  }

  /** Once the punctuation is done no `/` is left: each became U+2215. */
  lemma {:induction false} PunctuationSlashCounts(s: string)
    ensures Count('/', AfterDigits(s)) == 0
    ensures Count('\U{2215}', AfterDigits(s)) == Count('/', s) + Count('\U{2215}', s)
  {
    OnlyFallbackCounts(s, '/');
    OnlyFallbackCounts(s, '\U{2215}');
    FallbackSlashCounts(AfterBrackets(s));
  }

  /** The output never contains `/`: each input `/` becomes U+2215. */
  lemma {:induction false} SlashBecomesDivisionSlash(s: string)
    ensures Count('/', Krutidev(Some(s))) == 0
    ensures Count('\U{2215}', Krutidev(Some(s))) == Count('/', s) + Count('\U{2215}', s)
  {
    if s != [] {
      PunctuationSlashCounts(s);
      LettersKeepCount(s, '/');
      LettersKeepCount(s, '\U{2215}');
    }
  }

  /** The fallback group turns every `.` and `॰` into U+2024 and keeps ण. */
  lemma {:induction false} FallbackDotCounts(u: string)
    ensures Count('\U{2024}', ApplyRules(FallbackPunctuation, u))
         == Count('.', u) + Count('\U{0970}', u) + Count('\U{2024}', u)
    ensures Count('.', ApplyRules(FallbackPunctuation, u)) == 0
    ensures Count('\U{0923}', ApplyRules(FallbackPunctuation, u)) == Count('\U{0923}', u)
  {
    FallbackSteps(u);
    var v1 := ReplaceAll(u, ".", "\U{2024}");
    var v2 := ReplaceAll(v1, "\U{0970}", "\U{2024}");
    ReplaceCharCount(u, '.', "\U{2024}", '.');
    ReplaceCharCount(u, '.', "\U{2024}", '\U{0970}');
    ReplaceCharCount(u, '.', "\U{2024}", '\U{2024}');
    ReplaceCharCount(u, '.', "\U{2024}", '\U{0923}');
    ReplaceCharCount(v1, '\U{0970}', "\U{2024}", '.');
    ReplaceCharCount(v1, '\U{0970}', "\U{2024}", '\U{2024}');
    ReplaceCharCount(v1, '\U{0970}', "\U{2024}", '\U{0923}');
    TimesZeroOne(Count('.', u));
    TimesZeroOne(Count('\U{0970}', v1));
    ReplaceKeepsCount(v2, "/", "\U{2215}", '.');
    ReplaceKeepsCount(v2, "/", "\U{2215}", '\U{2024}');
    ReplaceKeepsCount(v2, "/", "\U{2215}", '\U{0923}');
  }

  /** Once the punctuation is done every `.` and `॰` is U+2024. */
  lemma {:induction false} PunctuationDotCounts(s: string)
    ensures Count('\U{2024}', AfterDigits(s)) == Count('.', s) + Count('\U{0970}', s) + Count('\U{2024}', s)
  {
    OnlyFallbackCounts(s, '.');
    OnlyFallbackCounts(s, '\U{0970}');
    OnlyFallbackCounts(s, '\U{2024}');
    FallbackDotCounts(AfterBrackets(s));
  }

  /** Every input `.` and `॰` becomes U+2024. */
  lemma {:induction false} DotsBecomeDotLeader(s: string)
    ensures Count('\U{2024}', Krutidev(Some(s)))
         == Count('.', s) + Count('\U{0970}', s) + Count('\U{2024}', s)
  {
    if s != [] {
      PunctuationDotCounts(s);
      LettersKeepCount(s, '\U{2024}');
    }
  }

  /** Letter rules add no `.` to text without ण, and keep it without ण. */
  lemma {:induction false} LetterRulesKeepDotAbsent(rules: Rules, t: string)
    requires LetterRules(rules) && '.' !in t && '\U{0923}' !in t
    ensures '.' !in ApplyRules(rules, t) && '\U{0923}' !in ApplyRules(rules, t)
    decreases |rules|
  {
    if rules != [] {
      var init := rules[..|rules| - 1];
      var last := rules[|rules| - 1];
      assert LetterRules(init);
      LetterRulesKeepDotAbsent(init, t);
      var u := ApplyRules(init, t);
      assert LetterRule(last);
      CountAbsent('.', u);
      CountAbsent('\U{0923}', u);
      ReplaceNoMore(u, last.0, last.1, '\U{0923}');
      if '.' in last.1 {
        ReplaceWithoutOccurrence(u, last.0, last.1, '\U{0923}');
      } else {
        ReplaceNoMore(u, last.0, last.1, '.');
      }
    }
  }

  /** Without ण, no `.` and no ण is left once the punctuation is done. */
  lemma {:induction false} PunctuationWithoutNa(s: string)
    requires '\U{0923}' !in s
    ensures '.' !in AfterDigits(s) && '\U{0923}' !in AfterDigits(s)
  {
    CountAbsent('\U{0923}', s);
    OnlyFallbackCounts(s, '.');
    OnlyFallbackCounts(s, '\U{0923}');
    FallbackDotCounts(AfterBrackets(s));
  }

  /** A `.` in the output can only come from a rule for ण: text without ण
      comes out without `.`. */
  lemma {:induction false} DotOnlyFromNa(s: string)
    requires '\U{0923}' !in s
    ensures '.' !in Krutidev(Some(s))
  {
    if s != [] {
      PunctuationWithoutNa(s);
      ConversionStages(s);
      LettersAreLetterRules();
      LetterRulesKeepDotAbsent(Letters, AfterDigits(s));
    }
  }

  // ---------------------------------------------------------------------------
  // Digits
  // ---------------------------------------------------------------------------

  function DevanagariDigit(k: nat): char
    requires k < 10
  {
    ('\U{0966}' as int + k) as char
  }

  function AsciiDigit(k: nat): char
    requires k < 10
  {
    ('0' as int + k) as char
  }

  lemma Digits1Shape()
    ensures forall j | 0 <= j < 5 :: Digits1[j] == ([DevanagariDigit(j)], [AsciiDigit(j)])
  {
  }

  lemma Digits2Shape()
    ensures forall j | 0 <= j < 5 :: Digits2[j] == ([DevanagariDigit(j + 5)], [AsciiDigit(j + 5)])
  {
  }

  /** Rule `k` of the digit group maps digit `k` to its ASCII digit. */
  lemma {:induction false} DigitsShape()
    ensures |Digits| == 10
    ensures forall j | 0 <= j < 10 :: Digits[j] == ([DevanagariDigit(j)], [AsciiDigit(j)])
  {
    Digits1Shape();
    Digits2Shape();
    forall j | 0 <= j < 10 ensures Digits[j] == ([DevanagariDigit(j)], [AsciiDigit(j)]) {
      AppendAt(Digits1, Digits2, j);
    }
  }

  /** The digit rules other than rule `k` leave digit `k` and its ASCII
      digit alone. */
  lemma {:induction false} OtherDigitsLeave(k: nat)
    requires k < 10
    ensures Leaves(Digits[..k], DevanagariDigit(k)) && Leaves(Digits[..k], AsciiDigit(k))
    ensures Leaves(Digits[k + 1..], DevanagariDigit(k)) && Leaves(Digits[k + 1..], AsciiDigit(k))
  {
    DigitsShape();
    var pre, post := Digits[..k], Digits[k + 1..];
    forall j | 0 <= j < |pre|
      ensures DevanagariDigit(k) !in pre[j].0 && DevanagariDigit(k) !in pre[j].1
      ensures AsciiDigit(k) !in pre[j].0 && AsciiDigit(k) !in pre[j].1
    {
      assert pre[j] == Digits[j];
    }
    forall j | 0 <= j < |post|
      ensures DevanagariDigit(k) !in post[j].0 && DevanagariDigit(k) !in post[j].1
      ensures AsciiDigit(k) !in post[j].0 && AsciiDigit(k) !in post[j].1
    {
      assert post[j] == Digits[k + 1 + j];
    }
  }

  /** The groups before the digit group keep the number of every digit. */
  lemma {:induction false} BeforeDigitsKeepCount(s: string, c: char)
    requires IsDevanagariDigit(c) || IsAsciiDigit(c)
    ensures Count(c, ApplyRules(Signs, AfterFallback(s))) == Count(c, s)
  {
    QuotesBracketsKeepCount(s, c);
    FallbackLeaveDigit(c);
    ApplyLeavesCount(FallbackPunctuation, AfterBrackets(s), c);
    SignsLeave(c);
    ApplyLeavesCount(Signs, AfterFallback(s), c);
  }

  /** Once the punctuation is done, digit `k` has become its ASCII digit. */
  lemma {:induction false} PunctuationDigitCounts(s: string, k: nat)
    requires k < 10
    ensures Count(DevanagariDigit(k), AfterDigits(s)) == 0
    ensures Count(AsciiDigit(k), AfterDigits(s)) == Count(AsciiDigit(k), s) + Count(DevanagariDigit(k), s)
  {
    var d, a := DevanagariDigit(k), AsciiDigit(k);
    BeforeDigitsKeepCount(s, d);
    BeforeDigitsKeepCount(s, a);
    DigitsShape();
    OtherDigitsLeave(k);
    ApplySoleRule(Digits, ApplyRules(Signs, AfterFallback(s)), k, d, a);
  }

  /** Each Devanagari digit becomes the ASCII digit of the same value. */
  lemma {:induction false} DigitsBecomeAscii(s: string, k: nat)
    requires k < 10
    ensures Count(DevanagariDigit(k), Krutidev(Some(s))) == 0
    ensures Count(AsciiDigit(k), Krutidev(Some(s))) == Count(AsciiDigit(k), s) + Count(DevanagariDigit(k), s)
  {
    if s != [] {
      PunctuationDigitCounts(s, k);
      LettersKeepCount(s, DevanagariDigit(k));
      LettersKeepCount(s, AsciiDigit(k));
    }
  }

  /** No Devanagari digit survives. */
  lemma DevanagariDigitsNeverSurvive(s: string, c: char)
    requires IsDevanagariDigit(c)
    ensures c !in Krutidev(Some(s))
  {
    var k := c as int - DigitLo as int;
    assert DevanagariDigit(k) == c;
    DigitsBecomeAscii(s, k);
  }

  // ---------------------------------------------------------------------------
  // Characters that never survive
  // ---------------------------------------------------------------------------

  /** A letter rule for `d` erases it for good: the rules after it are letter
      rules too, and they never emit Devanagari. */
  lemma {:induction false} LetterRuleErases(rules: Rules, t: string, k: nat, d: char)
    requires LetterRules(rules) && k < |rules| && rules[k].0 == [d] && IsDevanagari(d)
    ensures d !in ApplyRules(rules, t)
  {
    assert LetterRule(rules[k]);
    var post := rules[k + 1..];
    assert LetterRules(post) by {
      forall j | 0 <= j < |post| ensures LetterRule(post[j]) {
        assert post[j] == rules[k + 1 + j];
      }
    }
    LetterRulesNeverEmit(post, d);
    ApplyErases(rules, t, k, d);
  }

  /** A vowel-sign rule for `d` erases it from the output of the letter
      groups, since the vowel signs come last. */
  lemma {:induction false} MatraErases(t: string, k: nat, d: char)
    requires k < |Matras| && Matras[k].0 == [d] && IsDevanagari(d)
    ensures d !in ApplyRules(Letters, t)
  {
    LetterStages(t);
    MatrasFacts();
    LetterRuleErases(Matras, ApplyRules(Vowels, ApplyRules(FullConsonants,
      ApplyRules(HalfConsonants, ApplyRules(RModifiers, ApplyRules(SpecialConjuncts, t))))), k, d);
  }

  lemma MatrasHalantAndShortI()
    ensures |Matras| == 17 && Matras[16].0 == [Halant] && Matras[3].0 == [ChhotiEe]
  {
  }

  /** The halant never survives: rule `् -> ~` is the last of the table. */
  lemma {:induction false} HalantNeverSurvives(s: string)
    ensures Halant !in Krutidev(Some(s))
  {
    if s != [] {
      ConversionStages(s);
      MatrasHalantAndShortI();
      MatraErases(AfterDigits(s), 16, Halant);
    }
  }

  /** The short-i sign never survives: the pass has put it before its
      cluster and rule `ि -> f` rewrites it. */
  lemma {:induction false} ShortISignNeverSurvives(s: string)
    ensures ChhotiEe !in Krutidev(Some(s))
  {
    if s != [] {
      ConversionStages(s);
      MatrasHalantAndShortI();
      MatraErases(AfterDigits(s), 3, ChhotiEe);
    }
  }

  /** Once the punctuation is done no danda is left: it became `A`. */
  lemma {:induction false} PunctuationErasesDanda(s: string)
    ensures '\U{0964}' !in AfterDigits(s)
  {
    assert NeverEmits(Signs[1..], '\U{0964}');
    ApplyErases(Signs, AfterFallback(s), 0, '\U{0964}');
    assert NeverEmits(Digits, '\U{0964}') by {
      DigitsShape();
    }
    ApplyKeepsAbsent(Digits, ApplyRules(Signs, AfterFallback(s)), '\U{0964}');
  }

  /** The danda never survives: it becomes `A`, and neither the digit rules
      nor the letter rules bring it back. */
  lemma {:induction false} DandaNeverSurvives(s: string)
    ensures '\U{0964}' !in Krutidev(Some(s))
  {
    if s != [] {
      PunctuationErasesDanda(s);
      LettersKeepAbsent(s, '\U{0964}');
    }
  }

  // ---------------------------------------------------------------------------
  // Text without Devanagari (font_converter.py:34-49)
  // ---------------------------------------------------------------------------

  /** What the punctuation entries make of one character outside the Devanagari
      block: straight quotes vanish, brackets become the legacy font's
      bracket keys, curly quotes its quote keys, and `.`, `/`, `:` become
      U+2024, U+2215 and `%`. Every other such character is kept. */
  function AsciiGlyph(c: char): string {
    if c == '"' || c == '\'' then []
    else if c == '(' || c == '[' || c == '{' then "\U{00BC}"
    else if c == ')' || c == ']' || c == '}' then "\U{00BD}"
    else if c == '\U{2018}' then "^"
    else if c == '\U{2019}' then "*"
    else if c == '\U{201C}' then "\U{00DE}"
    else if c == '\U{201D}' then "\U{00DF}"
    else if c == '.' then "\U{2024}"
    else if c == '/' then "\U{2215}"
    else if c == ':' then "%"
    else [c]
  }

  /** The image of a string, character by character, under `AsciiGlyph`. */
  function AsciiImage(s: string): string
    decreases |s|
  {
    if s == [] then [] else AsciiGlyph(s[0]) + AsciiImage(s[1..])
  }

  lemma QuotesGlyph(x: char)
    ensures FirstGlyph(RogueQuotes, x) == if x == '"' || x == '\'' then Some([]) else None
  {
    if x == '"' { FirstGlyphAt(RogueQuotes, x, 0); }
    else if x == '\'' { FirstGlyphAt(RogueQuotes, x, 1); }
    else { FirstGlyphNone(RogueQuotes, x); }
  }

  lemma Brackets1Glyph(x: char)
    ensures FirstGlyph(Brackets1, x) ==
      if x == '(' || x == '[' || x == '{' then Some("\U{00BC}")
      else if x == ')' || x == ']' || x == '}' then Some("\U{00BD}")
      else None
  {
    if x == '(' { FirstGlyphAt(Brackets1, x, 0); }
    else if x == ')' { FirstGlyphAt(Brackets1, x, 1); }
    else if x == '[' { FirstGlyphAt(Brackets1, x, 2); }
    else if x == ']' { FirstGlyphAt(Brackets1, x, 3); }
    else if x == '{' { FirstGlyphAt(Brackets1, x, 4); }
    else if x == '}' { FirstGlyphAt(Brackets1, x, 5); }
    else { FirstGlyphNone(Brackets1, x); }
  }

  lemma Brackets2Glyph(x: char)
    ensures FirstGlyph(Brackets2, x) ==
      if x == '\U{2018}' then Some("^") else if x == '\U{2019}' then Some("*")
      else if x == '\U{201C}' then Some("\U{00DE}") else if x == '\U{201D}' then Some("\U{00DF}")
      else None
  {
    if x == '\U{2018}' { FirstGlyphAt(Brackets2, x, 0); }
    else if x == '\U{2019}' { FirstGlyphAt(Brackets2, x, 1); }
    else if x == '\U{201C}' { FirstGlyphAt(Brackets2, x, 2); }
    else if x == '\U{201D}' { FirstGlyphAt(Brackets2, x, 3); }
    else { FirstGlyphNone(Brackets2, x); }
  }

  lemma FallbackGlyph(x: char)
    requires !IsDevanagari(x)
    ensures FirstGlyph(FallbackPunctuation, x) ==
      if x == '.' then Some("\U{2024}") else if x == '/' then Some("\U{2215}") else None
  {
    if x == '.' { FirstGlyphAt(FallbackPunctuation, x, 0); }
    else if x == '/' { FirstGlyphAt(FallbackPunctuation, x, 2); }
    else { FirstGlyphNone(FallbackPunctuation, x); }
  }

  lemma SignsGlyph(x: char)
    requires !IsDevanagari(x)
    ensures FirstGlyph(Signs, x) == if x == ':' then Some("%") else if x == '-' then Some("-") else None
  {
    if x == ':' { FirstGlyphAt(Signs, x, 1); }
    else if x == '-' { FirstGlyphAt(Signs, x, 2); }
    else { FirstGlyphNone(Signs, x); }
  }

  lemma DigitsGlyph(x: char)
    requires !IsDevanagari(x)
    ensures FirstGlyph(Digits, x) == None
  {
    FirstGlyphNone(Digits1, x);
    FirstGlyphNone(Digits2, x);
    FirstGlyphAppend(Digits1, Digits2, x);
  }

  /** The first punctuation entry for a character outside the Devanagari
      block gives exactly `AsciiGlyph`. */
  lemma PunctuationGlyph(x: char)
    requires !IsDevanagari(x)
    ensures FirstGlyph(Punctuation, x).GetOr([x]) == AsciiGlyph(x)
  {
    QuotesGlyph(x); Brackets1Glyph(x); Brackets2Glyph(x); FallbackGlyph(x); SignsGlyph(x); DigitsGlyph(x);
    FirstGlyphAppend(Brackets1, Brackets2, x);
    FirstGlyphAppend(RogueQuotes, Brackets, x);
    FirstGlyphAppend(RogueQuotes + Brackets, FallbackPunctuation, x);
    FirstGlyphAppend(RogueQuotes + Brackets + FallbackPunctuation, Signs, x);
    FirstGlyphAppend(RogueQuotes + Brackets + FallbackPunctuation + Signs, Digits, x);
  }

  /** The glyphs of the quote, bracket and fallback entries. */
  const EarlyGlyphs: set<char> :=
    {'\U{00BC}', '\U{00BD}', '^', '*', '\U{00DE}', '\U{00DF}', '\U{2024}', '\U{2215}'}

  /** The facts about single groups that the ordering argument below glues. */
  lemma QuotesNoFeed() ensures NoFeed(RogueQuotes) { }
  lemma Brackets1NoFeed() ensures NoFeed(Brackets1) { }
  lemma Brackets2NoFeed() ensures NoFeed(Brackets2) { }
  lemma FallbackNoFeed() ensures NoFeed(FallbackPunctuation) { }
  lemma SignsNoFeed() ensures NoFeed(Signs) { }
  lemma Digits1NoFeed() ensures NoFeed(Digits1) { }
  lemma Digits2NoFeed() ensures NoFeed(Digits2) { }
  lemma BracketsCross() ensures CrossNoFeed(Brackets1, Brackets2) { }
  lemma DigitsCross() ensures CrossNoFeed(Digits1, Digits2) { }
  lemma QuotesEmitNothing() ensures GlyphsWithin(RogueQuotes, {}) { }
  lemma BracketPatterns() ensures PatternsOutside(Brackets1, {}) && PatternsOutside(Brackets2, {}) { }
  lemma EarlyGroupsGlyphs()
    ensures GlyphsWithin(RogueQuotes, EarlyGlyphs) && GlyphsWithin(Brackets1, EarlyGlyphs)
    ensures GlyphsWithin(Brackets2, EarlyGlyphs) && GlyphsWithin(FallbackPunctuation, EarlyGlyphs)
  { }
  lemma MiddleGroupsPatterns()
    ensures PatternsOutside(FallbackPunctuation, EarlyGlyphs) && PatternsOutside(Signs, EarlyGlyphs)
  { }
  lemma SignsGlyphs() ensures GlyphsWithin(Signs, EarlyGlyphs + {'A', '%', '-'}) { }
  lemma DigitsPatterns()
    ensures PatternsOutside(Digits1, EarlyGlyphs + {'A', '%', '-'})
    ensures PatternsOutside(Digits2, EarlyGlyphs + {'A', '%', '-'})
  { }

  /** No punctuation entry emits anything a later punctuation entry matches. */
  lemma PunctuationNoFeed()
    ensures NoFeed(Punctuation)
  {
    var q, b, f, g, d := RogueQuotes, Brackets, FallbackPunctuation, Signs, Digits;
    var wide := EarlyGlyphs + {'A', '%', '-'};
    QuotesNoFeed(); Brackets1NoFeed(); Brackets2NoFeed(); FallbackNoFeed(); SignsNoFeed();
    Digits1NoFeed(); Digits2NoFeed(); BracketsCross(); DigitsCross();
    NoFeedAppend(Brackets1, Brackets2);
    NoFeedAppend(Digits1, Digits2);
    QuotesEmitNothing(); BracketPatterns();
    PatternsOutsideAppend(Brackets1, Brackets2, {});
    CrossByGlyphs(q, b, {});
    NoFeedAppend(q, b);
    EarlyGroupsGlyphs(); MiddleGroupsPatterns();
    GlyphsWithinAppend(Brackets1, Brackets2, EarlyGlyphs);
    GlyphsWithinAppend(q, b, EarlyGlyphs);
    CrossByGlyphs(q + b, f, EarlyGlyphs);
    NoFeedAppend(q + b, f);
    GlyphsWithinAppend(q + b, f, EarlyGlyphs);
    CrossByGlyphs(q + b + f, g, EarlyGlyphs);
    NoFeedAppend(q + b + f, g);
    SignsGlyphs(); DigitsPatterns();
    WidenGlyphs(q + b + f, EarlyGlyphs, wide);
    GlyphsWithinAppend(q + b + f, g, wide);
    PatternsOutsideAppend(Digits1, Digits2, wide);
    CrossByGlyphs(q + b + f + g, d, wide);
    NoFeedAppend(q + b + f + g, d);
  }

  /** For text with no Devanagari character the whole conversion is
      `AsciiImage`: the reordering passes find nothing, the punctuation
      entries act character by character, and no letter entry can fire. */
  lemma {:induction false} NonDevanagariText(s: string)
    requires DevanagariFree(s)
    ensures Krutidev(Some(s)) == AsciiImage(s)
  {
    if s != [] {
      assert Ra !in s && ChhotiEe !in s;
      RephPassWithoutRa(s);
      ShortIPassWithoutSign(s);
      TableStages(s);
      PunctuationArePunctuationRules();
      assert SingleCharPatterns(Punctuation);
      PunctuationNoFeed();
      ApplySingleCharwise(Punctuation, s);
      PunctuationImage(s);
      AsciiImageFree(s);
      LettersAreLetterRules();
      LetterRulesInert(Letters, AsciiImage(s));
      ApplyInert(Letters, AsciiImage(s));
    }
  }

  lemma {:induction false} PunctuationImage(s: string)
    requires DevanagariFree(s) && SingleCharPatterns(Punctuation) && NoFeed(Punctuation)
    ensures CharwiseImage(Punctuation, s) == AsciiImage(s)
    decreases |s|
  {
    if s != [] {
      ApplyOneChar(Punctuation, s[0]);
      PunctuationGlyph(s[0]);
      PunctuationImage(s[1..]);
    }
  }

  lemma {:induction false} AsciiImageFree(s: string)
    requires DevanagariFree(s)
    ensures DevanagariFree(AsciiImage(s))
    decreases |s|
  {
    if s != [] {
      AsciiImageFree(s[1..]);
    }
  }

  // ---------------------------------------------------------------------------
  // Where the relocated reph and short-i sign end up in the output
  // ---------------------------------------------------------------------------

  /** The characters a syllable is made of: consonants, the halant, the vowel
      signs and the anusvara. */
  predicate IsSyllableChar(c: char) {
    IsConsonant(c) || c == Halant || IsMatra(c) || IsAnusvara(c)
  }

  predicate SyllableText(s: string) {
    forall k | 0 <= k < |s| :: IsSyllableChar(s[k])
  }

  /** `र`, if the cluster holds it at all, is its last consonant: the cluster
      carries no reph of its own for the reph pass to move. */
  predicate RaOnlyLast(cl: string) {
    forall k | 0 <= k < |cl| - 1 :: cl[k] != Ra
  }

  /** A cluster is made of consonants and halants and ends in a consonant. */
  lemma {:induction false} ClusterChars(cl: string)
    requires IsCluster(cl)
    ensures forall k | 0 <= k < |cl| :: IsConsonant(cl[k]) || cl[k] == Halant
    ensures IsConsonant(cl[|cl| - 1])
    decreases |cl|
  {
    if |cl| > 1 {
      ClusterChars(cl[2..]);
      assert cl[|cl| - 1] == cl[2..][|cl| - 3];
      forall k | 2 <= k < |cl| ensures IsConsonant(cl[k]) || cl[k] == Halant {
        assert cl[k] == cl[2..][k - 2];
      }
    }
  }

  /** Where no `र` is followed by the halant, the reph pass changes nothing. */
  lemma {:induction false} RephPassWithoutReph(s: string)
    requires forall k | 0 <= k < |s| - 1 :: s[k] == Ra ==> s[k + 1] != Halant
    ensures RephPass(s) == s
    decreases |s|
  {
    if s != [] {
      var t := s[1..];
      assert forall k | 0 <= k < |t| - 1 :: t[k] == Ra ==> t[k + 1] != Halant by {
        forall k | 0 <= k < |t| - 1 ensures t[k] == Ra ==> t[k + 1] != Halant {
          assert t[k] == s[k + 1] && t[k + 1] == s[k + 2];
        }
      }
      RephPassWithoutReph(t);
      RephSkipStep(s);
      assert s == [s[0]] + t;
    }
  }

  /** No pattern of the list is empty or starts with a syllable character. */
  predicate NoSyllableHead(rules: Rules) {
    forall j | 0 <= j < |rules| :: rules[j].0 != [] && !IsSyllableChar(rules[j].0[0])
  }

  lemma PunctuationNoSyllableHead()
    ensures NoSyllableHead(Punctuation)
  {
  }

  /** The punctuation rules cannot fire on syllable characters. */
  lemma PunctuationInertOnSyllables(s: string)
    requires SyllableText(s)
    ensures Inert(Punctuation, s)
  {
    PunctuationNoSyllableHead();
    forall j | 0 <= j < |Punctuation| ensures Misses(Punctuation[j].0, s) {
      var c := Punctuation[j].0[0];
      assert c !in s by {
        forall k | 0 <= k < |s| ensures s[k] != c { assert IsSyllableChar(s[k]); }
      }
    }
  }

  /** Letter patterns never hold a character outside the letter range. */
  lemma {:induction false} LetterRulesAvoid(rules: Rules, z: char)
    requires LetterRules(rules) && !InLetterRange(z)
    ensures Avoids(rules, z)
  {
    forall j | 0 <= j < |rules| ensures rules[j].0 != [] && z !in rules[j].0 {
      assert LetterRule(rules[j]);
    }
  }

  // The short-i sign

  lemma ConjunctsAvoidShortI() ensures Avoids(SpecialConjuncts, ChhotiEe) { }
  lemma RModifiersAvoidShortI() ensures Avoids(RModifiers, ChhotiEe) { }
  lemma HalfAvoidShortI() ensures Avoids(HalfConsonants, ChhotiEe) { }
  lemma EarlyMatrasAvoidShortI() ensures Avoids(Matras[..3], ChhotiEe) { }

  /** Only the matra entry of line 89 holds ि: the one-character rules of the
      punctuation, full consonant and vowel groups lie elsewhere. */
  lemma {:induction false} SinglesAvoidShortI()
    ensures Avoids(Punctuation, ChhotiEe)
    ensures Avoids(FullConsonants, ChhotiEe) && Avoids(Vowels, ChhotiEe)
  {
    PunctuationArePunctuationRules();
    FullConsonantsFacts();
    VowelsFacts();
    forall j | 0 <= j < |Punctuation| ensures Punctuation[j].0 != [] && ChhotiEe !in Punctuation[j].0 {
      assert PunctuationRule(Punctuation[j]);
      assert Punctuation[j].0 == [Punctuation[j].0[0]];
    }
    forall j | 0 <= j < |FullConsonants| ensures FullConsonants[j].0 != [] && ChhotiEe !in FullConsonants[j].0 {
      assert FullConsonants[j].0 == [FullConsonants[j].0[0]];
    }
    forall j | 0 <= j < |Vowels| ensures Vowels[j].0 != [] && ChhotiEe !in Vowels[j].0 {
      assert Vowels[j].0 == [Vowels[j].0[0]];
    }
  }

  /** The matra rules on ि followed by any text: the entry of line 89 turns
      the leading sign into `f`, and no later entry holds `f`. */
  lemma MatrasAfterShortI(w: string)
    ensures ApplyRules(Matras, [ChhotiEe] + w) == "f" + ApplyRules(Matras, w)
  {
    var head, tail := Matras[..3], Matras[3..];
    assert Matras == head + tail;
    ApplyRulesAppend(head, tail, [ChhotiEe] + w);
    ApplyRulesAppend(head, tail, w);
    EarlyMatrasAvoidShortI();
    ApplyAfterForeign(head, w, ChhotiEe);
    var w1 := ApplyRules(head, w);
    assert tail[0] == ([ChhotiEe], "f");
    ApplyRulesFront(tail, [ChhotiEe] + w1);
    ApplyRulesFront(tail, w1);
    ReplaceMatchStep([ChhotiEe] + w1, [ChhotiEe], "f");
    assert ([ChhotiEe] + w1)[1..] == w1;
    MatrasFacts();
    var rest := tail[1..];
    assert LetterRules(rest) by {
      forall j | 0 <= j < |rest| ensures LetterRule(rest[j]) { assert rest[j] == Matras[j + 4]; }
    }
    LetterRulesAvoid(rest, 'f');
    ApplyAfterForeign(rest, ReplaceAll(w1, [ChhotiEe], "f"), 'f');
  }

  /** The letter groups on ि followed by any text: the sign passes every
      group before the matras untouched and then becomes `f`. */
  lemma LettersAfterShortI(v: string)
    ensures ApplyRules(Letters, [ChhotiEe] + v) == "f" + ApplyRules(Letters, v)
  {
    LetterStages([ChhotiEe] + v);
    LetterStages(v);
    ConjunctsAvoidShortI();
    RModifiersAvoidShortI();
    HalfAvoidShortI();
    SinglesAvoidShortI();
    var v1 := ApplyRules(SpecialConjuncts, v);
    var v2 := ApplyRules(RModifiers, v1);
    var v3 := ApplyRules(HalfConsonants, v2);
    var v4 := ApplyRules(FullConsonants, v3);
    var v5 := ApplyRules(Vowels, v4);
    ApplyAfterForeign(SpecialConjuncts, v, ChhotiEe);
    ApplyAfterForeign(RModifiers, v1, ChhotiEe);
    ApplyAfterForeign(HalfConsonants, v2, ChhotiEe);
    ApplyAfterForeign(FullConsonants, v3, ChhotiEe);
    ApplyAfterForeign(Vowels, v4, ChhotiEe);
    MatrasAfterShortI(v5);
  }

  /** The whole table on ि followed by any text is `f` followed by the table
      on the text. */
  lemma TableAfterShortI(u: string)
    ensures ApplyRules(Replacements, [ChhotiEe] + u) == "f" + ApplyRules(Replacements, u)
  {
    TableStages([ChhotiEe] + u);
    TableStages(u);
    SinglesAvoidShortI();
    ApplyAfterForeign(Punctuation, u, ChhotiEe);
    LettersAfterShortI(ApplyRules(Punctuation, u));
  }

  /** A cluster followed by ि: the reph pass leaves it, and the short-i pass
      puts the sign in front. Without the sign both passes leave the cluster. */
  lemma ShortIPassesCluster(cl: string)
    requires IsCluster(cl) && RaOnlyLast(cl)
    ensures ShortIPass(RephPass(cl + [ChhotiEe])) == [ChhotiEe] + cl
    ensures ShortIPass(RephPass(cl)) == cl
  {
    ClusterChars(cl);
    var s := cl + [ChhotiEe];
    assert forall k | 0 <= k < |s| - 1 :: s[k] == Ra ==> s[k + 1] != Halant by {
      forall k | 0 <= k < |s| - 1 ensures s[k] == Ra ==> s[k + 1] != Halant {
        assert s[k] == cl[k];
        if k < |cl| - 1 { assert s[k + 1] == cl[k + 1]; }
      }
    }
    RephPassWithoutReph(s);
    assert forall k | 0 <= k < |cl| - 1 :: cl[k] == Ra ==> cl[k + 1] != Halant;
    RephPassWithoutReph(cl);
    ShortIRelocation(cl, []);
    assert cl + [ChhotiEe] + [] == s;
    assert ShortIPass([]) == [];
    assert ChhotiEe !in cl;
    ShortIPassWithoutSign(cl);
  }

  /** Short-i placement: a cluster followed by ि comes out as `f`, the legacy
      key typed first, followed by the cluster's glyphs, half forms included. */
  lemma ShortIPlacement(cl: string)
    requires IsCluster(cl) && RaOnlyLast(cl)
    ensures Krutidev(Some(cl + [ChhotiEe])) == "f" + Krutidev(Some(cl))
  {
    ShortIPassesCluster(cl);
    TableAfterShortI(cl);
  }

  // The reph

  lemma ConjunctsPairBoundary() ensures PairBoundary(SpecialConjuncts, Ra, Halant) { }

  /** The R-modifier rules on any text followed by `र्`: the reph rule turns
      the trailing pair into `Z`, and the subscript-r rule cannot reach it. */
  lemma RModifiersBeforeReph(y: string)
    ensures ApplyRules(RModifiers, y + [Ra, Halant]) == ApplyRules(RModifiers, y) + "Z"
  {
    var r := RModifiers;
    ApplyRulesFront(r, y + [Ra, Halant]);
    ApplyRulesFront(r, y);
    assert r[0] == ([Ra, Halant], "Z");
    var rest := r[1..];
    assert rest[..0] == [] && rest[1..] == [];
    ReplacePairAtEnd(y, Ra, Halant, "Z");
    ReplaceBeforeForeign(ReplaceAll(y, [Ra, Halant], "Z"), rest[0].0, rest[0].1, 'Z');
  }

  /** The groups from the half forms on leave a trailing `Z` alone. */
  lemma LateGroupsKeepZ(u: string)
    ensures ApplyRules(Matras, ApplyRules(Vowels, ApplyRules(FullConsonants, ApplyRules(HalfConsonants, u + "Z"))))
         == ApplyRules(Matras, ApplyRules(Vowels, ApplyRules(FullConsonants, ApplyRules(HalfConsonants, u)))) + "Z"
  {
    HalfConsonantsFacts();
    FullConsonantsFacts();
    VowelsFacts();
    MatrasFacts();
    LetterRulesAvoid(HalfConsonants, 'Z');
    LetterRulesAvoid(FullConsonants, 'Z');
    LetterRulesAvoid(Vowels, 'Z');
    LetterRulesAvoid(Matras, 'Z');
    var u1 := ApplyRules(HalfConsonants, u);
    var u2 := ApplyRules(FullConsonants, u1);
    ApplyBeforeForeign(HalfConsonants, u, 'Z');
    ApplyBeforeForeign(FullConsonants, u1, 'Z');
    ApplyBeforeForeign(Vowels, u2, 'Z');
    ApplyBeforeForeign(Matras, ApplyRules(Vowels, u2), 'Z');
  }

  /** The letter groups on a text not ending in the halant, followed by `र्`:
      no conjunct reaches into the pair, the reph rule turns it into `Z`, and
      no later rule reaches across `Z`. */
  lemma LettersBeforeReph(x: string)
    requires EndsOutside(x, Halant)
    ensures ApplyRules(Letters, x + [Ra, Halant]) == ApplyRules(Letters, x) + "Z"
  {
    LetterStages(x + [Ra, Halant]);
    LetterStages(x);
    ConjunctsPairBoundary();
    ApplyBeforePair(SpecialConjuncts, x, Ra, Halant);
    var y := ApplyRules(SpecialConjuncts, x);
    RModifiersBeforeReph(y);
    LateGroupsKeepZ(ApplyRules(RModifiers, y));
  }

  /** The whole table on syllable text not ending in the halant, followed by
      `र्`, is the table on the text followed by `Z`. */
  lemma TableBeforeReph(x: string)
    requires SyllableText(x) && EndsOutside(x, Halant)
    ensures ApplyRules(Replacements, x + [Ra, Halant]) == ApplyRules(Replacements, x) + "Z"
  {
    var t := x + [Ra, Halant];
    assert SyllableText(t) by {
      forall k | 0 <= k < |t| ensures IsSyllableChar(t[k]) {
        if k < |x| { assert t[k] == x[k]; }
      }
    }
    TableStages(t);
    TableStages(x);
    PunctuationInertOnSyllables(t);
    PunctuationInertOnSyllables(x);
    ApplyInert(Punctuation, t);
    ApplyInert(Punctuation, x);
    LettersBeforeReph(x);
  }

  /** The short-i pass on a cluster, ि and whatever follows that holds no
      other ि: the sign moves in front of the cluster. */
  lemma ShortIFront(cl: string, after: string)
    requires IsCluster(cl) && ChhotiEe !in after
    ensures ShortIPass(cl + [ChhotiEe] + after) == [ChhotiEe] + cl + after
  {
    ShortIRelocation(cl, after);
    ShortIPassWithoutSign(after);
  }

  /** The same for a tail beginning with ि and any text without ि after it. */
  lemma ShortIFrontTail(cl: string, tail: string, suffix: string)
    requires IsCluster(cl) && IsTailOf(tail, []) && tail != [] && tail[0] == ChhotiEe
    requires ChhotiEe !in suffix
    ensures ShortIPass(cl + tail + suffix) == [ChhotiEe] + cl + tail[1..] + suffix
  {
    var after := tail[1..] + suffix;
    SignTailRest(tail, suffix);
    SignTailSplit(cl, tail, suffix);
    ShortIFront(cl, after);
  }

  /** After the ि that opens a tail comes at most an anusvara. */
  lemma SignTailRest(tail: string, suffix: string)
    requires IsTailOf(tail, []) && tail != [] && tail[0] == ChhotiEe
    requires ChhotiEe !in suffix
    ensures ChhotiEe !in tail[1..] + suffix
  {
    if |tail| == 2 { assert tail[1..] + suffix == [tail[1]] + suffix; }
    else { assert tail[1..] + suffix == suffix; }
  }

  /** Regrouping the text around that ि. */
  lemma SignTailSplit(cl: string, tail: string, suffix: string)
    requires tail != [] && tail[0] == ChhotiEe
    ensures cl + tail + suffix == cl + [ChhotiEe] + (tail[1..] + suffix)
    ensures [ChhotiEe] + cl + (tail[1..] + suffix) == [ChhotiEe] + cl + tail[1..] + suffix
  {
    assert tail == [ChhotiEe] + tail[1..];
  }

  /** The same with and without `र्` after the tail. */
  lemma ShortIBeforeRephWithSign(cl: string, tail: string)
    requires IsCluster(cl) && IsTailOf(tail, []) && tail != [] && tail[0] == ChhotiEe
    ensures ShortIPass(cl + tail + [Ra, Halant]) == [ChhotiEe] + cl + tail[1..] + [Ra, Halant]
    ensures ShortIPass(cl + tail) == [ChhotiEe] + cl + tail[1..]
  {
    ShortIFrontTail(cl, tail, [Ra, Halant]);
    ShortIFrontTail(cl, tail, []);
    assert cl + tail + [] == cl + tail;
    assert [ChhotiEe] + cl + tail[1..] + [] == [ChhotiEe] + cl + tail[1..];
  }

  /** The short-i pass on a cluster and a tail without ि, with and without
      `र्` after them: nothing moves. */
  lemma ShortIBeforeRephWithoutSign(cl: string, tail: string)
    requires IsCluster(cl) && IsTailOf(tail, []) && (tail != [] ==> tail[0] != ChhotiEe)
    ensures ShortIPass(cl + tail + [Ra, Halant]) == cl + tail + [Ra, Halant]
    ensures ShortIPass(cl + tail) == cl + tail
  {
    ClusterChars(cl);
    var s := cl + tail + [Ra, Halant];
    assert ChhotiEe !in s by {
      forall k | 0 <= k < |s| ensures s[k] != ChhotiEe {
        if k < |cl| { assert s[k] == cl[k]; }
        else if k < |cl| + |tail| { assert s[k] == tail[k - |cl|]; }
      }
    }
    assert cl + tail == s[..|cl| + |tail|];
    ShortIPassWithoutSign(s);
    ShortIPassWithoutSign(cl + tail);
  }

  /** The short-i pass on a cluster and a tail: with ि the sign moves in front
      of the cluster, otherwise nothing moves; a trailing `र्` stays where it is. */
  lemma ShortIBeforeReph(cl: string, tail: string)
    requires IsCluster(cl) && IsTailOf(tail, [])
    ensures ShortIPass(cl + tail + [Ra, Halant]) == ShortIPass(cl + tail) + [Ra, Halant]
    ensures ShortIPass(cl + tail)
         == if tail != [] && tail[0] == ChhotiEe then [ChhotiEe] + cl + tail[1..] else cl + tail
  {
    if tail != [] && tail[0] == ChhotiEe {
      ShortIBeforeRephWithSign(cl, tail);
    } else {
      ShortIBeforeRephWithoutSign(cl, tail);
    }
  }

  /** `र्` in front of a cluster and a tail: the reph pass moves it behind
      them, and the short-i pass treats the rest as it would without it. */
  lemma RephPassesCluster(cl: string, tail: string)
    requires IsCluster(cl) && RaOnlyLast(cl) && IsTailOf(tail, [])
    ensures ShortIPass(RephPass([Ra, Halant] + cl + tail)) == ShortIPass(cl + tail) + [Ra, Halant]
    ensures ShortIPass(RephPass(cl + tail)) == ShortIPass(cl + tail)
  {
    ClusterChars(cl);
    assert ClusterStops(tail + []);
    RephRelocation(cl, tail, []);
    assert [Ra, Halant] + cl + tail + [] == [Ra, Halant] + cl + tail;
    assert RephPass([]) == [];
    var s := cl + tail;
    assert forall k | 0 <= k < |s| - 1 :: s[k] == Ra ==> s[k + 1] != Halant by {
      forall k | 0 <= k < |s| - 1 ensures s[k] == Ra ==> s[k + 1] != Halant {
        if k < |cl| - 1 { assert s[k] == cl[k]; }
        else if k == |cl| - 1 { assert s[k + 1] == tail[0]; }
        else { assert s[k] == tail[k - |cl|]; }
      }
    }
    RephPassWithoutReph(s);
    assert cl + tail + [Ra, Halant] + [] == cl + tail + [Ra, Halant];
    ShortIBeforeReph(cl, tail);
  }

  /** A cluster followed by a tail is syllable text that does not end in the halant. */
  lemma ClusterTailShape(cl: string, tail: string)
    requires IsCluster(cl) && IsTailOf(tail, [])
    ensures SyllableText(cl + tail) && EndsOutside(cl + tail, Halant)
  {
    ClusterChars(cl);
    var x := cl + tail;
    forall k | 0 <= k < |x| ensures IsSyllableChar(x[k]) {
      if k < |cl| { assert x[k] == cl[k]; } else { assert x[k] == tail[k - |cl|]; }
    }
    if tail == [] { assert x[|x| - 1] == cl[|cl| - 1]; } else { assert x[|x| - 1] == tail[|tail| - 1]; }
  }

  /** So is ि followed by a cluster and at most an anusvara. */
  lemma SignClusterShape(cl: string, rest: string)
    requires IsCluster(cl) && |rest| <= 1 && (rest == [] || IsAnusvara(rest[0]))
    ensures SyllableText([ChhotiEe] + cl + rest) && EndsOutside([ChhotiEe] + cl + rest, Halant)
  {
    ClusterTailShape(cl, rest);
    var x := [ChhotiEe] + cl + rest;
    assert x == [ChhotiEe] + (cl + rest);
    forall k | 0 <= k < |x| ensures IsSyllableChar(x[k]) {
      if k > 0 { assert x[k] == (cl + rest)[k - 1]; }
    }
    assert x[|x| - 1] == (cl + rest)[|cl + rest| - 1];
  }

  /** What the passes make of a cluster and a tail is syllable text that ends
      in a consonant or a sign, never in the halant. */
  lemma PassedShape(cl: string, tail: string)
    requires IsCluster(cl) && IsTailOf(tail, [])
    ensures SyllableText(ShortIPass(cl + tail)) && EndsOutside(ShortIPass(cl + tail), Halant)
  {
    ShortIBeforeReph(cl, tail);
    if tail != [] && tail[0] == ChhotiEe {
      SignClusterShape(cl, tail[1..]);
    } else {
      ClusterTailShape(cl, tail);
    }
  }

  /** Reph placement: `र्` in front of a cluster, an optional vowel sign and an
      optional anusvara comes out as the glyphs of cluster and signs followed
      by `Z`, the legacy key typed last. */
  lemma RephPlacement(cl: string, tail: string)
    requires IsCluster(cl) && RaOnlyLast(cl) && IsTailOf(tail, [])
    ensures Krutidev(Some([Ra, Halant] + cl + tail)) == Krutidev(Some(cl + tail)) + "Z"
  {
    var x := ShortIPass(cl + tail);
    RephPassesCluster(cl, tail);
    PassedShape(cl, tail);
    TableBeforeReph(x);
    assert Krutidev(Some([Ra, Halant] + cl + tail)) == ApplyRules(Replacements, x + [Ra, Halant]);
    assert Krutidev(Some(cl + tail)) == ApplyRules(Replacements, x);
  }

  /** Both together, as in `र्थि`: `f` first, then the cluster's glyphs, then `Z`. */
  lemma RephOverShortI(cl: string)
    requires IsCluster(cl) && RaOnlyLast(cl)
    ensures Krutidev(Some([Ra, Halant] + cl + [ChhotiEe])) == "f" + Krutidev(Some(cl)) + "Z"
  {
    RephPlacement(cl, [ChhotiEe]);
    ShortIPlacement(cl);
  }
}
