/** Facts about folding `str.replace` over an ordered rule list, independent of
    the particular table: how the fold splits, which characters a list of
    rules leaves alone, and when a list of one-character rules acts
    character by character. */
module RuleTables {
  import opened Wrappers
  import opened Text
  import opened FontConverter

  // ---------------------------------------------------------------------------
  // Splitting the fold
  // ---------------------------------------------------------------------------

  /** Running `a` and then `b` is running `a + b`. */
  lemma {:induction false} ApplyRulesAppend(a: Rules, b: Rules, s: string)
    ensures ApplyRules(a + b, s) == ApplyRules(b, ApplyRules(a, s))
    decreases |b|
  {
    if b == [] {
      assert a + b == a;
    } else {
      var b' := b[..|b| - 1];
      ApplyRulesAppend(a, b', s);
      assert (a + b)[..|a + b| - 1] == a + b';
    }
  }

  /** The fold seen from the front: the first rule runs first. */
  lemma {:induction false} ApplyRulesFront(rules: Rules, s: string)
    requires rules != []
    ensures ApplyRules(rules, s) == ApplyRules(rules[1..], ReplaceAll(s, rules[0].0, rules[0].1))
  {
    assert rules == [rules[0]] + rules[1..];
    ApplyRulesAppend([rules[0]], rules[1..], s);
    assert [rules[0]][..0] == [];
  }

  // ---------------------------------------------------------------------------
  // Rules that cannot fire
  // ---------------------------------------------------------------------------

  /** `p` certainly does not occur in `s`: it is longer, its first or its
      last character is missing from `s`, or it is not a block of `s`. */
  predicate Misses(p: string, s: string) {
    p != [] && (|p| > |s| || p[0] !in s || p[|p| - 1] !in s || !Contains(s, p))
  }

  lemma ReplaceMissing(s: string, p: string, r: string)
    requires Misses(p, s)
    ensures ReplaceAll(s, p, r) == s
  {
    if |p| <= |s| {
      if p[0] !in s {
        ReplaceWithoutOccurrence(s, p, r, p[0]);
      } else if p[|p| - 1] !in s {
        ReplaceWithoutOccurrence(s, p, r, p[|p| - 1]);
      } else {
        ReplaceNotContained(s, p, r);
      }
    }
  }

  /** No rule of the list can fire on `s`. */
  predicate Inert(rules: Rules, s: string) {
    forall j | 0 <= j < |rules| :: Misses(rules[j].0, s)
  }

  lemma {:induction false} ApplyInert(rules: Rules, s: string)
    requires Inert(rules, s)
    ensures ApplyRules(rules, s) == s
    decreases |rules|
  {
    if rules != [] {
      ApplyInert(rules[..|rules| - 1], s);
      ReplaceMissing(s, rules[|rules| - 1].0, rules[|rules| - 1].1);
    }
  }

  /** No pattern of the list is empty or holds `z`. */
  predicate Avoids(rules: Rules, z: char) {
    forall j | 0 <= j < |rules| :: rules[j].0 != [] && z !in rules[j].0
  }

  /** A character that no pattern holds is a boundary no rule reaches across:
      it stays at the end while the rules act on the text before it. */
  lemma {:induction false} ApplyBeforeForeign(rules: Rules, s: string, z: char)
    requires Avoids(rules, z)
    ensures ApplyRules(rules, s + [z]) == ApplyRules(rules, s) + [z]
    decreases |rules|
  {
    if rules != [] {
      var init := rules[..|rules| - 1];
      assert Avoids(init, z) by {
        forall j | 0 <= j < |init| ensures init[j].0 != [] && z !in init[j].0 {
          assert init[j] == rules[j];
        }
      }
      ApplyBeforeForeign(init, s, z);
      var last := rules[|rules| - 1];
      ReplaceBeforeForeign(ApplyRules(init, s), last.0, last.1, z);
    }
  }

  /** The rules of `a + b` avoid `z` when those of `a` and of `b` do. */
  lemma {:induction false} AvoidsAppend(a: Rules, b: Rules, z: char)
    requires Avoids(a, z) && Avoids(b, z)
    ensures Avoids(a + b, z)
  {
    forall j | 0 <= j < |a + b| ensures (a + b)[j].0 != [] && z !in (a + b)[j].0 {
      if j < |a| { assert (a + b)[j] == a[j]; } else { assert (a + b)[j] == b[j - |a|]; }
    }
  }

  /** The same boundary at the front: a leading character that no pattern
      holds stays first while the rules act on the text after it. */
  lemma {:induction false} ApplyAfterForeign(rules: Rules, s: string, z: char)
    requires Avoids(rules, z)
    ensures ApplyRules(rules, [z] + s) == [z] + ApplyRules(rules, s)
    decreases |rules|
  {
    if rules != [] {
      var init := rules[..|rules| - 1];
      assert Avoids(init, z) by {
        forall j | 0 <= j < |init| ensures init[j].0 != [] && z !in init[j].0 {
          assert init[j] == rules[j];
        }
      }
      ApplyAfterForeign(init, s, z);
      var last := rules[|rules| - 1];
      ReplaceAfterForeign(ApplyRules(init, s), last.0, last.1, z);
    }
  }

  /** Every pattern has two characters or more and holds `a` only right after
      `h`, and every glyph is non-empty and does not end in `h`. */
  predicate PairBoundary(rules: Rules, a: char, h: char) {
    forall j | 0 <= j < |rules| ::
      && |rules[j].0| >= 2 && OnlyAfter(rules[j].0, a, h)
      && rules[j].1 != [] && rules[j].1[|rules[j].1| - 1] != h
  }

  /** Rules of that shape never reach into a trailing pair `a h` from a text
      that does not end in `h`, and the text they produce does not end in `h`
      either. */
  lemma {:induction false} ApplyBeforePair(rules: Rules, s: string, a: char, h: char)
    requires PairBoundary(rules, a, h) && EndsOutside(s, h)
    ensures ApplyRules(rules, s + [a, h]) == ApplyRules(rules, s) + [a, h]
    ensures EndsOutside(ApplyRules(rules, s), h)
    decreases |rules|
  {
    if rules != [] {
      var init := rules[..|rules| - 1];
      var last := rules[|rules| - 1];
      assert PairBoundary(init, a, h) by {
        forall j | 0 <= j < |init|
          ensures |init[j].0| >= 2 && OnlyAfter(init[j].0, a, h)
          ensures init[j].1 != [] && init[j].1[|init[j].1| - 1] != h
        {
          assert init[j] == rules[j];
        }
      }
      ApplyBeforePair(init, s, a, h);
      ReplaceBeforePair(ApplyRules(init, s), last.0, last.1, a, h);
      ReplaceEndsOutside(ApplyRules(init, s), last.0, last.1, h);
    }
  }

  /** The rules before `k` cannot fire, so the result is that of rule `k`
      followed by the rules after it. */
  lemma {:induction false} ApplyFirstHit(rules: Rules, s: string, k: nat)
    requires k < |rules| && Inert(rules[..k], s)
    ensures ApplyRules(rules, s) == ApplyRules(rules[k + 1..], ReplaceAll(s, rules[k].0, rules[k].1))
  {
    assert rules == rules[..k] + rules[k..];
    ApplyRulesAppend(rules[..k], rules[k..], s);
    ApplyInert(rules[..k], s);
    ApplyRulesFront(rules[k..], s);
    assert rules[k..][1..] == rules[k + 1..];
  }

  // ---------------------------------------------------------------------------
  // Character accounting
  // ---------------------------------------------------------------------------

  /** No rule mentions `c`, in its pattern or in its glyph. */
  predicate Leaves(rules: Rules, c: char) {
    forall j | 0 <= j < |rules| :: c !in rules[j].0 && c !in rules[j].1
  }

  /** No rule emits `c`. */
  predicate NeverEmits(rules: Rules, c: char) {
    forall j | 0 <= j < |rules| :: c !in rules[j].1
  }

  /** A rule that mentions neither `c` in its pattern nor in its glyph keeps
      the number of `c`. */
  lemma ReplaceKeepsCount(s: string, p: string, r: string, c: char)
    requires c !in p && c !in r
    ensures Count(c, ReplaceAll(s, p, r)) == Count(c, s)
  {
    ReplaceCount(s, p, r, c);
    TimesZeroOne(Matches(s, p));
  }

  /** A rule whose glyph has no `c` never adds a `c`. */
  lemma ReplaceNoMore(s: string, p: string, r: string, c: char)
    requires c !in r
    ensures Count(c, ReplaceAll(s, p, r)) <= Count(c, s)
  {
    ReplaceCount(s, p, r, c);
    TimesZeroOne(Matches(s, p));
  }

  /** A one-character rule `d -> g`, counted for any character `c`. */
  lemma ReplaceCharCount(s: string, d: char, g: string, c: char)
    ensures Count(c, ReplaceAll(s, [d], g))
         == (if c == d then 0 else Count(c, s)) + Times(Count(d, s), Count(c, g))
  {
    ReplaceCount(s, [d], g, c);
    MatchesOneChar(s, d);
    TimesZeroOne(Count(d, s));
    assert Count(c, [d]) == if c == d then 1 else 0;
  }

  lemma {:induction false} ApplyLeavesCount(rules: Rules, s: string, c: char)
    requires Leaves(rules, c)
    ensures Count(c, ApplyRules(rules, s)) == Count(c, s)
    decreases |rules|
  {
    if rules != [] {
      ApplyLeavesCount(rules[..|rules| - 1], s, c);
      ReplaceKeepsCount(ApplyRules(rules[..|rules| - 1], s), rules[|rules| - 1].0, rules[|rules| - 1].1, c);
    }
  }

  /** A character that no rule emits, once absent, stays absent. */
  lemma {:induction false} ApplyKeepsAbsent(rules: Rules, s: string, c: char)
    requires NeverEmits(rules, c) && c !in s
    ensures c !in ApplyRules(rules, s)
    decreases |rules|
  {
    if rules != [] {
      var t := ApplyRules(rules[..|rules| - 1], s);
      ApplyKeepsAbsent(rules[..|rules| - 1], s, c);
      ReplaceNoMore(t, rules[|rules| - 1].0, rules[|rules| - 1].1, c);
      CountAbsent(c, t);
    }
  }

  /** Rule `k` rewrites every `d`, and no later rule emits `d`: the result has
      no `d`. */
  lemma {:induction false} ApplyErases(rules: Rules, s: string, k: nat, d: char)
    requires k < |rules| && rules[k].0 == [d] && d !in rules[k].1
    requires NeverEmits(rules[k + 1..], d)
    ensures d !in ApplyRules(rules, s)
  {
    assert rules == rules[..k + 1] + rules[k + 1..];
    ApplyRulesAppend(rules[..k + 1], rules[k + 1..], s);
    assert rules[..k + 1][..k] == rules[..k];
    var t := ApplyRules(rules[..k], s);
    ReplaceCharCount(t, d, rules[k].1, d);
    CountAbsent(d, rules[k].1);
    TimesZeroOne(Count(d, t));
    ApplyKeepsAbsent(rules[k + 1..], ReplaceAll(t, [d], rules[k].1), d);
  }

  /** A one-to-one rule `d -> e` whose two characters no other rule mentions:
      every `d` turns into `e`. */
  lemma {:induction false} ApplySoleRule(rules: Rules, s: string, k: nat, d: char, e: char)
    requires k < |rules| && rules[k] == ([d], [e]) && d != e
    requires Leaves(rules[..k], d) && Leaves(rules[..k], e)
    requires Leaves(rules[k + 1..], d) && Leaves(rules[k + 1..], e)
    ensures Count(d, ApplyRules(rules, s)) == 0
    ensures Count(e, ApplyRules(rules, s)) == Count(e, s) + Count(d, s)
  {
    assert rules == rules[..k + 1] + rules[k + 1..];
    ApplyRulesAppend(rules[..k + 1], rules[k + 1..], s);
    assert rules[..k + 1][..k] == rules[..k];
    var t := ApplyRules(rules[..k], s);
    ApplyLeavesCount(rules[..k], s, d);
    ApplyLeavesCount(rules[..k], s, e);
    ReplaceCharCount(t, d, [e], d);
    ReplaceCharCount(t, d, [e], e);
    TimesZeroOne(Count(d, t));
    var u := ReplaceAll(t, [d], [e]);
    ApplyLeavesCount(rules[k + 1..], u, d);
    ApplyLeavesCount(rules[k + 1..], u, e);
  }

  // ---------------------------------------------------------------------------
  // One-character rules act character by character
  // ---------------------------------------------------------------------------

  predicate SingleCharPatterns(rules: Rules) {
    forall j | 0 <= j < |rules| :: |rules[j].0| == 1
  }

  lemma {:induction false} ApplySingleCharAppend(rules: Rules, a: string, b: string)
    requires SingleCharPatterns(rules)
    ensures ApplyRules(rules, a + b) == ApplyRules(rules, a) + ApplyRules(rules, b)
    decreases |rules|
  {
    if rules != [] {
      var init := rules[..|rules| - 1];
      ApplySingleCharAppend(init, a, b);
      var last := rules[|rules| - 1];
      assert last.0 == [last.0[0]];
      ReplaceOneCharAppend(ApplyRules(init, a), ApplyRules(init, b), last.0[0], last.1);
    }
  }

  /** The image of `s` under one-character rules is the concatenation of the
      images of its characters. */
  function CharwiseImage(rules: Rules, s: string): string
    decreases |s|
  {
    if s == [] then [] else ApplyRules(rules, [s[0]]) + CharwiseImage(rules, s[1..])
  }

  lemma {:induction false} ApplySingleCharwise(rules: Rules, s: string)
    requires SingleCharPatterns(rules)
    ensures ApplyRules(rules, s) == CharwiseImage(rules, s)
    decreases |s|
  {
    if s == [] {
      ApplyInert(rules, s);
    } else {
      assert s == [s[0]] + s[1..];
      ApplySingleCharAppend(rules, [s[0]], s[1..]);
      ApplySingleCharwise(rules, s[1..]);
    }
  }

  // ---------------------------------------------------------------------------
  // One character through a list of one-character rules
  // ---------------------------------------------------------------------------

  /** The glyph of the first rule whose pattern is `x`, if there is one. */
  function FirstGlyph(rules: Rules, x: char): Option<string>
    decreases |rules|
  {
    if rules == [] then None
    else if rules[0].0 == [x] then Some(rules[0].1)
    else FirstGlyph(rules[1..], x)
  }

  /** No rule emits anything a later rule could match. */
  predicate NoFeed(rules: Rules) {
    forall k, j | 0 <= k < j < |rules| :: Misses(rules[j].0, rules[k].1)
  }

  /** Nothing a rule of `a` emits is matched by a rule of `b`. */
  predicate CrossNoFeed(a: Rules, b: Rules) {
    forall k, j | 0 <= k < |a| && 0 <= j < |b| :: Misses(b[j].0, a[k].1)
  }

  lemma NoFeedAppend(a: Rules, b: Rules)
    requires NoFeed(a) && NoFeed(b) && CrossNoFeed(a, b)
    ensures NoFeed(a + b)
  {
    forall k, j | 0 <= k < j < |a + b|
      ensures Misses((a + b)[j].0, (a + b)[k].1)
    {
      if j < |a| {
        assert (a + b)[j] == a[j] && (a + b)[k] == a[k];
      } else if k < |a| {
        assert (a + b)[j] == b[j - |a|] && (a + b)[k] == a[k];
      } else {
        assert (a + b)[j] == b[j - |a|] && (a + b)[k] == b[k - |a|];
      }
    }
  }

  /** Every character the rules of `a` emit lies in `glyphs`. */
  predicate GlyphsWithin(a: Rules, glyphs: set<char>) {
    forall k, i | 0 <= k < |a| && 0 <= i < |a[k].1| :: a[k].1[i] in glyphs
  }

  /** Every pattern of `b` is a single character outside `glyphs`. */
  predicate PatternsOutside(b: Rules, glyphs: set<char>) {
    forall j | 0 <= j < |b| :: |b[j].0| == 1 && b[j].0[0] !in glyphs
  }

  lemma GlyphsWithinAppend(a: Rules, b: Rules, glyphs: set<char>)
    requires GlyphsWithin(a, glyphs) && GlyphsWithin(b, glyphs)
    ensures GlyphsWithin(a + b, glyphs)
  {
    forall k, i | 0 <= k < |a + b| && 0 <= i < |(a + b)[k].1|
      ensures (a + b)[k].1[i] in glyphs
    {
      if k < |a| { assert (a + b)[k] == a[k]; } else { assert (a + b)[k] == b[k - |a|]; }
    }
  }

  lemma WidenGlyphs(a: Rules, glyphs: set<char>, wider: set<char>)
    requires GlyphsWithin(a, glyphs) && glyphs <= wider
    ensures GlyphsWithin(a, wider)
  {
  }

  lemma PatternsOutsideAppend(a: Rules, b: Rules, glyphs: set<char>)
    requires PatternsOutside(a, glyphs) && PatternsOutside(b, glyphs)
    ensures PatternsOutside(a + b, glyphs)
  {
    forall j | 0 <= j < |a + b|
      ensures |(a + b)[j].0| == 1 && (a + b)[j].0[0] !in glyphs
    {
      if j < |a| { assert (a + b)[j] == a[j]; } else { assert (a + b)[j] == b[j - |a|]; }
    }
  }

  lemma CrossByGlyphs(a: Rules, b: Rules, glyphs: set<char>)
    requires GlyphsWithin(a, glyphs) && PatternsOutside(b, glyphs)
    ensures CrossNoFeed(a, b)
  {
  }

  lemma {:induction false} FirstGlyphAppend(a: Rules, b: Rules, x: char)
    ensures FirstGlyph(a + b, x) == if FirstGlyph(a, x).Some? then FirstGlyph(a, x) else FirstGlyph(b, x)
    decreases |a|
  {
    if a == [] {
      assert a + b == b;
    } else {
      FirstGlyphAppend(a[1..], b, x);
      assert (a + b)[1..] == a[1..] + b;
    }
  }

  /** Rule `k` is the first rule for `x`. */
  lemma {:induction false} FirstGlyphAt(rules: Rules, x: char, k: nat)
    requires k < |rules| && rules[k].0 == [x]
    requires forall j | 0 <= j < k :: rules[j].0 != [x]
    ensures FirstGlyph(rules, x) == Some(rules[k].1)
    decreases k
  {
    if k > 0 {
      FirstGlyphAt(rules[1..], x, k - 1);
    }
  }

  /** No rule is for `x`. */
  lemma {:induction false} FirstGlyphNone(rules: Rules, x: char)
    requires forall j | 0 <= j < |rules| :: rules[j].0 != [x]
    ensures FirstGlyph(rules, x) == None
    decreases |rules|
  {
    if rules != [] {
      FirstGlyphNone(rules[1..], x);
    }
  }

  /** On a single character the fold of one-character rules that never feed
      each other gives the glyph of the first rule for that character, and
      leaves a character no rule is for alone. */
  lemma {:induction false} ApplyOneChar(rules: Rules, x: char)
    requires SingleCharPatterns(rules) && NoFeed(rules)
    ensures ApplyRules(rules, [x]) == FirstGlyph(rules, x).GetOr([x])
    decreases |rules|
  {
    if rules != [] {
      ApplyRulesFront(rules, [x]);
      var r := rules[0];
      var rest := rules[1..];
      assert r.0 == [r.0[0]];
      ReplaceOneCharStep([x], r.0[0], r.1);
      assert [x][1..] == [] && ReplaceAll([], r.0, r.1) == [];
      if r.0 == [x] {
        assert Inert(rest, r.1) by {
          forall j | 0 <= j < |rest|
            ensures Misses(rest[j].0, r.1)
          {
            assert rest[j] == rules[j + 1];
          }
        }
        assert ReplaceAll([x], r.0, r.1) == r.1;
        ApplyInert(rest, r.1);
      } else {
        assert NoFeed(rest) by {
          forall k, j | 0 <= k < j < |rest|
            ensures Misses(rest[j].0, rest[k].1)
          {
            assert rest[j] == rules[j + 1] && rest[k] == rules[k + 1];
          }
        }
        assert ReplaceAll([x], r.0, r.1) == [x];
        assert SingleCharPatterns(rest) by {
          forall j | 0 <= j < |rest| ensures |rest[j].0| == 1 {
            assert rest[j] == rules[j + 1];
          }
        }
        ApplyOneChar(rest, x);
      }
    }
  }
}
