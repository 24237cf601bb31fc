/** The handful of Python `str` operations the source relies on, on strings
    modelled as sequences of Unicode code points: `str.replace`, `in`,
    `str.strip`, `str.split`, `str.join` and `str.count` of one character. */
module Text {

  /** Number of occurrences of the character `c` in `s` (Python `s.count(c)`). */
  function Count(c: char, s: string): nat {
    multiset(s)[c]
  }

  /** Python's `str.isspace` for one character: the characters `str.strip()`
      removes and the regular expression class `\s` matches. */
  predicate IsSpace(c: char) {
    ('\t' <= c <= '\r') || ('\U{001C}' <= c <= '\U{001F}') || c == ' ' ||
    c == '\U{0085}' || c == '\U{00A0}' || c == '\U{1680}' ||
    ('\U{2000}' <= c <= '\U{200A}') || c == '\U{2028}' || c == '\U{2029}' ||
    c == '\U{202F}' || c == '\U{205F}' || c == '\U{3000}'
  }

  predicate AllSpace(s: string) {
    forall i | 0 <= i < |s| :: IsSpace(s[i])
  }

  /** The number of whitespace characters at the front of `s`. */
  function LeadingSpace(s: string): (n: nat)
    ensures n <= |s| && AllSpace(s[..n]) && (n == |s| || !IsSpace(s[n]))
    decreases |s|
  {
    if s != [] && IsSpace(s[0]) then
      var n := 1 + LeadingSpace(s[1..]);
      assert s[..n] == [s[0]] + s[1..][..n - 1];
      n
    else 0
  }

  /** The number of whitespace characters at the end of `s`. */
  function TrailingSpace(s: string): (n: nat)
    ensures n <= |s| && AllSpace(s[|s| - n..]) && (n == |s| || !IsSpace(s[|s| - n - 1]))
    decreases |s|
  {
    if s != [] && IsSpace(s[|s| - 1]) then
      var n := 1 + TrailingSpace(s[..|s| - 1]);
      assert s[|s| - n..] == s[..|s| - 1][|s| - n..] + [s[|s| - 1]];
      n
    else 0
  }

  /** `s.lstrip()`. */
  function StripLeft(s: string): string {
    s[LeadingSpace(s)..]
  }

  /** `s.rstrip()`. */
  function StripRight(s: string): string {
    s[..|s| - TrailingSpace(s)]
  }

  /** `r` sits in `s` at offset `i` with nothing but whitespace around it. */
  predicate StrippedAt(s: string, r: string, i: int) {
    0 <= i <= |s| - |r| && s[i..i + |r|] == r && AllSpace(s[..i]) && AllSpace(s[i + |r|..])
  }

  /** Where the middle part `s[i..][..|s| - i - j]` sits in `s`. */
  lemma MiddleSlice<T>(s: seq<T>, i: nat, j: nat)
    requires i + j <= |s|
    ensures var l := s[i..]; var r := l[..|l| - j];
      && |r| == |s| - i - j && s[i..i + |r|] == r && s[i + |r|..] == l[|l| - j..]
      && (r != [] ==> r[0] == s[i] && r[|r| - 1] == l[|l| - j - 1])
  {
  }

  /** The middle part of `s` between `i` leading and `j` trailing whitespace
      characters is what `strip` returns. */
  lemma {:induction false} StripParts(s: string, i: nat, j: nat)
    requires i + j <= |s|
    requires AllSpace(s[..i]) && (i == |s| || !IsSpace(s[i]))
    requires var l := s[i..]; AllSpace(l[|l| - j..]) && (j == |l| || !IsSpace(l[|l| - j - 1]))
    ensures StrippedAt(s, s[i..][..|s| - i - j], i)
    ensures var r := s[i..][..|s| - i - j]; r == [] || (!IsSpace(r[0]) && !IsSpace(r[|r| - 1]))
  {
    MiddleSlice(s, i, j);
  }

  /** `s.strip()`: `s` without its leading and trailing whitespace. */
  function Strip(s: string): (r: string)
    ensures exists i :: StrippedAt(s, r, i)
    ensures r == [] || (!IsSpace(r[0]) && !IsSpace(r[|r| - 1]))
  {
    var i := LeadingSpace(s);
    var j := TrailingSpace(s[i..]);
    StripParts(s, i, j);
    s[i..][..|s| - i - j]
  }

  lemma {:induction false} StripOfStripped(s: string)
    requires s == [] || (!IsSpace(s[0]) && !IsSpace(s[|s| - 1]))
    ensures Strip(s) == s
  {
  }

  /** `s.startswith(p)`. */
  predicate StartsWith(s: string, p: string) {
    |p| <= |s| && s[..|p|] == p
  }

  /** Python's `p in s` for strings: `p` occurs in `s` as a contiguous block. */
  predicate Contains(s: string, p: string)
    decreases |s|
  {
    StartsWith(s, p) || (s != [] && Contains(s[1..], p))
  }

  /** `p` occurs in `s` at some offset: the reference reading of `p in s`. */
  ghost predicate OccursAt(s: string, p: string, k: int) {
    0 <= k && k + |p| <= |s| && s[k..k + |p|] == p
  }

  lemma {:induction false} ContainsIffOccurs(s: string, p: string)
    ensures Contains(s, p) <==> exists k :: OccursAt(s, p, k)
    decreases |s|
  {
    if StartsWith(s, p) {
      assert OccursAt(s, p, 0);
    } else if s == [] {
    } else {
      ContainsIffOccurs(s[1..], p);
      if Contains(s[1..], p) {
        var k :| OccursAt(s[1..], p, k);
        assert s[k + 1..k + 1 + |p|] == s[1..][k..k + |p|];
        assert OccursAt(s, p, k + 1);
      }
      if exists k :: OccursAt(s, p, k) {
        var k :| OccursAt(s, p, k);
        assert k != 0;
        assert s[1..][k - 1..k - 1 + |p|] == s[k..k + |p|];
        assert OccursAt(s[1..], p, k - 1);
      }
    }
  }

  /** A one-character pattern occurs exactly when the character does. */
  lemma {:induction false} ContainsChar(s: string, c: char)
    ensures Contains(s, [c]) <==> c in s
    decreases |s|
  {
    if s != [] {
      ContainsChar(s[1..], c);
      assert s == [s[0]] + s[1..];
    }
  }

  /** Python's `s.replace(p, r)`: every occurrence of `p`, found leftmost first
      and without overlap, is replaced by `r`; the replacement text is not
      searched again. An empty `p` puts `r` before every character and at the end. */
  function ReplaceAll(s: string, p: string, r: string): string
    decreases |s|
  {
    if p == [] then
      if s == [] then r else r + [s[0]] + ReplaceAll(s[1..], p, r)
    else if |s| < |p| then s
    else if s[..|p|] == p then r + ReplaceAll(s[|p|..], p, r)
    else [s[0]] + ReplaceAll(s[1..], p, r)
  }

  /** The number of replacements `s.replace(p, r)` makes (`s.count(p)` in Python). */
  function Matches(s: string, p: string): nat
    decreases |s|
  {
    if p == [] then |s| + 1
    else if |s| < |p| then 0
    else if s[..|p|] == p then 1 + Matches(s[|p|..], p)
    else Matches(s[1..], p)
  }

  /** `m * k` written as repeated addition, which keeps the accounting lemma
      below free of nonlinear arithmetic. */
  function Times(m: nat, k: nat): nat {
    if m == 0 then 0 else k + Times(m - 1, k)
  }

  lemma {:induction false} TimesZeroOne(m: nat)
    ensures Times(m, 0) == 0 && Times(m, 1) == m
  {
    if m > 0 { TimesZeroOne(m - 1); }
  }

  /** Character accounting for `str.replace`: each of the replacements
      removes the characters of `p` and adds those of `r`. */
  lemma {:induction false} ReplaceCount(s: string, p: string, r: string, c: char)
    ensures Count(c, ReplaceAll(s, p, r)) + Times(Matches(s, p), Count(c, p))
         == Count(c, s) + Times(Matches(s, p), Count(c, r))
    decreases |s|, 1
  {
    if p == [] {
      if s != [] { ReplaceCountInsert(s, r, c); }
    } else if |s| >= |p| {
      if s[..|p|] == p { ReplaceCountMatch(s, p, r, c); } else { ReplaceCountSkip(s, p, r, c); }
    }
  }

  lemma CountAppend(c: char, a: string, b: string)
    ensures Count(c, a + b) == Count(c, a) + Count(c, b)
  {
    assert multiset(a + b) == multiset(a) + multiset(b);
  }

  lemma CountAbsent(c: char, s: string)
    requires c !in s
    ensures Count(c, s) == 0
  {
  }

  lemma ReplaceInsertStep(s: string, r: string)
    requires s != []
    ensures s == [s[0]] + s[1..]
    ensures ReplaceAll(s, [], r) == r + ([s[0]] + ReplaceAll(s[1..], [], r))
    ensures Matches(s, []) == 1 + Matches(s[1..], [])
  {
  }

  lemma ReplaceMatchStep(s: string, p: string, r: string)
    requires p != [] && |s| >= |p| && s[..|p|] == p
    ensures s == p + s[|p|..]
    ensures ReplaceAll(s, p, r) == r + ReplaceAll(s[|p|..], p, r)
    ensures Matches(s, p) == 1 + Matches(s[|p|..], p)
  {
  }

  lemma ReplaceSkipStep(s: string, p: string, r: string)
    requires p != [] && |s| >= |p| && s[..|p|] != p
    ensures s == [s[0]] + s[1..]
    ensures ReplaceAll(s, p, r) == [s[0]] + ReplaceAll(s[1..], p, r)
    ensures Matches(s, p) == Matches(s[1..], p)
  {
  }

  lemma {:induction false} ReplaceCountInsert(s: string, r: string, c: char)
    requires s != []
    ensures Count(c, ReplaceAll(s, [], r)) + Times(Matches(s, []), Count(c, []))
         == Count(c, s) + Times(Matches(s, []), Count(c, r))
    decreases |s|, 0
  {
    var t := s[1..];
    var x := ReplaceAll(t, [], r);
    var m, k, e := Matches(t, []), Count(c, r), Count(c, [s[0]]);
    ReplaceCount(t, [], r, c);
    ReplaceInsertStep(s, r);
    CountAppend(c, r, [s[0]] + x);
    CountAppend(c, [s[0]], x);
    CountAppend(c, [s[0]], t);
    TimesZeroOne(m);
    TimesZeroOne(m + 1);
    TimesStep(m, k);
    assert Count(c, []) == 0;
    assert Count(c, x) == Count(c, t) + Times(m, k);
    assert Count(c, ReplaceAll(s, [], r)) == k + (e + Count(c, x));
    assert Count(c, s) == e + Count(c, t);
    InsertArithmetic(Count(c, x), Count(c, t), e, k, Times(m, k), Times(m + 1, k));
  }

  lemma TimesStep(m: nat, k: nat)
    ensures Times(m + 1, k) == k + Times(m, k)
  {
  }

  lemma InsertArithmetic(a: int, b: int, e: int, k: int, tm: int, tm1: int)
    requires a == b + tm && tm1 == k + tm
    ensures k + (e + a) == (e + b) + tm1
  {
  }

  lemma {:induction false} ReplaceCountMatch(s: string, p: string, r: string, c: char)
    requires p != [] && |s| >= |p| && s[..|p|] == p
    ensures Count(c, ReplaceAll(s, p, r)) + Times(Matches(s, p), Count(c, p))
         == Count(c, s) + Times(Matches(s, p), Count(c, r))
    decreases |s|, 0
  {
    var t := s[|p|..];
    ReplaceCount(t, p, r, c);
    ReplaceMatchStep(s, p, r);
    CountAppend(c, r, ReplaceAll(t, p, r));
    CountAppend(c, p, t);
  }

  lemma {:induction false} ReplaceCountSkip(s: string, p: string, r: string, c: char)
    requires p != [] && |s| >= |p| && s[..|p|] != p
    ensures Count(c, ReplaceAll(s, p, r)) + Times(Matches(s, p), Count(c, p))
         == Count(c, s) + Times(Matches(s, p), Count(c, r))
    decreases |s|, 0
  {
    var t := s[1..];
    ReplaceCount(t, p, r, c);
    ReplaceSkipStep(s, p, r);
    CountAppend(c, [s[0]], ReplaceAll(t, p, r));
    CountAppend(c, [s[0]], t);
  }

  /** A one-character pattern matches once per occurrence of that character. */
  lemma {:induction false} MatchesOneChar(s: string, d: char)
    ensures Matches(s, [d]) == Count(d, s)
    decreases |s|
  {
    if s != [] {
      MatchesOneChar(s[1..], d);
      assert s == [s[0]] + s[1..];
      assert s[..1] == [s[0]];
    }
  }

  /** If one character of `p` does not occur in `s`, `s.replace(p, r)` is `s`. */
  lemma {:induction false} ReplaceWithoutOccurrence(s: string, p: string, r: string, c: char)
    requires c in p && c !in s
    ensures ReplaceAll(s, p, r) == s
    decreases |s|
  {
    if |s| >= |p| {
      ReplaceWithoutOccurrence(s[1..], p, r, c);
      assert s == [s[0]] + s[1..];
    }
  }

  /** A pattern that does not occur is not replaced. */
  lemma {:induction false} ReplaceNotContained(s: string, p: string, r: string)
    requires p != [] && !Contains(s, p)
    ensures ReplaceAll(s, p, r) == s
    decreases |s|
  {
    if |s| >= |p| {
      ReplaceNotContained(s[1..], p, r);
      assert s == [s[0]] + s[1..];
    }
  }

  /** Replacing one character distributes over concatenation. */
  lemma {:induction false} ReplaceOneCharAppend(a: string, b: string, d: char, r: string)
    ensures ReplaceAll(a + b, [d], r) == ReplaceAll(a, [d], r) + ReplaceAll(b, [d], r)
    decreases |a|
  {
    if a == [] {
      assert a + b == b;
    } else {
      ReplaceOneCharAppend(a[1..], b, d, r);
      var ab := a + b;
      assert ab[1..] == a[1..] + b && ab[0] == a[0];
      ReplaceOneCharStep(a, d, r);
      ReplaceOneCharStep(ab, d, r);
      AppendRegroup(if a[0] == d then r else [a[0]], ReplaceAll(a[1..], [d], r), ReplaceAll(b, [d], r));
    }
  }

  lemma AppendRegroup<T>(x: seq<T>, y: seq<T>, z: seq<T>)
    ensures x + (y + z) == (x + y) + z
  {
  }

  /** A character that `p` does not hold ends every occurrence before it:
      replacing in `s + [z]` is replacing in `s`, with `z` kept at the end. */
  lemma {:induction false} ReplaceBeforeForeign(s: string, p: string, r: string, z: char)
    requires p != [] && z !in p
    ensures ReplaceAll(s + [z], p, r) == ReplaceAll(s, p, r) + [z]
    decreases |s|
  {
    if |s| < |p| {
      ForeignShortStep(s, p, r, z);
    } else if s[..|p|] == p {
      ReplaceBeforeForeign(s[|p|..], p, r, z);
      ForeignMatchStep(s, p, r, z);
    } else {
      ReplaceBeforeForeign(s[1..], p, r, z);
      ForeignSkipStep(s, p, r, z);
    }
  }

  /** The steps of that induction: text shorter than the pattern, a match at
      the front, and no match at the front. */
  lemma ForeignShortStep(s: string, p: string, r: string, z: char)
    requires p != [] && z !in p && |s| < |p|
    ensures ReplaceAll(s + [z], p, r) == ReplaceAll(s, p, r) + [z]
  {
    var t := s + [z];
    if |t| == |p| {
      assert t[..|p|] != p by { assert t[..|p|][|s|] == z; }
      ReplaceSkipStep(t, p, r);
      assert t == [t[0]] + t[1..];
    }
  }

  lemma ForeignMatchStep(s: string, p: string, r: string, z: char)
    requires p != [] && |s| >= |p| && s[..|p|] == p
    requires ReplaceAll(s[|p|..] + [z], p, r) == ReplaceAll(s[|p|..], p, r) + [z]
    ensures ReplaceAll(s + [z], p, r) == ReplaceAll(s, p, r) + [z]
  {
    var t := s + [z];
    assert t[..|p|] == s[..|p|];
    ReplaceMatchStep(t, p, r);
    ReplaceMatchStep(s, p, r);
    assert t[|p|..] == s[|p|..] + [z];
  }

  lemma ForeignSkipStep(s: string, p: string, r: string, z: char)
    requires p != [] && |s| >= |p| && s[..|p|] != p
    requires ReplaceAll(s[1..] + [z], p, r) == ReplaceAll(s[1..], p, r) + [z]
    ensures ReplaceAll(s + [z], p, r) == ReplaceAll(s, p, r) + [z]
  {
    var t := s + [z];
    assert t[..|p|] == s[..|p|];
    ReplaceSkipStep(t, p, r);
    ReplaceSkipStep(s, p, r);
    assert t[1..] == s[1..] + [z];
  }

  /** A character that `p` does not hold starts no occurrence: replacing in
      `[z] + s` is replacing in `s`, with `z` kept at the front. */
  lemma ReplaceAfterForeign(s: string, p: string, r: string, z: char)
    requires p != [] && z !in p
    ensures ReplaceAll([z] + s, p, r) == [z] + ReplaceAll(s, p, r)
  {
    var t := [z] + s;
    if |t| >= |p| {
      assert t[..|p|] != p by { assert t[..|p|][0] == z; }
      ReplaceSkipStep(t, p, r);
      assert t[1..] == s;
    }
  }

  /** `s` is empty or does not end in `c`. */
  predicate EndsOutside(s: string, c: char) {
    s == [] || s[|s| - 1] != c
  }

  /** `x + w` ends where `w` does, or where `x` does when `w` is empty. */
  lemma ConcatEndsOutside(x: string, w: string, c: char)
    requires EndsOutside(w, c) && (w == [] ==> EndsOutside(x, c))
    ensures EndsOutside(x + w, c)
  {
    if w != [] { assert (x + w)[|x + w| - 1] == w[|w| - 1]; }
    else { assert x + w == x; }
  }

  /** Replacing with a glyph that does not end in `c` keeps a text that does
      not end in `c` from ending in it, and keeps a non-empty text non-empty. */
  lemma {:induction false} ReplaceEndsOutside(s: string, p: string, r: string, c: char)
    requires p != [] && r != [] && r[|r| - 1] != c && EndsOutside(s, c)
    ensures EndsOutside(ReplaceAll(s, p, r), c)
    ensures s != [] ==> ReplaceAll(s, p, r) != []
    decreases |s|
  {
    if |s| >= |p| {
      if s[..|p|] == p {
        EndsOutsideDrop(s, |p|, c);
        ReplaceEndsOutside(s[|p|..], p, r, c);
        ReplaceMatchStep(s, p, r);
        ConcatEndsOutside(r, ReplaceAll(s[|p|..], p, r), c);
      } else {
        EndsOutsideDrop(s, 1, c);
        ReplaceEndsOutside(s[1..], p, r, c);
        ReplaceSkipStep(s, p, r);
        if |s| == 1 { assert s[1..] == [] && ReplaceAll(s[1..], p, r) == []; }
        ConcatEndsOutside([s[0]], ReplaceAll(s[1..], p, r), c);
      }
    }
  }

  /** The tail of a text that does not end in `h` does not either. */
  lemma EndsOutsideDrop(s: string, k: nat, h: char)
    requires k <= |s| && EndsOutside(s, h)
    ensures EndsOutside(s[k..], h)
  {
    if k < |s| { assert s[k..][|s| - k - 1] == s[|s| - 1]; }
  }

  /** `p` holds `a` only right after `h`. */
  predicate OnlyAfter(p: string, a: char, h: char) {
    forall i | 0 <= i < |p| && p[i] == a :: i >= 1 && p[i - 1] == h
  }

  /** Such a pattern cannot start in a text that does not end in `h` and run
      into the pair `a h` after it. */
  lemma PairNotStraddled(s: string, p: string, a: char, h: char)
    requires OnlyAfter(p, a, h) && EndsOutside(s, h) && |s| < |p| <= |s| + 2
    ensures (s + [a, h])[..|p|] != p
  {
    var t := s + [a, h];
    assert t[..|p|][|s|] == a;
    if |s| > 0 { assert t[..|p|][|s| - 1] == s[|s| - 1]; }
  }

  /** The three steps of `ReplaceBeforePair`: a short text, a match at the
      front, and no match at the front. */
  lemma PairShortStep(s: string, p: string, r: string, a: char, h: char)
    requires |p| >= 2 && EndsOutside(s, h) && OnlyAfter(p, a, h)
    requires |s| < |p| && s != [] && |s| + 2 >= |p|
    requires ReplaceAll(s[1..] + [a, h], p, r) == ReplaceAll(s[1..], p, r) + [a, h]
    ensures ReplaceAll(s + [a, h], p, r) == ReplaceAll(s, p, r) + [a, h]
  {
    var t := s + [a, h];
    PairNotStraddled(s, p, a, h);
    ReplaceSkipStep(t, p, r);
    assert t[1..] == s[1..] + [a, h];
  }

  lemma PairMatchStep(s: string, p: string, r: string, a: char, h: char)
    requires |p| >= 2 && |s| >= |p| && s[..|p|] == p
    requires ReplaceAll(s[|p|..] + [a, h], p, r) == ReplaceAll(s[|p|..], p, r) + [a, h]
    ensures ReplaceAll(s + [a, h], p, r) == ReplaceAll(s, p, r) + [a, h]
  {
    var t := s + [a, h];
    assert t[..|p|] == s[..|p|];
    ReplaceMatchStep(t, p, r);
    ReplaceMatchStep(s, p, r);
    assert t[|p|..] == s[|p|..] + [a, h];
  }

  lemma PairSkipStep(s: string, p: string, r: string, a: char, h: char)
    requires |p| >= 2 && |s| >= |p| && s[..|p|] != p
    requires ReplaceAll(s[1..] + [a, h], p, r) == ReplaceAll(s[1..], p, r) + [a, h]
    ensures ReplaceAll(s + [a, h], p, r) == ReplaceAll(s, p, r) + [a, h]
  {
    var t := s + [a, h];
    assert t[..|p|] == s[..|p|];
    ReplaceSkipStep(t, p, r);
    ReplaceSkipStep(s, p, r);
    assert t[1..] == s[1..] + [a, h];
  }

  /** The pair `a h` at the end of the text is a boundary for a pattern of two
      characters or more that holds `a` only right after `h`, provided the
      text before the pair does not end in `h`. */
  lemma {:induction false} ReplaceBeforePair(s: string, p: string, r: string, a: char, h: char)
    requires |p| >= 2 && EndsOutside(s, h) && OnlyAfter(p, a, h)
    ensures ReplaceAll(s + [a, h], p, r) == ReplaceAll(s, p, r) + [a, h]
    decreases |s|
  {
    if s == [] {
      var t := [a, h];
      if |p| == 2 {
        assert t[..|p|] != p by { assert p[0] != a; }
        ReplaceSkipStep(t, p, r);
        assert t[1..] == [h];
      }
      assert s + [a, h] == t;
    } else if |s| < |p| {
      EndsOutsideDrop(s, 1, h);
      ReplaceBeforePair(s[1..], p, r, a, h);
      if |s| + 2 >= |p| { PairShortStep(s, p, r, a, h); }
    } else if s[..|p|] == p {
      EndsOutsideDrop(s, |p|, h);
      ReplaceBeforePair(s[|p|..], p, r, a, h);
      PairMatchStep(s, p, r, a, h);
    } else {
      EndsOutsideDrop(s, 1, h);
      ReplaceBeforePair(s[1..], p, r, a, h);
      PairSkipStep(s, p, r, a, h);
    }
  }

  lemma PairEndMatchStep(s: string, a: char, h: char, r: string)
    requires |s| >= 2 && s[..2] == [a, h]
    requires ReplaceAll(s[2..] + [a, h], [a, h], r) == ReplaceAll(s[2..], [a, h], r) + r
    ensures ReplaceAll(s + [a, h], [a, h], r) == ReplaceAll(s, [a, h], r) + r
  {
    var t := s + [a, h];
    assert t[..2] == s[..2];
    ReplaceMatchStep(t, [a, h], r);
    ReplaceMatchStep(s, [a, h], r);
    assert t[2..] == s[2..] + [a, h];
  }

  lemma PairEndSkipStep(s: string, a: char, h: char, r: string)
    requires a != h && s != [] && (|s| >= 2 ==> s[..2] != [a, h])
    requires ReplaceAll(s[1..] + [a, h], [a, h], r) == ReplaceAll(s[1..], [a, h], r) + r
    ensures ReplaceAll(s + [a, h], [a, h], r) == ReplaceAll(s, [a, h], r) + r
  {
    var t := s + [a, h];
    assert t[..2] != [a, h] by {
      if |s| == 1 { assert t[..2][1] == a; } else { assert t[..2] == s[..2]; }
    }
    ReplaceSkipStep(t, [a, h], r);
    assert t[1..] == s[1..] + [a, h];
    if |s| >= 2 { ReplaceSkipStep(s, [a, h], r); }
  }

  /** The pattern `a h` at the end of the text, with `a != h`, is replaced
      there and nowhere across the boundary. */
  lemma {:induction false} ReplacePairAtEnd(s: string, a: char, h: char, r: string)
    requires a != h
    ensures ReplaceAll(s + [a, h], [a, h], r) == ReplaceAll(s, [a, h], r) + r
    decreases |s|
  {
    if s == [] {
      var t := [a, h];
      assert s + [a, h] == t && t[..2] == [a, h];
      ReplaceMatchStep(t, [a, h], r);
      assert t[2..] == [];
    } else if |s| >= 2 && s[..2] == [a, h] {
      ReplacePairAtEnd(s[2..], a, h, r);
      PairEndMatchStep(s, a, h, r);
    } else {
      ReplacePairAtEnd(s[1..], a, h, r);
      PairEndSkipStep(s, a, h, r);
    }
  }

  /** One step of `ReplaceAll` with a one-character pattern. */
  lemma ReplaceOneCharStep(s: string, d: char, r: string)
    requires s != []
    ensures ReplaceAll(s, [d], r) == (if s[0] == d then r else [s[0]]) + ReplaceAll(s[1..], [d], r)
  {
    assert s[..1] == [s[0]];
  }

  /** `sep.join(parts)`. */
  function Join(sep: string, parts: seq<string>): string {
    if parts == [] then []
    else if |parts| == 1 then parts[0]
    else parts[0] + sep + Join(sep, parts[1..])
  }

  /** `s.split(sep)` for a one-character separator. */
  function Split(s: string, sep: char): (parts: seq<string>)
    ensures |parts| >= 1
    ensures forall i | 0 <= i < |parts| :: sep !in parts[i]
    ensures Join([sep], parts) == s
  {
    if s == [] then [[]]
    else
      var t := Split(s[1..], sep);
      if s[0] == sep then
        assert s == [sep] + s[1..];
        [[]] + t
      else
        var parts := [[s[0]] + t[0]] + t[1..];
        assert Join([sep], parts) == s by {
          if |t| > 1 {
            assert parts[1..] == t[1..];
          }
        }
        parts
  }

  /** A part without the separator splits into itself. */
  lemma {:induction false} SplitWithoutSeparator(s: string, sep: char)
    requires sep !in s
    ensures Split(s, sep) == [s]
    decreases |s|
  {
    if s != [] {
      SplitWithoutSeparator(s[1..], sep);
      assert s == [s[0]] + s[1..];
    }
  }

  /** Splitting at the first separator peels off the part before it. */
  lemma {:induction false} SplitAtSeparator(a: string, b: string, sep: char)
    requires sep !in a
    ensures Split(a + [sep] + b, sep) == [a] + Split(b, sep)
    decreases |a|
  {
    if a == [] {
      assert a + [sep] + b == [sep] + b;
      SplitLeadingSeparator(b, sep);
    } else {
      SplitAtSeparator(a[1..], b, sep);
      SplitCons(a, b, sep);
    }
  }

  lemma SplitLeadingSeparator(b: string, sep: char)
    ensures Split([sep] + b, sep) == [[]] + Split(b, sep)
  {
    assert ([sep] + b)[1..] == b;
  }

  /** One step of `SplitAtSeparator`: a first character that is not the
      separator joins the first part. */
  lemma SplitCons(a: string, b: string, sep: char)
    requires a != [] && a[0] != sep
    requires Split(a[1..] + [sep] + b, sep) == [a[1..]] + Split(b, sep)
    ensures Split(a + [sep] + b, sep) == [a] + Split(b, sep)
  {
    var s := a + [sep] + b;
    var u := a[1..] + [sep] + b;
    assert s[1..] == u && s[0] == a[0];
    var t := Split(u, sep);
    assert t == [a[1..]] + Split(b, sep);
    assert t[0] == a[1..] && t[1..] == Split(b, sep);
    SplitStep(s, sep);
    assert [a[0]] + a[1..] == a;
  }

  /** `Split` on a text that does not start with the separator. */
  lemma SplitStep(s: string, sep: char)
    requires s != [] && s[0] != sep
    ensures Split(s, sep) == [[s[0]] + Split(s[1..], sep)[0]] + Split(s[1..], sep)[1..]
  {
  }

  /** Splitting a join gives the parts back, when no part holds the
      separator. */
  lemma {:induction false} SplitJoin(parts: seq<string>, sep: char)
    requires parts != []
    requires forall i | 0 <= i < |parts| :: sep !in parts[i]
    ensures Split(Join([sep], parts), sep) == parts
    decreases |parts|
  {
    if |parts| == 1 {
      SplitWithoutSeparator(parts[0], sep);
    } else {
      SplitJoin(parts[1..], sep);
      assert sep !in parts[0];
      SplitAtSeparator(parts[0], Join([sep], parts[1..]), sep);
      assert parts == [parts[0]] + parts[1..];
    }
  }
}
