/** The Unicode Devanagari to Kruti Dev / DevLys transducer of
    core/font_converter.py: two regular-expression reordering passes (reph,
    then the short-i sign) followed by an ordered table of global literal
    replacements. Strings are sequences of Unicode code points, as in Python. */
module FontConverter {
  import opened Wrappers
  import opened Text

  // ---------------------------------------------------------------------------
  // Character classes of the two regular expressions (font_converter.py:16-21)
  // ---------------------------------------------------------------------------

  const Halant: char := '\U{094D}'
  const Ra: char := '\U{0930}'
  const ChhotiEe: char := '\U{093F}'

  /** `[\u0915-\u0939\u0958-\u095F]`: the consonants, the nukta forms included. */
  predicate IsConsonant(c: char) {
    ('\U{0915}' <= c <= '\U{0939}') || ('\U{0958}' <= c <= '\U{095F}')
  }

  /** `[\u093E-\u094C\u0962\u0963]`: the dependent vowel signs. */
  predicate IsMatra(c: char) {
    ('\U{093E}' <= c <= '\U{094C}') || c == '\U{0962}' || c == '\U{0963}'
  }

  /** `[\u0901\u0902]`: candrabindu and anusvara. */
  predicate IsAnusvara(c: char) {
    c == '\U{0901}' || c == '\U{0902}'
  }

  /** The Devanagari block, U+0900 to U+097F. */
  predicate IsDevanagari(c: char) {
    '\U{0900}' <= c <= '\U{097F}'
  }

  predicate DevanagariFree(s: string) {
    forall i | 0 <= i < |s| :: !IsDevanagari(s[i])
  }

  // ---------------------------------------------------------------------------
  // Consonant clusters: `{consonants}(?:{halant}{consonants})*`
  // ---------------------------------------------------------------------------

  /** A consonant cluster: consonants joined by halants, `C(्C)*`. */
  predicate IsCluster(s: string)
    decreases |s|
  {
    && |s| >= 1 && IsConsonant(s[0])
    && (|s| == 1 || (|s| >= 3 && s[1] == Halant && IsCluster(s[2..])))
  }

  /** The text after a cluster does not let the greedy `(?:{halant}{consonants})*` go on. */
  predicate ClusterStops(u: string) {
    !(|u| >= 2 && u[0] == Halant && IsConsonant(u[1]))
  }

  /** Length of the greedy cluster at the front of `s`. */
  function ClusterLen(s: string): (n: nat)
    requires |s| >= 1 && IsConsonant(s[0])
    ensures 1 <= n <= |s|
    decreases |s|
  {
    if |s| >= 3 && s[1] == Halant && IsConsonant(s[2]) then 2 + ClusterLen(s[2..]) else 1
  }

  /** The greedy cluster is a cluster, and it cannot be extended. */
  lemma {:induction false} ClusterLenIsCluster(s: string)
    requires |s| >= 1 && IsConsonant(s[0])
    ensures IsCluster(s[..ClusterLen(s)]) && ClusterStops(s[ClusterLen(s)..])
    decreases |s|
  {
    if |s| >= 3 && s[1] == Halant && IsConsonant(s[2]) {
      ClusterLenIsCluster(s[2..]);
      var n := ClusterLen(s);
      assert s[..n][2..] == s[2..][..n - 2];
      assert s[n..] == s[2..][n - 2..];
    }
  }

  /** The greedy cluster is the whole of a cluster that is not followed by
      halant and consonant. */
  lemma {:induction false} ClusterLenOfCluster(cl: string, u: string)
    requires IsCluster(cl) && ClusterStops(u)
    ensures ClusterLen(cl + u) == |cl|
    decreases |cl|
  {
    var s := cl + u;
    if |cl| >= 3 {
      ClusterLenOfCluster(cl[2..], u);
      assert s[1] == Halant && IsConsonant(s[2]) && s[2..] == cl[2..] + u;
    } else {
      assert |cl| == 1 && s[0] == cl[0] && s[1..] == u;
    }
  }

  // ---------------------------------------------------------------------------
  // Stage 1: reph relocation (font_converter.py:24-25)
  // ---------------------------------------------------------------------------

  /** Length of what `{matras}?{anusvara}?` takes at the front of `s`. */
  function TailLen(s: string): (n: nat)
    ensures n <= |s| && n <= 2
  {
    var m := if |s| > 0 && IsMatra(s[0]) then 1 else 0;
    if m < |s| && IsAnusvara(s[m]) then m + 1 else m
  }

  /** `t` is exactly what the optional, greedy `{matras}?{anusvara}?` takes at
      the front of `t + rest`. */
  predicate IsTailOf(t: string, rest: string) {
    || (t == [] && (rest == [] || (!IsMatra(rest[0]) && !IsAnusvara(rest[0]))))
    || (|t| == 1 && IsMatra(t[0]) && (rest == [] || !IsAnusvara(rest[0])))
    || (|t| == 1 && IsAnusvara(t[0]))
    || (|t| == 2 && IsMatra(t[0]) && IsAnusvara(t[1]))
  }

  /** A reph match starts at the front of `s`: `र्` and a consonant. */
  predicate RephAt(s: string) {
    |s| >= 3 && s[0] == Ra && s[1] == Halant && IsConsonant(s[2])
  }

  /** Where the reph match at the front of `s` ends: after `र्`, the greedy
      cluster and the greedy tail. */
  function RephEnd(s: string): (e: nat)
    requires RephAt(s)
    ensures 3 <= e <= |s|
  {
    var c := 2 + ClusterLen(s[2..]);
    c + TailLen(s[c..])
  }

  /** `re.sub(reph_pattern, r'\2\3\1', text)`: scanning left to right, each
      `र्` followed by a cluster, an optional matra and an optional anusvara is
      moved behind them; scanning resumes after the rewritten match, and at a
      position where nothing matches it advances by one character. */
  function RephPass(s: string): string
    decreases |s|
  {
    if RephAt(s) then
      var e := RephEnd(s);
      s[2..e] + [Ra, Halant] + RephPass(s[e..])
    else if s == [] then []
    else [s[0]] + RephPass(s[1..])
  }

  /** Exchanging two adjacent pieces keeps the characters. */
  lemma SwapKeepsCharacters(s: string, i: nat, j: nat, r: string, rest': string)
    requires i <= j <= |s| && r == s[i..j] + s[..i] + rest'
    requires multiset(rest') == multiset(s[j..])
    ensures multiset(r) == multiset(s)
  {
    assert s == s[..i] + s[i..j] + s[j..];
  }

  /** Keeping the first character in front keeps the characters. */
  lemma FrontKeepsCharacters(s: string, r: string, rest': string)
    requires s != [] && r == [s[0]] + rest'
    requires multiset(rest') == multiset(s[1..])
    ensures multiset(r) == multiset(s)
  {
    assert s == [s[0]] + s[1..];
  }

  /** One reph match at the front. */
  lemma RephMatchStep(s: string)
    requires RephAt(s)
    ensures RephPass(s) == s[2..RephEnd(s)] + [Ra, Halant] + RephPass(s[RephEnd(s)..])
  {
  }

  /** No reph match at the front. */
  lemma RephSkipStep(s: string)
    requires s != [] && !RephAt(s)
    ensures RephPass(s) == [s[0]] + RephPass(s[1..])
  {
  }

  /** The reph pass only moves characters around. */
  lemma {:induction false} RephPassKeepsCharacters(s: string)
    ensures multiset(RephPass(s)) == multiset(s)
    decreases |s|
  {
    if RephAt(s) {
      var e := RephEnd(s);
      RephMatchStep(s);
      assert s[..2] == [Ra, Halant];
      RephPassKeepsCharacters(s[e..]);
      SwapKeepsCharacters(s, 2, e, RephPass(s), RephPass(s[e..]));
    } else if s != [] {
      RephSkipStep(s);
      RephPassKeepsCharacters(s[1..]);
      FrontKeepsCharacters(s, RephPass(s), RephPass(s[1..]));
    }
  }

  // ---------------------------------------------------------------------------
  // Stage 2: short-i relocation (font_converter.py:28-29)
  // ---------------------------------------------------------------------------

  /** A short-i match starts at the front of `s`: a cluster and then `ि`. */
  predicate ShortIAt(s: string) {
    s != [] && IsConsonant(s[0]) && ClusterLen(s) < |s| && s[ClusterLen(s)] == ChhotiEe
  }

  /** Where the short-i match at the front of `s` ends: after the cluster and the sign. */
  function ShortIEnd(s: string): (e: nat)
    requires ShortIAt(s)
    ensures 2 <= e <= |s| && s[e - 1] == ChhotiEe
  {
    ClusterLen(s) + 1
  }

  /** `re.sub(cluster_pattern, '\u093F\\1', text)`: each cluster followed by the
      sign ि is rewritten as ि followed by the cluster. Backtracking into a
      shorter cluster never helps, because a shorter cluster is followed by a
      halant, not by ि; so a match exists at a consonant exactly when the
      greedy cluster there is followed by ि. */
  function ShortIPass(s: string): string
    decreases |s|
  {
    if s == [] then []
    else if ShortIAt(s) then
      var e := ShortIEnd(s);
      [ChhotiEe] + s[..e - 1] + ShortIPass(s[e..])
    else [s[0]] + ShortIPass(s[1..])
  }

  /** One short-i match at the front. */
  lemma ShortIMatchStep(s: string)
    requires ShortIAt(s)
    ensures ShortIPass(s) == s[ShortIEnd(s) - 1..ShortIEnd(s)] + s[..ShortIEnd(s) - 1] + ShortIPass(s[ShortIEnd(s)..])
  {
    var e := ShortIEnd(s);
    assert s[e - 1..e] == [ChhotiEe];
  }

  /** No short-i match at the front. */
  lemma ShortISkipStep(s: string)
    requires s != [] && !ShortIAt(s)
    ensures ShortIPass(s) == [s[0]] + ShortIPass(s[1..])
  {
  }

  /** The short-i pass only moves characters around. */
  lemma {:induction false} ShortIPassKeepsCharacters(s: string)
    ensures multiset(ShortIPass(s)) == multiset(s)
    decreases |s|
  {
    if s == [] {
    } else if ShortIAt(s) {
      var e := ShortIEnd(s);
      ShortIMatchStep(s);
      ShortIPassKeepsCharacters(s[e..]);
      SwapKeepsCharacters(s, e - 1, e, ShortIPass(s), ShortIPass(s[e..]));
    } else {
      ShortISkipStep(s);
      ShortIPassKeepsCharacters(s[1..]);
      FrontKeepsCharacters(s, ShortIPass(s), ShortIPass(s[1..]));
    }
  }

  // ---------------------------------------------------------------------------
  // Stage 3: the strictly ordered replacements (font_converter.py:32-93)
  // ---------------------------------------------------------------------------

  /** An ordered list of `(pattern, glyph)` rules. */
  type Rules = seq<(string, string)>

  // One constant per line of the source's table (font_converter.py:34-92);
  // the lines of one comment group are joined into the group below.

  const RogueQuotes: Rules := [
    ("\"", ""), ("\'", "")
  ]

  const Brackets1: Rules := [
    ("(", "¼"), (")", "½"), ("[", "¼"), ("]", "½"), ("{", "¼"), ("}", "½")
  ]

  const Brackets2: Rules := [
    ("‘", "^"), ("’", "*"), ("“", "Þ"), ("”", "ß")
  ]

  const FallbackPunctuation: Rules := [
    (".", "\U{2024}"), ("॰", "\U{2024}"), ("/", "\U{2215}")
  ]

  const Signs: Rules := [
    ("।", "A"), (":", "%"), ("-", "-")
  ]

  const Digits1: Rules := [
    ("०", "0"), ("१", "1"), ("२", "2"), ("३", "3"), ("४", "4")
  ]

  const Digits2: Rules := [
    ("५", "5"), ("६", "6"), ("७", "7"), ("८", "8"), ("९", "9")
  ]

  const Conjuncts1: Rules := [
    ("क्ष्", "{"), ("त्र्", "«"), ("ज्ञ्", "K~"), ("श्र्", "J~")
  ]

  const Conjuncts2: Rules := [
    ("क्ष", "{k"), ("त्र", "«k"), ("ज्ञ", "K"), ("श्र", "J")
  ]

  const Conjuncts3: Rules := [
    ("क्र", "Ø"), ("ट्र", "Vª"), ("ड्र", "Mª")
  ]

  const Conjuncts4: Rules := [
    ("द्व", "}"), ("द्य", "|"), ("द्ध", ")")
  ]

  const Conjuncts5: Rules := [
    ("ट्ट", "V~V"), ("ड्ड", "M~M"), ("दृ", "n`"), ("कृ", "d`")
  ]

  const RModifiers: Rules := [
    ("र्", "Z"), ("्र", "z")
  ]

  const Half1: Rules := [
    ("क्", "D"), ("ख्", "["), ("ग्", "X"), ("घ्", "?"), ("ङ्", "³~")
  ]

  const Half2: Rules := [
    ("च्", "P"), ("छ्", "N~"), ("ज्", "T"), ("झ्", ">~"), ("ञ्", "¥~")
  ]

  const Half3: Rules := [
    ("ट्", "V~"), ("ठ्", "B~"), ("ड्", "M~"), ("ढ्", "<~"), ("ण्", ".")
  ]

  const Half4: Rules := [
    ("त्", "R"), ("थ्", "F"), ("द्", "n~"), ("ध्", "è"), ("न्", "U")
  ]

  const Half5: Rules := [
    ("प्", "I"), ("फ्", "¶"), ("ब्", "C"), ("भ्", "H"), ("म्", "E")
  ]

  const Half6: Rules := [
    ("य्", "¸"), ("ल्", "Y"), ("व्", "O"), ("श्", "\"")
  ]

  const Half7: Rules := [
    ("ष्", "\'"), ("स्", "L"), ("ह्", "g~")
  ]

  const Full1: Rules := [
    ("क", "d"), ("ख", "[k"), ("ग", "x"), ("घ", "?k"), ("ङ", "³")
  ]

  const Full2: Rules := [
    ("च", "p"), ("छ", "N"), ("ज", "t"), ("झ", ">"), ("ञ", "¥")
  ]

  const Full3: Rules := [
    ("ट", "V"), ("ठ", "B"), ("ड", "M"), ("ढ", "<"), ("ण", ".k")
  ]

  const Full4: Rules := [
    ("त", "r"), ("थ", "Fk"), ("द", "n"), ("ध", "èk"), ("न", "u")
  ]

  const Full5: Rules := [
    ("प", "i"), ("फ", "Q"), ("ब", "c"), ("भ", "Hk"), ("म", "e")
  ]

  const Full6: Rules := [
    ("य", ";"), ("र", "j"), ("ल", "y"), ("व", "o"), ("श", "”k")
  ]

  const Full7: Rules := [
    ("ष", "\'k"), ("स", "l"), ("ह", "g")
  ]

  const Vowels1: Rules := [
    ("अ", "v"), ("आ", "vk"), ("इ", "b"), ("ई", "bZ"), ("उ", "m"), ("ऊ", "Å")
  ]

  const Vowels2: Rules := [
    ("ए", ","), ("ऐ", ",S"), ("ओ", "vks"), ("औ", "vkS"), ("ऋ", "Fk")
  ]

  const Vowels3: Rules := [
    ("ऑ", "vkW"), ("ऍ", "vW")
  ]

  const Matras1: Rules := [
    ("ॉ", "kW"), ("ॅ", "W"), ("ा", "k"), ("ि", "f"), ("ी", "h")
  ]

  const Matras2: Rules := [
    ("ु", "q"), ("ू", "w"), ("ृ", "`"), ("े", "s"), ("ै", "S")
  ]

  const Matras3: Rules := [
    ("ो", "ks"), ("ौ", "kS"), ("ं", "a"), ("ँ", "¡"), ("ः", "%")
  ]

  const Matras4: Rules := [
    ("़", "+"), ("्", "~")
  ]

  const Brackets: Rules := Brackets1 + Brackets2
  const Digits: Rules := Digits1 + Digits2
  const SpecialConjuncts: Rules := Conjuncts1 + Conjuncts2 + Conjuncts3 + Conjuncts4 + Conjuncts5
  const HalfConsonants: Rules := Half1 + Half2 + Half3 + Half4 + Half5 + Half6 + Half7
  const FullConsonants: Rules := Full1 + Full2 + Full3 + Full4 + Full5 + Full6 + Full7
  const Vowels: Rules := Vowels1 + Vowels2 + Vowels3
  const Matras: Rules := Matras1 + Matras2 + Matras3 + Matras4

  /** The first five groups: one-character punctuation, sign and digit rules. */
  const Punctuation: Rules :=
    RogueQuotes + Brackets + FallbackPunctuation + Signs + Digits

  /** The last six groups: the rules for letters, conjuncts and vowel signs. */
  const Letters: Rules :=
    SpecialConjuncts + RModifiers + HalfConsonants + FullConsonants + Vowels + Matras

  /** The whole table, in the source's order. */
  const Replacements: Rules := Punctuation + Letters

  /** `for unicode_char, krutidev_char in rules: text = text.replace(...)`. */
  function ApplyRules(rules: Rules, s: string): string
    decreases |rules|
  {
    if rules == [] then s
    else
      var last := rules[|rules| - 1];
      ReplaceAll(ApplyRules(rules[..|rules| - 1], s), last.0, last.1)
  }

  /** The three stages in order on a non-empty string. */
  function Staged(s: string): string {
    ApplyRules(Replacements, ShortIPass(RephPass(s)))
  }

  /** `unicode_to_krutidev(text)`: `None` and the empty string give `""`. */
  function Krutidev(text: Option<string>): string {
    if text.None? || text.value == [] then [] else Staged(text.value)
  }

  /** The source's loop over the table: `text` is rebound once per rule, in
      table order. */
  method ReplaceInOrder(rules: Rules, text: string) returns (t: string)
    ensures t == ApplyRules(rules, text)
  {
    t := text;
    for i := 0 to |rules|
      invariant t == ApplyRules(rules[..i], text)
    {
      assert rules[..i + 1][..i] == rules[..i];
      t := ReplaceAll(t, rules[i].0, rules[i].1);
    }
    assert rules[..|rules|] == rules;
  }

  /** `unicode_to_krutidev`: the two passes rebind `text`, then the loop applies
      the table. */
  method UnicodeToKrutidev(text: Option<string>) returns (result: string)
    ensures result == Krutidev(text)
    ensures text.None? || text == Some([]) ==> result == []
  {
    if text.None? || text.value == [] {
      return [];
    }
    var t := RephPass(text.value);
    t := ShortIPass(t);
    result := ReplaceInOrder(Replacements, t);
  }
}
