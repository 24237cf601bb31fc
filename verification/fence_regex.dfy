/** The regular expression `_clean_json_response` (core/ai_extractor.py:23-28)
    uses to pull JSON out of a Markdown code fence: three backticks, an
    optional `json` tag in any letter case, whitespace, the shortest body,
    whitespace, three backticks; searched with `.` matching newlines. The
    search is modelled as the regular expression engine runs it, alternative
    by alternative, and then proved equal to a plain reading: the body
    between the first fence and the next one. */
module FenceRegex {
  import opened Wrappers
  import opened Text

  // ---------------------------------------------------------------------------
  // The pieces of the pattern
  // ---------------------------------------------------------------------------

  /** Three backticks start at `i`. */
  predicate FenceAt(t: string, i: nat) {
    i + 3 <= |t| && t[i] == '`' && t[i + 1] == '`' && t[i + 2] == '`'
  }

  /** The letters of `json` under case-insensitive matching; the long s
      (U+017F) folds to `s`. */
  predicate IsJ(c: char) { c == 'j' || c == 'J' }
  predicate IsS(c: char) { c == 's' || c == 'S' || c == '\U{017F}' }
  predicate IsO(c: char) { c == 'o' || c == 'O' }
  predicate IsN(c: char) { c == 'n' || c == 'N' }

  /** `(?:json)` matches at `p`. */
  predicate TagAt(t: string, p: nat) {
    p + 4 <= |t| && IsJ(t[p]) && IsS(t[p + 1]) && IsO(t[p + 2]) && IsN(t[p + 3])
  }

  /** Every character from `a` up to `b` is whitespace. */
  predicate SpacesBetween(t: string, a: nat, b: nat)
    requires b <= |t|
  {
    forall j | a <= j < b :: IsSpace(t[j])
  }

  /** Where the greedy `\s*` starting at `p` stops. */
  function SpaceEnd(t: string, p: nat): (n: nat)
    requires p <= |t|
    ensures p <= n <= |t| && SpacesBetween(t, p, n) && (n == |t| || !IsSpace(t[n]))
    decreases |t| - p
  {
    if p < |t| && IsSpace(t[p]) then SpaceEnd(t, p + 1) else p
  }

  /** `\s*` followed by three backticks matches at `e`. */
  predicate Closes(t: string, e: nat)
    decreases |t| - e
  {
    FenceAt(t, e) || (e < |t| && IsSpace(t[e]) && Closes(t, e + 1))
  }

  lemma {:induction false} ClosesWithinText(t: string, e: nat)
    requires Closes(t, e)
    ensures e + 3 <= |t|
    decreases |t| - e
  {
    if !FenceAt(t, e) {
      ClosesWithinText(t, e + 1);
    }
  }

  /** The lazy `(.*?)`: the first end at or after `e` where the rest of the
      pattern matches. */
  function LazyEnd(t: string, e: nat): (r: Option<nat>)
    ensures r.Some? ==> e <= r.value && r.value + 3 <= |t| && Closes(t, r.value)
    decreases |t| - e
  {
    if Closes(t, e) then
      ClosesWithinText(t, e);
      Some(e)
    else if e >= |t| then None
    else LazyEnd(t, e + 1)
  }

  /** The greedy `\s*` before the body, giving back one character at a time:
      `w` whitespace characters, then `w - 1`, down to none. The result is the
      body's start and end. */
  function TrySpaces(t: string, p: nat, w: nat): (r: Option<(nat, nat)>)
    ensures r.Some? ==> p <= r.value.0 <= r.value.1 && r.value.1 + 3 <= |t|
    decreases w
  {
    match LazyEnd(t, p + w)
    case Some(e) => Some((p + w, e))
    case None => if w == 0 then None else TrySpaces(t, p, w - 1)
  }

  /** Everything after the opening backticks at `q`: the tag is tried first,
      then its absence. */
  function AfterOpen(t: string, q: nat): (r: Option<(nat, nat)>)
    requires q <= |t|
    ensures r.Some? ==> q <= r.value.0 <= r.value.1 && r.value.1 + 3 <= |t|
  {
    var tagged := if TagAt(t, q) then TrySpaces(t, q + 4, SpaceEnd(t, q + 4) - (q + 4)) else None;
    if tagged.Some? then tagged else TrySpaces(t, q, SpaceEnd(t, q) - q)
  }

  /** `re.search`: the first start position, from `i` on, where the pattern
      matches; the result is the span of group 1. */
  function Search(t: string, i: nat): (r: Option<(nat, nat)>)
    ensures r.Some? ==> r.value.0 <= r.value.1 <= |t|
    decreases |t| + 1 - i
  {
    if i > |t| then None
    else if FenceAt(t, i) && AfterOpen(t, i + 3).Some? then AfterOpen(t, i + 3)
    else Search(t, i + 1)
  }

  /** `_clean_json_response`: strip, and when the pattern matches, the group
      stripped once more. */
  function CleanJsonResponse(raw: string): string {
    var t := Strip(raw);
    match Search(t, 0)
    case None => t
    case Some((g, e)) => Strip(t[g..e])
  }

  // ---------------------------------------------------------------------------
  // The plain reading
  // ---------------------------------------------------------------------------

  /** The first fence at or after `from`. */
  function FirstFence(t: string, from: nat): (r: Option<nat>)
    ensures r.Some? ==> from <= r.value && FenceAt(t, r.value)
    ensures r.Some? ==> forall j: nat | from <= j < r.value :: !FenceAt(t, j)
    ensures r.None? ==> forall j: nat | from <= j :: !FenceAt(t, j)
    decreases |t| - from
  {
    if from + 3 > |t| then None
    else if FenceAt(t, from) then Some(from)
    else FirstFence(t, from + 1)
  }

  /** The text between the first fence and the next one, if there are two. */
  function FencedBody(t: string): Option<string> {
    match FirstFence(t, 0)
    case None => None
    case Some(i) =>
      match FirstFence(t, i + 3)
      case None => None
      case Some(k) => Some(t[i + 3..k])
  }

  /** The body without a leading `json` tag. */
  function DropTag(b: string): string {
    if TagAt(b, 0) then b[4..] else b
  }

  /** What the cleaner is meant to do: the stripped text when it has no pair
      of fences, otherwise the body between the first two, without its tag,
      stripped. */
  function FencedOrWhole(raw: string): string {
    var t := Strip(raw);
    match FencedBody(t)
    case None => t
    case Some(b) => Strip(DropTag(b))
  }

  // ---------------------------------------------------------------------------
  // The engine agrees with the plain reading
  // ---------------------------------------------------------------------------

  /** Before the first fence at or after `e`, the closing part matches
      exactly on a run of whitespace reaching that fence. */
  lemma {:induction false} ClosesBeforeFence(t: string, e: nat, k: nat)
    requires e <= k && FenceAt(t, k) && forall j: nat | e <= j < k :: !FenceAt(t, j)
    ensures Closes(t, e) <==> SpacesBetween(t, e, k)
    decreases k - e
  {
    if e < k {
      ClosesBeforeFence(t, e + 1, k);
    }
  }

  lemma {:induction false} NoClosesWithoutFence(t: string, e: nat)
    requires forall j: nat | e <= j :: !FenceAt(t, j)
    ensures !Closes(t, e)
    decreases |t| - e
  {
    if e < |t| {
      NoClosesWithoutFence(t, e + 1);
    }
  }

  lemma {:induction false} LazyEndNone(t: string, e: nat)
    requires forall j: nat | e <= j :: !FenceAt(t, j)
    ensures LazyEnd(t, e).None?
    decreases |t| - e
  {
    NoClosesWithoutFence(t, e);
    if e < |t| {
      LazyEndNone(t, e + 1);
    }
  }

  /** The end of the body from `g` before the fence at `k`: the whitespace
      run before `k` is left out. */
  function BodyEnd(t: string, g: nat, k: nat): (n: nat)
    requires g <= k <= |t|
    ensures g <= n <= k && SpacesBetween(t, n, k) && (n == g || !IsSpace(t[n - 1]))
    decreases k
  {
    if g < k && IsSpace(t[k - 1]) then BodyEnd(t, g, k - 1) else k
  }

  /** The lazy body stops at the whitespace run before the first fence. */
  lemma {:induction false} LazyEndAtFence(t: string, g: nat, e: nat, k: nat)
    requires g <= k && FenceAt(t, k) && forall j: nat | g <= j < k :: !FenceAt(t, j)
    requires g <= e <= BodyEnd(t, g, k)
    ensures LazyEnd(t, e) == Some(BodyEnd(t, g, k))
    decreases k - e
  {
    var n := BodyEnd(t, g, k);
    ClosesBeforeFence(t, e, k);
    if e < n {
      assert !IsSpace(t[n - 1]);
      LazyEndAtFence(t, g, e + 1, k);
    }
  }

  /** Trying the whitespace counts finds the body as soon as a fence follows. */
  lemma TrySpacesFound(t: string, p: nat, k: nat)
    requires p <= |t| && SpaceEnd(t, p) <= k && FenceAt(t, k)
    requires forall j: nat | SpaceEnd(t, p) <= j < k :: !FenceAt(t, j)
    ensures TrySpaces(t, p, SpaceEnd(t, p) - p) == Some((SpaceEnd(t, p), BodyEnd(t, SpaceEnd(t, p), k)))
  {
    LazyEndAtFence(t, SpaceEnd(t, p), SpaceEnd(t, p), k);
  }

  lemma {:induction false} TrySpacesNone(t: string, p: nat, w: nat)
    requires forall j: nat | p <= j :: !FenceAt(t, j)
    ensures TrySpaces(t, p, w).None?
    decreases w
  {
    LazyEndNone(t, p + w);
    if w > 0 {
      TrySpacesNone(t, p, w - 1);
    }
  }

  /** A fence first at `k` from `q` on, with no backtick from `q` up to `p`,
      is also first from the end of the whitespace at `p`. */
  lemma FirstFenceAfterSpace(t: string, q: nat, p: nat, k: nat)
    requires q <= p <= |t| && q <= k && FenceAt(t, k) && forall j: nat | q <= j < k :: !FenceAt(t, j)
    requires forall j | q <= j < p :: t[j] != '`'
    ensures SpaceEnd(t, p) <= k
    ensures forall j: nat | SpaceEnd(t, p) <= j < k :: !FenceAt(t, j)
  {
  }

  /** After the opening fence the engine finds the body up to the next fence,
      with the tag taken when it is there. */
  lemma AfterOpenFound(t: string, q: nat, k: nat)
    requires q <= |t| && q <= k && FenceAt(t, k) && forall j: nat | q <= j < k :: !FenceAt(t, j)
    ensures var p := if TagAt(t, q) then q + 4 else q;
      && p <= SpaceEnd(t, p) <= k
      && AfterOpen(t, q) == Some((SpaceEnd(t, p), BodyEnd(t, SpaceEnd(t, p), k)))
  {
    AfterOpenUnfold(t, q);
    if TagAt(t, q) {
      AfterTagFound(t, q, k);
    } else {
      FirstFenceAfterSpace(t, q, q, k);
      TrySpacesFound(t, q, k);
    }
  }

  lemma AfterTagFound(t: string, q: nat, k: nat)
    requires TagAt(t, q) && q <= k && FenceAt(t, k) && forall j: nat | q <= j < k :: !FenceAt(t, j)
    ensures q + 4 <= SpaceEnd(t, q + 4) <= k
    ensures TrySpaces(t, q + 4, SpaceEnd(t, q + 4) - (q + 4)) == Some((SpaceEnd(t, q + 4), BodyEnd(t, SpaceEnd(t, q + 4), k)))
  {
    TagIsNotFence(t, q);
    FirstFenceAfterSpace(t, q, q + 4, k);
    TrySpacesFound(t, q + 4, k);
  }

  lemma AfterOpenUnfold(t: string, q: nat)
    requires q <= |t|
    ensures AfterOpen(t, q) ==
      if TagAt(t, q) && TrySpaces(t, q + 4, SpaceEnd(t, q + 4) - (q + 4)).Some?
      then TrySpaces(t, q + 4, SpaceEnd(t, q + 4) - (q + 4))
      else TrySpaces(t, q, SpaceEnd(t, q) - q)
  {
  }

  lemma TagIsNotFence(t: string, q: nat)
    requires TagAt(t, q)
    ensures forall j | q <= j < q + 4 :: t[j] != '`'
  {
  }

  lemma AfterOpenNone(t: string, q: nat)
    requires q <= |t| && forall j: nat | q <= j :: !FenceAt(t, j)
    ensures AfterOpen(t, q).None?
  {
    TrySpacesNone(t, q, SpaceEnd(t, q) - q);
    if TagAt(t, q) {
      TrySpacesNone(t, q + 4, SpaceEnd(t, q + 4) - (q + 4));
    }
  }

  lemma {:induction false} SearchSkips(t: string, i: nat, i0: nat)
    requires i <= i0 <= |t| && forall j: nat | i <= j < i0 :: !FenceAt(t, j)
    ensures Search(t, i) == Search(t, i0)
    decreases i0 - i
  {
    if i < i0 {
      SearchSkips(t, i + 1, i0);
    }
  }

  /** Without a fence from `m` on, no start position up from `m - 3` matches. */
  lemma {:induction false} SearchWithoutCloser(t: string, i: nat, m: nat)
    requires m <= i + 3 && forall j: nat | m <= j :: !FenceAt(t, j)
    ensures Search(t, i).None?
    decreases |t| + 1 - i
  {
    if i <= |t| {
      if FenceAt(t, i) {
        AfterOpenNone(t, i + 3);
      }
      SearchWithoutCloser(t, i + 1, m);
    }
  }

  /** `LeadingSpace` is the one count that ends the whitespace run. */
  lemma {:induction false} LeadingSpaceIs(s: string, n: nat)
    requires n <= |s| && AllSpace(s[..n]) && (n == |s| || !IsSpace(s[n]))
    ensures LeadingSpace(s) == n
    decreases n
  {
    if n > 0 {
      assert s[..n][0] == s[0];
      var rest := s[1..];
      var front := rest[..n - 1];
      forall j | 0 <= j < |front| ensures IsSpace(front[j]) {
        assert front[j] == s[..n][j + 1];
      }
      if n < |s| {
        assert rest[n - 1] == s[n];
      }
      LeadingSpaceIs(rest, n - 1);
    }
  }

  /** `TrailingSpace` is the one count that ends the trailing run. */
  lemma {:induction false} TrailingSpaceIs(s: string, n: nat)
    requires n <= |s| && AllSpace(s[|s| - n..]) && (n == |s| || !IsSpace(s[|s| - n - 1]))
    ensures TrailingSpace(s) == n
    decreases n
  {
    if n > 0 {
      assert s[|s| - n..][n - 1] == s[|s| - 1];
      var init := s[..|s| - 1];
      var back := init[|init| - (n - 1)..];
      forall j | 0 <= j < |back| ensures IsSpace(back[j]) {
        assert back[j] == s[|s| - n..][j];
      }
      if n < |s| {
        assert init[|init| - (n - 1) - 1] == s[|s| - n - 1];
      }
      TrailingSpaceIs(init, n - 1);
    }
  }

  /** The whitespace at the front of `t[p..k]` ends where the run at `p` does. */
  lemma LeadingOfSlice(t: string, p: nat, g: nat, k: nat)
    requires p <= g <= k <= |t| && SpacesBetween(t, p, g) && (g == k || !IsSpace(t[g]))
    ensures LeadingSpace(t[p..k]) == g - p
    ensures t[p..k][g - p..] == t[g..k]
  {
    var s := t[p..k];
    var front := s[..g - p];
    forall j | 0 <= j < |front| ensures IsSpace(front[j]) {
      assert front[j] == t[p + j];
    }
    if g < k {
      assert s[g - p] == t[g];
    }
    LeadingSpaceIs(s, g - p);
  }

  /** The whitespace at the back of `t[g..k]` starts where the body ends. */
  lemma TrailingOfSlice(t: string, g: nat, n: nat, k: nat)
    requires g <= n <= k <= |t| && SpacesBetween(t, n, k) && (n == g || !IsSpace(t[n - 1]))
    ensures TrailingSpace(t[g..k]) == k - n
    ensures t[g..k][..n - g] == t[g..n]
  {
    var s := t[g..k];
    var back := s[|s| - (k - n)..];
    forall j | 0 <= j < |back| ensures IsSpace(back[j]) {
      assert back[j] == t[n + j];
    }
    if n > g {
      assert s[|s| - (k - n) - 1] == t[n - 1];
    }
    TrailingSpaceIs(s, k - n);
  }

  /** The stripped text between `p` and the fence is the slice the engine
      returns. */
  lemma StripBody(t: string, p: nat, k: nat)
    requires p <= k <= |t| && SpaceEnd(t, p) <= k
    ensures Strip(t[p..k]) == t[SpaceEnd(t, p)..BodyEnd(t, SpaceEnd(t, p), k)]
  {
    var g := SpaceEnd(t, p);
    StripSlice(t, p, g, BodyEnd(t, g, k), k);
  }

  /** `t[p..k]` is whitespace up to `g`, the body up to `n`, whitespace up
      to `k`. */
  lemma StripSlice(t: string, p: nat, g: nat, n: nat, k: nat)
    requires p <= g <= n <= k <= |t|
    requires SpacesBetween(t, p, g) && (g == k || !IsSpace(t[g]))
    requires SpacesBetween(t, n, k) && (n == g || !IsSpace(t[n - 1]))
    ensures Strip(t[p..k]) == t[g..n]
  {
    LeadingOfSlice(t, p, g, k);
    TrailingOfSlice(t, g, n, k);
    StripUnfold(t[p..k], g - p, k - n, t[g..k], t[g..n]);
  }

  /** `Strip` from the lengths of the two whitespace runs. */
  lemma StripUnfold(s: string, i: nat, j: nat, u: string, m: string)
    requires i <= |s| && LeadingSpace(s) == i && s[i..] == u
    requires j <= |u| && TrailingSpace(u) == j && u[..|u| - j] == m
    ensures Strip(s) == m
  {
  }

  /** The body loses its tag exactly when the engine takes one. */
  lemma TagOfBody(t: string, q: nat, k: nat)
    requires q <= k <= |t|
    ensures DropTag(t[q..k]) == if TagAt(t, q) && q + 4 <= k then t[q + 4..k] else t[q..k]
    ensures TagAt(t, q) && FenceAt(t, k) ==> q + 4 <= k
  {
    var b := t[q..k];
    if |b| >= 4 {
      assert b[0] == t[q] && b[1] == t[q + 1] && b[2] == t[q + 2] && b[3] == t[q + 3];
    }
  }

  /** Without two fences the search finds nothing. */
  lemma SearchWithoutBody(t: string)
    requires FencedBody(t).None?
    ensures Search(t, 0).None?
  {
    match FirstFence(t, 0) {
      case None =>
        SearchWithoutCloser(t, 0, 0);
      case Some(i0) =>
        SearchSkips(t, 0, i0);
        AfterOpenNone(t, i0 + 3);
        SearchWithoutCloser(t, i0 + 1, i0 + 3);
    }
  }

  /** With two fences the search returns the body, stripped of its tag and of
      the whitespace around it. */
  lemma SearchWithBody(t: string, i0: nat, k: nat)
    requires FirstFence(t, 0) == Some(i0) && FirstFence(t, i0 + 3) == Some(k)
    ensures Search(t, 0).Some?
    ensures var (g, e) := Search(t, 0).value; t[g..e] == Strip(DropTag(t[i0 + 3..k]))
  {
    var q := i0 + 3;
    SearchSkips(t, 0, i0);
    AfterOpenFound(t, q, k);
    TagOfBody(t, q, k);
    var p := if TagAt(t, q) then q + 4 else q;
    StripBody(t, p, k);
  }

  /** The regular expression search returns what the plain reading says. */
  lemma CleanerIsFencedOrWhole(raw: string)
    ensures CleanJsonResponse(raw) == FencedOrWhole(raw)
  {
    var t := Strip(raw);
    if FencedBody(t).None? {
      SearchWithoutBody(t);
    } else {
      var i0 := FirstFence(t, 0).value;
      var k := FirstFence(t, i0 + 3).value;
      SearchWithBody(t, i0, k);
      var (g, e) := Search(t, 0).value;
      StripOfStripped(t[g..e]);
    }
  }

  /** The cleaned text never starts or ends with whitespace. */
  lemma CleanedIsStripped(raw: string)
    ensures var r := CleanJsonResponse(raw); r == [] || (!IsSpace(r[0]) && !IsSpace(r[|r| - 1]))
  {
  }
}
