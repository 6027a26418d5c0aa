/**
 * Character classes and the line tokenisation that the regular expressions of
 * the parsers perform on well-formed /proc text.  A greedy `p*` is SpanFrom,
 * the first place a literal occurs is IndexOf, and whitespace-separated
 * fields are Fields.  Characters are ASCII; `\s`, `\d` and `\w` are the ASCII
 * classes.
 */
module Text {
  import opened Wrappers

  /** `\s` */
  predicate IsSpace(c: char) {
    c == ' ' || c == '\t' || c == '\n' || c == '\r' || c == 11 as char || c == 12 as char
  }

  /** `\S` */
  predicate IsNonSpace(c: char) {
    !IsSpace(c)
  }

  /** `\d` */
  predicate IsDigit(c: char) {
    '0' <= c <= '9'
  }

  /** `\w` */
  predicate IsWordChar(c: char) {
    IsDigit(c) || 'a' <= c <= 'z' || 'A' <= c <= 'Z' || c == '_'
  }

  /** `.` (any character but a line feed) */
  predicate NotNewline(c: char) {
    c != '\n'
  }

  predicate AllSpace(s: string) {
    forall k :: 0 <= k < |s| ==> IsSpace(s[k])
  }

  predicate AllWordChars(s: string) {
    forall k :: 0 <= k < |s| ==> IsWordChar(s[k])
  }

  /** The end of the longest run of characters satisfying p that starts at i:
      what a greedy `p*` consumes from position i. */
  function SpanFrom(s: string, i: nat, p: char -> bool): (j: nat)
    requires i <= |s|
    ensures i <= j <= |s|
    ensures forall k :: i <= k < j ==> p(s[k])
    ensures j == |s| || !p(s[j])
    decreases |s| - i
  {
    if i == |s| || !p(s[i]) then i else SpanFrom(s, i + 1, p)
  }

  /** The two postconditions of SpanFrom determine its result. */
  lemma SpanFromIs(s: string, i: nat, j: nat, p: char -> bool)
    requires i <= j <= |s|
    requires forall k :: i <= k < j ==> p(s[k])
    requires j == |s| || !p(s[j])
    ensures SpanFrom(s, i, p) == j
  {
  }

  /** The start of the longest run of characters satisfying p that ends at j. */
  function SpanBack(s: string, j: nat, p: char -> bool): (i: nat)
    requires j <= |s|
    ensures i <= j
    ensures forall k :: i <= k < j ==> p(s[k])
    ensures i == 0 || !p(s[i - 1])
  {
    if j == 0 || !p(s[j - 1]) then j else SpanBack(s, j - 1, p)
  }

  /** The two postconditions of SpanBack determine its result. */
  lemma SpanBackIs(s: string, j: nat, i: nat, p: char -> bool)
    requires i <= j <= |s|
    requires forall k :: i <= k < j ==> p(s[k])
    requires i == 0 || !p(s[i - 1])
    ensures SpanBack(s, j, p) == i
  {
  }

  predicate OccursAt(s: string, pat: string, i: nat) {
    i + |pat| <= |s| && s[i..i + |pat|] == pat
  }

  /** The first position at or after `from` where `pat` occurs. */
  function IndexOfFrom(s: string, pat: string, from: nat): (r: Option<nat>)
    ensures r.Some? ==> from <= r.value && OccursAt(s, pat, r.value)
    ensures r.Some? ==> forall k :: from <= k < r.value ==> !OccursAt(s, pat, k)
    ensures r.None? ==> forall k :: from <= k ==> !OccursAt(s, pat, k)
    decreases |s| - from
  {
    if |s| < from + |pat| then None
    else if OccursAt(s, pat, from) then Some(from)
    else IndexOfFrom(s, pat, from + 1)
  }

  /** The first position where `pat` occurs: where an unanchored literal matches. */
  function IndexOf(s: string, pat: string): (r: Option<nat>)
    ensures r.Some? ==> OccursAt(s, pat, r.value) && forall k: nat :: k < r.value ==> !OccursAt(s, pat, k)
    ensures r.None? ==> forall k: nat :: !OccursAt(s, pat, k)
  {
    IndexOfFrom(s, pat, 0)
  }

  /** A field: a non-empty run of non-whitespace characters. */
  predicate IsToken(w: string) {
    |w| > 0 && forall k :: 0 <= k < |w| ==> !IsSpace(w[k])
  }

  /** The whitespace-separated fields of a line, in order. */
  function Fields(s: string): (fs: seq<string>)
    ensures forall k :: 0 <= k < |fs| ==> IsToken(fs[k])
    decreases |s|
  {
    var a := SpanFrom(s, 0, IsSpace);
    if a == |s| then []
    else
      var b := SpanFrom(s, a, IsNonSpace);
      assert IsNonSpace(s[a]);
      [s[a..b]] + Fields(s[b..])
  }

  /** The k-th field, or the empty capture when there are fewer fields. */
  function Nth(fs: seq<string>, k: nat): (w: string)
    ensures k < |fs| ==> w == fs[k]
    ensures |fs| <= k ==> w == ""
  {
    if k < |fs| then fs[k] else ""
  }

  /** A line laid out as fields, each preceded by its run of whitespace
      (`gaps[0]` may be empty, the other gaps may not). */
  function Spaced(gaps: seq<string>, ts: seq<string>): string
    requires |gaps| == |ts|
  {
    if ts == [] then "" else gaps[0] + ts[0] + Spaced(gaps[1..], ts[1..])
  }

  predicate GoodGaps(gaps: seq<string>) {
    (forall k :: 0 <= k < |gaps| ==> AllSpace(gaps[k])) &&
    (forall k :: 1 <= k < |gaps| ==> gaps[k] != [])
  }

  /** One step of tokenising: a gap, a field, and a rest that is empty or
      starts with whitespace. */
  lemma FieldsCons(g: string, t: string, rest: string)
    requires AllSpace(g) && IsToken(t)
    requires rest == [] || IsSpace(rest[0])
    ensures Fields(g + t + rest) == [t] + Fields(rest)
  {
    var s := g + t + rest;
    forall k | 0 <= k < |g| ensures IsSpace(s[k]) {
      assert s[k] == g[k];
    }
    assert s[|g|] == t[0];
    SpanFromIs(s, 0, |g|, IsSpace);
    forall k | |g| <= k < |g| + |t| ensures IsNonSpace(s[k]) {
      assert s[k] == t[k - |g|];
    }
    if rest != [] {
      assert s[|g| + |t|] == rest[0];
    }
    SpanFromIs(s, |g|, |g| + |t|, IsNonSpace);
    assert s[|g|..|g| + |t|] == t;
    assert s[|g| + |t|..] == rest;
  }

  /** Tokenising a laid-out line gives back its fields. */
  lemma {:induction false} FieldsSpaced(gaps: seq<string>, ts: seq<string>)
    requires |gaps| == |ts| && GoodGaps(gaps)
    requires forall k :: 0 <= k < |ts| ==> IsToken(ts[k])
    ensures Fields(Spaced(gaps, ts)) == ts
  {
    if ts != [] {
      var rest := Spaced(gaps[1..], ts[1..]);
      assert GoodGaps(gaps[1..]) by {
        forall k | 1 <= k < |gaps[1..]| ensures gaps[1..][k] != [] {
          assert gaps[1..][k] == gaps[k + 1];
        }
      }
      assert rest == [] || IsSpace(rest[0]) by {
        if ts[1..] != [] {
          assert rest == gaps[1] + ts[1] + Spaced(gaps[2..], ts[2..]);
          assert AllSpace(gaps[1]) && gaps[1] != [];
          assert rest[0] == gaps[1][0];
        }
      }
      FieldsCons(gaps[0], ts[0], rest);
      FieldsSpaced(gaps[1..], ts[1..]);
    }
  }
}
