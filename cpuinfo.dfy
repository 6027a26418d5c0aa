/**
 * `Process::cpu_info`: the processor model from /proc/cpuinfo.  The pattern
 * `model name\s*: (.*)` matches at the first place where "model name" is
 * followed by whitespace and ": "; the capture is the rest of that line.
 */
module Cpuinfo {
  import opened Wrappers
  import opened Text

  const ModelName := "model name"
  const Separator := ": "

  /** The pattern matches at position i. */
  predicate MatchAt(text: string, i: nat) {
    OccursAt(text, ModelName, i) && OccursAt(text, Separator, SpanFrom(text, i + |ModelName|, IsSpace))
  }

  /** The first match at or after `from`. */
  function FirstMatchFrom(text: string, from: nat): (r: Option<nat>)
    ensures r.Some? ==> from <= r.value && MatchAt(text, r.value)
    ensures r.Some? ==> forall k :: from <= k < r.value ==> !MatchAt(text, k)
    ensures r.None? ==> forall k :: from <= k ==> !MatchAt(text, k)
    decreases |text| - from
  {
    if |text| < from + |ModelName| then None
    else if MatchAt(text, from) then Some(from)
    else FirstMatchFrom(text, from + 1)
  }

  function FirstMatch(text: string): Option<nat> {
    FirstMatchFrom(text, 0)
  }

  /** Where the capture `(.*)` starts for the match at i. */
  function ValueStart(text: string, i: nat): (j: nat)
    requires MatchAt(text, i)
    ensures j <= |text| && j >= 2 && text[j - 2..j] == Separator
    ensures i + |ModelName| + |Separator| <= j
    ensures forall k :: i + |ModelName| <= k < j - |Separator| ==> IsSpace(text[k])
  {
    SpanFrom(text, i + |ModelName|, IsSpace) + |Separator|
  }

  /** `cpu_info`: the model name, or "" when the file cannot be read.  A
      readable file without a match is the `captures(..).unwrap()` panic, so
      it is excluded. */
  function CpuInfo(cpuinfo: Option<string>): (model: string)
    requires cpuinfo.Some? ==> FirstMatch(cpuinfo.value).Some?
    ensures cpuinfo.None? ==> model == ""
    ensures forall k :: 0 <= k < |model| ==> model[k] != '\n'
    ensures cpuinfo.Some? ==>
      var text, j := cpuinfo.value, ValueStart(cpuinfo.value, FirstMatch(cpuinfo.value).value);
      && j + |model| <= |text|
      && text[j..j + |model|] == model
      && (j + |model| == |text| || text[j + |model|] == '\n')
  {
    match cpuinfo
    case None => ""
    case Some(text) =>
      var start := ValueStart(text, FirstMatch(text).value);
      text[start..SpanFrom(text, start, NotNewline)]
  }

  /** What cpu_info reads from a cpuinfo line `model name<ws>: <value>`: the
      value, verbatim, when this is the first place the pattern matches. */
  lemma CpuInfoOf(text: string, pre: string, gap: string, value: string, tail: string)
    requires text == pre + ModelName + gap + Separator + value + tail
    requires AllSpace(gap)
    requires forall k :: 0 <= k < |value| ==> value[k] != '\n'
    requires tail == [] || tail[0] == '\n'
    requires forall k: nat :: k < |pre| ==> !MatchAt(text, k)
    ensures FirstMatch(text) == Some(|pre|)
    ensures CpuInfo(Some(text)) == value
  {
    MatchesAfter(text, pre, gap, value + tail);
    var start := |pre| + |ModelName| + |gap| + |Separator|;
    assert ValueStart(text, |pre|) == start;
    assert text == (pre + ModelName + gap + Separator) + (value + tail);
    RestOfLine(text, start, value, tail);
    CpuInfoIs(text, |pre|, start + |value|);
  }

  /** The pattern matches where "model name", whitespace and ": " follow `pre`. */
  lemma MatchesAfter(text: string, pre: string, gap: string, rest: string)
    requires text == pre + ModelName + gap + Separator + rest
    requires AllSpace(gap)
    requires forall k: nat :: k < |pre| ==> !MatchAt(text, k)
    ensures FirstMatch(text) == Some(|pre|)
    ensures ValueStart(text, |pre|) == |pre| + |ModelName| + |gap| + |Separator|
  {
    var a0 := |pre| + |ModelName|;
    var a := a0 + |gap|;
    var tail := Separator + rest;
    assert text == (pre + ModelName) + (gap + tail);
    assert text[|pre|..a0] == ModelName;
    forall k | a0 <= k < a ensures IsSpace(text[k]) {
      assert text[k] == gap[k - a0];
    }
    assert text[a] == ':';
    SpanFromIs(text, a0, a, IsSpace);
    assert text == (pre + ModelName + gap) + tail;
    assert text[a..a + |Separator|] == Separator;
    assert MatchAt(text, |pre|);
  }

  /** The `(.*)` capture from `start` is the rest of the line. */
  lemma RestOfLine(text: string, start: nat, value: string, tail: string)
    requires start + |value| + |tail| == |text| && text[start..] == value + tail
    requires forall k :: 0 <= k < |value| ==> value[k] != '\n'
    requires tail == [] || tail[0] == '\n'
    ensures SpanFrom(text, start, NotNewline) == start + |value|
    ensures text[start..start + |value|] == value
  {
    forall k | start <= k < start + |value| ensures NotNewline(text[k]) {
      assert text[k] == text[start..][k - start] == value[k - start];
    }
    if start + |value| < |text| {
      assert text[start + |value|] == text[start..][|value|] == tail[0];
    }
    SpanFromIs(text, start, start + |value|, NotNewline);
    assert text[start..start + |value|] == text[start..][..|value|];
  }

  lemma CpuInfoIs(text: string, i: nat, b: nat)
    requires FirstMatch(text) == Some(i)
    requires ValueStart(text, i) <= b <= |text|
    requires SpanFrom(text, ValueStart(text, i), NotNewline) == b
    ensures CpuInfo(Some(text)) == text[ValueStart(text, i)..b]
  {
  }
}
