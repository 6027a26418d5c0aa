/**
 * `MemInfo::from`: the four memory and swap figures of /proc/meminfo.  For
 * each label the pattern `<label>\s*(\d*)` matches at the label's first
 * occurrence; the digit run is a count of kB, scaled to bytes.
 */
module Meminfo {
  import opened Wrappers
  import opened Text
  import opened Numbers

  /** Byte counts; products are unbounded (see README, Left out). */
  datatype MemInfo = MemInfo(memory: nat, free: nat, swap: nat, swapFree: nat)

  const MemTotal := "MemTotal:"
  const MemFree := "MemFree:"
  const SwapTotal := "SwapTotal:"
  const SwapFree := "SwapFree:"
  const Labels: seq<string> := [MemTotal, MemFree, SwapTotal, SwapFree]

  /** Every label occurs, so that no `captures(..).unwrap()` fails. */
  predicate HasLabels(text: string) {
    forall k :: 0 <= k < |Labels| ==> IndexOf(text, Labels[k]).Some?
  }

  /** The `(\d*)` capture after the first occurrence of the label and the
      whitespace that follows it. */
  function Capture(text: string, tag: string): (c: string)
    requires IndexOf(text, tag).Some?
    ensures forall k :: 0 <= k < |c| ==> IsDigit(c[k])
  {
    var a := SpanFrom(text, IndexOf(text, tag).value + |tag|, IsSpace);
    var b := SpanFrom(text, a, IsDigit);
    text[a..b]
  }

  /** The field for one tag: `Ok(n) => n * 1024`, `Err(_) => 0`. */
  function LabelBytes(text: string, tag: string): nat
    requires IndexOf(text, tag).Some?
  {
    match ParseU64(Capture(text, tag))
    case Some(n) => n * 1024
    case None => 0
  }

  /** One pass of the loop in `MemInfo::from`, step by step as the source
      does it: match the label's pattern, then push the parsed capture times
      1024 or 0.  LabelBytes is the same value as one expression. */
  method ReadField(text: string, tag: string) returns (field: nat)
    requires IndexOf(text, tag).Some?
    ensures field == LabelBytes(text, tag)
  {
    var start := IndexOf(text, tag).value + |tag|;
    var a := SpanFrom(text, start, IsSpace);
    var b := SpanFrom(text, a, IsDigit);
    var data := text[a..b];
    match ParseU64(data) {
      case Some(n) => field := n * 1024;
      case None => field := 0;
    }
  }

  /** `MemInfo::from`: the loop over the four patterns pushing one field each. */
  method FromText(text: string) returns (info: MemInfo)
    requires HasLabels(text)
    ensures info.memory == LabelBytes(text, Labels[0])
    ensures info.free == LabelBytes(text, Labels[1])
    ensures info.swap == LabelBytes(text, Labels[2])
    ensures info.swapFree == LabelBytes(text, Labels[3])
  {
    var fields: seq<nat> := [];
    for k := 0 to |Labels|
      invariant |fields| == k
      invariant forall j :: 0 <= j < k ==> fields[j] == LabelBytes(text, Labels[j])
    {
      var field := ReadField(text, Labels[k]);
      fields := fields + [field];
    }
    info := MemInfo(fields[0], fields[1], fields[2], fields[3]);
  }

  /** The label does not occur before position n. */
  predicate NoneBefore(text: string, tag: string, n: nat) {
    forall k: nat :: k < n ==> !OccursAt(text, tag, k)
  }

  /** A label found after `pre`, and nowhere before, is first found there. */
  lemma FirstAt(text: string, tag: string, pre: string)
    requires |pre| + |tag| <= |text| && text[|pre|..|pre| + |tag|] == tag
    requires NoneBefore(text, tag, |pre|)
    ensures IndexOf(text, tag) == Some(|pre|)
  {
    assert OccursAt(text, tag, |pre|);
  }

  /** The capture is the digit run that follows the first occurrence of the
      label and its whitespace. */
  lemma CaptureOf(text: string, pre: string, tag: string, gap: string, digits: string, tail: string)
    requires text == pre + tag + gap + digits + tail
    requires AllSpace(gap)
    requires forall k :: 0 <= k < |digits| ==> IsDigit(digits[k])
    requires tail == [] || !IsDigit(tail[0])
    requires digits == [] ==> tail == [] || !IsSpace(tail[0])
    requires NoneBefore(text, tag, |pre|)
    ensures IndexOf(text, tag) == Some(|pre|)
    ensures Capture(text, tag) == digits
  {
    var a := |pre| + |tag| + |gap|;
    LabelFirstAt(text, pre, tag, gap, digits, tail);
    GapAfter(text, pre, tag, gap, digits, tail);
    DigitsAfter(text, pre, tag, gap, digits, tail);
    CaptureIs(text, tag, |pre|, a, a + |digits|);
  }

  lemma LabelFirstAt(text: string, pre: string, tag: string, gap: string, digits: string, tail: string)
    requires text == pre + tag + gap + digits + tail
    requires NoneBefore(text, tag, |pre|)
    ensures IndexOf(text, tag) == Some(|pre|)
  {
    assert text == (pre + tag) + (gap + digits + tail);
    assert text[|pre|..|pre| + |tag|] == tag;
    FirstAt(text, tag, pre);
  }

  lemma GapAfter(text: string, pre: string, tag: string, gap: string, digits: string, tail: string)
    requires text == pre + tag + gap + digits + tail
    requires AllSpace(gap)
    requires forall k :: 0 <= k < |digits| ==> IsDigit(digits[k])
    requires digits == [] ==> tail == [] || !IsSpace(tail[0])
    ensures SpanFrom(text, |pre| + |tag|, IsSpace) == |pre| + |tag| + |gap|
  {
    var rest := digits + tail;
    assert rest == [] || !IsSpace(rest[0]) by {
      if digits != [] {
        assert rest[0] == digits[0];
      } else {
        assert rest == tail;
      }
    }
    assert text == (pre + tag) + (gap + rest);
    assert text[|pre| + |tag|..] == gap + rest;
    SkipGap(text, |pre| + |tag|, gap, rest);
  }

  lemma DigitsAfter(text: string, pre: string, tag: string, gap: string, digits: string, tail: string)
    requires text == pre + tag + gap + digits + tail
    requires forall k :: 0 <= k < |digits| ==> IsDigit(digits[k])
    requires tail == [] || !IsDigit(tail[0])
    ensures SpanFrom(text, |pre| + |tag| + |gap|, IsDigit) == |pre| + |tag| + |gap| + |digits|
    ensures text[|pre| + |tag| + |gap|..|pre| + |tag| + |gap| + |digits|] == digits
  {
    var head := pre + tag + gap;
    assert text == head + (digits + tail);
    assert text[|head|..] == digits + tail;
    TakeDigits(text, |head|, digits, tail);
  }

  lemma CaptureIs(text: string, tag: string, i: nat, a: nat, b: nat)
    requires IndexOf(text, tag) == Some(i)
    requires SpanFrom(text, i + |tag|, IsSpace) == a
    requires a <= |text| && SpanFrom(text, a, IsDigit) == b
    ensures Capture(text, tag) == text[a..b]
  {
  }

  /** What a field reads from a meminfo line: for text in which the label first
      occurs after `pre` and is followed by whitespace and a digit run, the
      field is 1024 times the run's value; an empty run or one beyond u64
      gives 0. */
  lemma LabelBytesOf(text: string, pre: string, tag: string, gap: string, digits: string, tail: string)
    requires text == pre + tag + gap + digits + tail
    requires AllSpace(gap)
    requires forall k :: 0 <= k < |digits| ==> IsDigit(digits[k])
    requires tail == [] || !IsDigit(tail[0])
    requires digits == [] ==> tail == [] || !IsSpace(tail[0])
    requires NoneBefore(text, tag, |pre|)
    ensures IndexOf(text, tag).Some?
    ensures LabelBytes(text, tag) ==
      if digits != [] && NumeralValue(digits) < U64_LIMIT then NumeralValue(digits) * 1024 else 0
  {
    CaptureOf(text, pre, tag, gap, digits, tail);
  }

  lemma SkipGap(text: string, a0: nat, gap: string, rest: string)
    requires a0 + |gap| + |rest| == |text|
    requires text[a0..] == gap + rest
    requires AllSpace(gap)
    requires rest == [] || !IsSpace(rest[0])
    ensures SpanFrom(text, a0, IsSpace) == a0 + |gap|
  {
    var a := a0 + |gap|;
    forall k | a0 <= k < a ensures IsSpace(text[k]) {
      assert text[k] == text[a0..][k - a0] == gap[k - a0];
    }
    if a < |text| {
      assert text[a] == text[a0..][|gap|] == rest[0];
    }
    SpanFromIs(text, a0, a, IsSpace);
  }

  lemma TakeDigits(text: string, a: nat, digits: string, tail: string)
    requires a + |digits| + |tail| == |text|
    requires text[a..] == digits + tail
    requires forall k :: 0 <= k < |digits| ==> IsDigit(digits[k])
    requires tail == [] || !IsDigit(tail[0])
    ensures SpanFrom(text, a, IsDigit) == a + |digits|
    ensures text[a..a + |digits|] == digits
  {
    var b := a + |digits|;
    forall k | a <= k < b ensures IsDigit(text[k]) {
      assert text[k] == text[a..][k - a] == digits[k - a];
    }
    if b < |text| {
      assert text[b] == text[a..][|digits|] == tail[0];
    }
    SpanFromIs(text, a, b, IsDigit);
    assert text[a..b] == text[a..][..|digits|];
  }

  /** A line `MemTotal:     16384000 kB` yields 16384000 * 1024 bytes. */
  lemma LabelBytesOfDecimal(text: string, pre: string, tag: string, gap: string, n: nat, tail: string)
    requires text == pre + tag + gap + Decimal(n) + tail
    requires AllSpace(gap)
    requires tail == [] || !IsDigit(tail[0])
    requires NoneBefore(text, tag, |pre|)
    requires n < U64_LIMIT
    ensures IndexOf(text, tag).Some?
    ensures LabelBytes(text, tag) == n * 1024
  {
    LabelBytesOf(text, pre, tag, gap, Decimal(n), tail);
    DecimalValue(n);
  }
}
