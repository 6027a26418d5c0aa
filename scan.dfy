/**
 * The shape shared by the table parsers: walk the lines of a /proc file in
 * order and push one record for every line the pattern matches
 * (`for m in re.captures_iter(&text) { ... devices.push(record) }`).
 */
module Scan {

  /** The records of the kept lines, in file order. */
  function Keep<T>(lines: seq<string>, keep: string -> bool, f: string -> T): (r: seq<T>)
    ensures |r| <= |lines|
  {
    if lines == [] then []
    else
      var last := lines[|lines| - 1];
      Keep(lines[..|lines| - 1], keep, f) + (if keep(last) then [f(last)] else [])
  }

  /** One more line read: its record, if kept, goes after the others. */
  lemma KeepStep<T>(lines: seq<string>, i: nat, keep: string -> bool, f: string -> T)
    requires i < |lines|
    ensures Keep(lines[..i + 1], keep, f)
         == Keep(lines[..i], keep, f) + (if keep(lines[i]) then [f(lines[i])] else [])
  {
    assert lines[..i + 1][..i] == lines[..i];
  }

  /** The positions of the kept lines, in file order. */
  function KeptIndices(lines: seq<string>, keep: string -> bool): seq<nat> {
    if lines == [] then []
    else
      var last := |lines| - 1;
      KeptIndices(lines[..last], keep) + (if keep(lines[last]) then [last] else [])
  }

  /** The k-th record is built from the line at the k-th kept position. */
  lemma {:induction false} KeepAt<T>(lines: seq<string>, keep: string -> bool, f: string -> T)
    ensures |Keep(lines, keep, f)| == |KeptIndices(lines, keep)|
    ensures forall k :: 0 <= k < |KeptIndices(lines, keep)| ==>
      var i := KeptIndices(lines, keep)[k];
      i < |lines| && keep(lines[i]) && Keep(lines, keep, f)[k] == f(lines[i])
  {
    if lines != [] {
      var init := lines[..|lines| - 1];
      KeepAt(init, keep, f);
      var idx0, r0 := KeptIndices(init, keep), Keep(init, keep, f);
      var idx, r := KeptIndices(lines, keep), Keep(lines, keep, f);
      forall k | 0 <= k < |idx|
        ensures idx[k] < |lines| && keep(lines[idx[k]]) && r[k] == f(lines[idx[k]])
      {
        if k < |idx0| {
          assert idx[k] == idx0[k] && r[k] == r0[k];
          assert lines[idx0[k]] == init[idx0[k]];
        }
      }
    }
  }

  /** Kept positions increase and include every line that matches. */
  lemma {:induction false} KeptIndicesOrdered(lines: seq<string>, keep: string -> bool)
    ensures forall k :: 0 <= k < |KeptIndices(lines, keep)| ==> KeptIndices(lines, keep)[k] < |lines|
    ensures forall k, l :: 0 <= k < l < |KeptIndices(lines, keep)| ==>
      KeptIndices(lines, keep)[k] < KeptIndices(lines, keep)[l]
    ensures forall i :: 0 <= i < |lines| && keep(lines[i]) ==> i in KeptIndices(lines, keep)
  {
    if lines != [] {
      var init := lines[..|lines| - 1];
      KeptIndicesOrdered(init, keep);
      var idx0 := KeptIndices(init, keep);
      forall i | 0 <= i < |lines| - 1 && keep(lines[i]) ensures i in KeptIndices(lines, keep) {
        assert init[i] == lines[i];
      }
    }
  }

  /** One record per kept line and none for any other line, in file order:
      the k-th record is built from the k-th kept line. */
  lemma {:induction false} KeepInFileOrder<T>(lines: seq<string>, keep: string -> bool, f: string -> T)
    ensures var r, idx := Keep(lines, keep, f), KeptIndices(lines, keep);
      && |r| == |idx|
      && (forall k :: 0 <= k < |idx| ==> idx[k] < |lines| && keep(lines[idx[k]]) && r[k] == f(lines[idx[k]]))
      && (forall k, l :: 0 <= k < l < |idx| ==> idx[k] < idx[l])
      && (forall i :: 0 <= i < |lines| && keep(lines[i]) ==> i in idx)
  {
    KeepAt(lines, keep, f);
    KeptIndicesOrdered(lines, keep);
  }

  /** Nothing is kept from lines none of which match. */
  lemma {:induction false} KeepNothing<T>(lines: seq<string>, keep: string -> bool, f: string -> T)
    requires forall i :: 0 <= i < |lines| ==> !keep(lines[i])
    ensures Keep(lines, keep, f) == []
  {
    if lines != [] {
      var init := lines[..|lines| - 1];
      assert forall i :: 0 <= i < |init| ==> init[i] == lines[i];
      KeepNothing(init, keep, f);
    }
  }
}
