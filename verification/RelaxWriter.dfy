/** Copying a section's bytes around its deleted ranges, and the agreement of the copy with the
    offset maps. */
module RelaxWriter {
  import opened Arithmetic
  import opened RelaxDeltas

  /** The surviving bytes among the first `n`: the reference for the copy. */
  function Compact(input: seq<byte>, cuts: seq<Cut>, n: nat): (r: seq<byte>)
    requires n <= |input|
    ensures |r| == KeptBelow(cuts, n)
  {
    if n == 0 then []
    else Compact(input, cuts, n - 1) + if Retained(cuts, n - 1) then [input[n - 1]] else []
  }

  lemma {:induction false} CompactRetainedRange(input: seq<byte>, cuts: seq<Cut>, a: nat, b: nat)
    requires a <= b <= |input|
    requires forall y :: a <= y < b ==> Retained(cuts, y)
    ensures Compact(input, cuts, b) == Compact(input, cuts, a) + input[a..b]
    ensures KeptBelow(cuts, b) == KeptBelow(cuts, a) + (b - a)
    decreases b
  {
    if a < b {
      CompactRetainedRange(input, cuts, a, b - 1);
      assert Retained(cuts, b - 1);
      assert input[a..b] == input[a..b - 1] + [input[b - 1]];
    }
  }

  lemma {:induction false} CompactDeletedRange(input: seq<byte>, cuts: seq<Cut>, a: nat, b: nat)
    requires a <= b <= |input|
    requires forall y :: a <= y < b ==> !Retained(cuts, y)
    ensures Compact(input, cuts, b) == Compact(input, cuts, a)
    decreases b
  {
    if a < b {
      CompactDeletedRange(input, cuts, a, b - 1);
      assert !Retained(cuts, b - 1);
    }
  }

  /** Where the bytes between two cuts start. */
  function ResumeInput(cuts: seq<Cut>, i: nat): nat
    requires i <= |cuts|
  {
    if i == 0 then 0 else cuts[i - 1].offset + cuts[i - 1].bytes
  }

  ghost predicate Inside(cuts: seq<Cut>, size: nat) {
    Disjoint(cuts) && forall i :: 0 <= i < |cuts| ==> cuts[i].offset + cuts[i].bytes <= size
  }

  /** Nothing is deleted between the end of one cut and the start of the next. */
  lemma {:induction false} BetweenCuts(cuts: seq<Cut>, i: nat, y: nat)
    requires Disjoint(cuts) && i <= |cuts| && ResumeInput(cuts, i) <= y
    requires i < |cuts| ==> y < cuts[i].offset
    ensures Retained(cuts, y)
  {
    forall j | 0 <= j < |cuts|
      ensures !(cuts[j].offset <= y < cuts[j].offset + cuts[j].bytes)
    {
      if j < i - 1 {
        assert cuts[j].offset + cuts[j].bytes <= cuts[i - 1].offset;
      } else if i < j {
        assert cuts[i].offset + cuts[i].bytes <= cuts[j].offset;
      }
    }
  }

  lemma {:induction false} CopyStep(input: seq<byte>, cuts: seq<Cut>, i: nat)
    requires Inside(cuts, |input|) && i < |cuts|
    ensures ResumeInput(cuts, i) <= cuts[i].offset
    ensures Compact(input, cuts, ResumeInput(cuts, i + 1))
            == Compact(input, cuts, ResumeInput(cuts, i)) + input[ResumeInput(cuts, i)..cuts[i].offset]
    ensures KeptBelow(cuts, ResumeInput(cuts, i + 1))
            == KeptBelow(cuts, ResumeInput(cuts, i)) + (cuts[i].offset - ResumeInput(cuts, i))
  {
    var from, start, end := ResumeInput(cuts, i), cuts[i].offset, ResumeInput(cuts, i + 1);
    forall y | from <= y < start
      ensures Retained(cuts, y)
    {
      BetweenCuts(cuts, i, y);
    }
    CompactRetainedRange(input, cuts, from, start);
    forall y | start <= y < end
      ensures !Retained(cuts, y)
    {
      assert cuts[i].offset <= y < cuts[i].offset + cuts[i].bytes;
    }
    CompactDeletedRange(input, cuts, start, end);
  }

  lemma {:induction false} NothingCopied(input: seq<byte>, cuts: seq<Cut>)
    ensures Compact(input, cuts, 0) == [] && KeptBelow(cuts, 0) == 0
  {
  }

  lemma {:induction false} LastCopyStep(input: seq<byte>, cuts: seq<Cut>)
    requires Inside(cuts, |input|)
    ensures ResumeInput(cuts, |cuts|) <= |input|
    ensures Compact(input, cuts, |input|)
            == Compact(input, cuts, ResumeInput(cuts, |cuts|)) + input[ResumeInput(cuts, |cuts|)..|input|]
    ensures KeptBelow(cuts, |input|)
            == KeptBelow(cuts, ResumeInput(cuts, |cuts|)) + (|input| - ResumeInput(cuts, |cuts|))
  {
    hide KeptBelow, Compact, Disjoint, Retained;
    var from := ResumeInput(cuts, |cuts|);
    forall y | from <= y < |input|
      ensures Retained(cuts, y)
    {
      BetweenCuts(cuts, |cuts|, y);
    }
    CompactRetainedRange(input, cuts, from, |input|);
  }

  /** Writes the surviving bytes to the front of `out` and returns how many there are. */
  method WriteRelaxed(out: array<byte>, input: seq<byte>, deltas: seq<RelaxDelta>)
    returns (outputPos: nat)
    requires Inside(CutsOf(deltas), |input|)
    requires out.Length >= KeptBelow(CutsOf(deltas), |input|)
    modifies out
    ensures outputPos == KeptBelow(CutsOf(deltas), |input|)
    ensures out[..outputPos] == Compact(input, CutsOf(deltas), |input|)
    ensures out[outputPos..] == old(out[outputPos..])
  {
    hide KeptBelow, Compact, Disjoint, Retained;
    ghost var cuts := CutsOf(deltas);
    NothingCopied(input, cuts);
    var inputPos: nat := 0;
    outputPos := 0;
    for i := 0 to |deltas|
      invariant inputPos == ResumeInput(cuts, i) <= |input|
      invariant outputPos == KeptBelow(cuts, inputPos)
      invariant outputPos <= out.Length && out[..outputPos] == Compact(input, cuts, inputPos)
      invariant out[outputPos..] == old(out[outputPos..])
    {
      var skipStart := deltas[i].inputOffset;
      CopyStep(input, cuts, i);
      KeptBelowGrows(cuts, ResumeInput(cuts, i + 1), |input|);
      outputPos := CopyBytes(out, outputPos, input, inputPos, skipStart);
      inputPos := skipStart + deltas[i].bytesDeleted;
    }
    LastCopyStep(input, cuts);
    outputPos := CopyBytes(out, outputPos, input, inputPos, |input|);
  }

  /** `out[at..].copy_from_slice(&input[from..to])`. */
  method CopyBytes(out: array<byte>, at: nat, input: seq<byte>, from: nat, to: nat)
    returns (end: nat)
    requires from <= to <= |input| && at + (to - from) <= out.Length
    modifies out
    ensures end == at + (to - from)
    ensures out[..end] == old(out[..at]) + input[from..to]
    ensures out[end..] == old(out[end..])
  {
    end := at + (to - from);
    forall k | 0 <= k < to - from {
      out[at + k] := input[from + k];
    }
    assert out[..end] == old(out[..at]) + input[from..to];
  }

  /** A surviving byte is found in the copy at the position the offset map gives. */
  lemma {:induction false} RetainedByteLands(input: seq<byte>, cuts: seq<Cut>, x: nat, n: nat)
    requires x < n <= |input| && Retained(cuts, x)
    ensures KeptBelow(cuts, x) < KeptBelow(cuts, n)
    ensures Compact(input, cuts, n)[KeptBelow(cuts, x)] == input[x]
    decreases n
  {
    KeptBelowGrows(cuts, x, n);
    if x < n - 1 {
      RetainedByteLands(input, cuts, x, n - 1);
    }
  }

  /** The relaxed section and the two maps agree: every output byte is the input byte the inverse map
      names, and every surviving input byte is the output byte the forward map names. */
  lemma {:induction false} RelaxedSectionAgrees(input: seq<byte>, deltas: seq<RelaxDelta>)
    requires WellRecorded(deltas) && Inside(CutsOf(deltas), |input|)
    ensures var out := Compact(input, CutsOf(deltas), |input|);
            && (forall x :: 0 <= x < |input| && Retained(CutsOf(deltas), x) ==>
                  0 <= InputToOutput(deltas, x) < |out| && out[InputToOutput(deltas, x)] == input[x])
            && (forall o: nat :: o < |out| ==>
                  OutputToInput(deltas, o) < |input| && out[o] == input[OutputToInput(deltas, o)])
  {
    var cuts := CutsOf(deltas);
    var out := Compact(input, cuts, |input|);
    forall x | 0 <= x < |input| && Retained(cuts, x)
      ensures 0 <= InputToOutput(deltas, x) < |out| && out[InputToOutput(deltas, x)] == input[x]
    {
      ForwardMapCounts(deltas, x);
      RetainedByteLands(input, cuts, x, |input|);
    }
    forall o: nat | o < |out|
      ensures OutputToInput(deltas, o) < |input| && out[o] == input[OutputToInput(deltas, o)]
    {
      var x := OutputToInput(deltas, o);
      OutputRoundTrip(deltas, o);
      ForwardMapCounts(deltas, x);
      if x >= |input| {
        KeptBelowGrows(cuts, |input|, x);
      } else {
        RetainedByteLands(input, cuts, x, |input|);
      }
    }
  }

  lemma {:induction false} ForwardMapCounts(deltas: seq<RelaxDelta>, x: nat)
    requires WellRecorded(deltas) && Disjoint(CutsOf(deltas)) && Retained(CutsOf(deltas), x)
    ensures InputToOutput(deltas, x) == KeptBelow(CutsOf(deltas), x)
  {
    assert !Interior(CutsOf(deltas), x);
    SubtractionCountsKept(CutsOf(deltas), x);
    CumulativeBeforeIsDeletedBefore(deltas, x);
  }
}
