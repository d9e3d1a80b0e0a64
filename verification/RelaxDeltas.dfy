/** Byte deletions inside one input section, and the maps between the offsets before and after
    them. A `Cut` is the raw pair the relaxation pass emits; a `RelaxDelta` is the stored entry
    with its running total. */
module RelaxDeltas {
  import opened Arithmetic

  datatype Cut = Cut(offset: nat, bytes: nat)

  datatype RelaxDelta = RelaxDelta(inputOffset: nat, cumulativeDeleted: nat, bytesDeleted: nat)

  /******* What a list of cuts means *******/

  predicate Sorted(cuts: seq<Cut>) {
    forall i, j :: 0 <= i < j < |cuts| ==> cuts[i].offset < cuts[j].offset
  }

  predicate Disjoint(cuts: seq<Cut>) {
    forall i, j :: 0 <= i < j < |cuts| ==> cuts[i].offset + cuts[i].bytes <= cuts[j].offset
  }

  predicate HasCutAt(cuts: seq<Cut>, offset: nat) {
    exists i :: 0 <= i < |cuts| && cuts[i].offset == offset
  }

  /** Byte `y` of the input survives. */
  predicate Retained(cuts: seq<Cut>, y: nat) {
    forall i :: 0 <= i < |cuts| ==> !(cuts[i].offset <= y < cuts[i].offset + cuts[i].bytes)
  }

  /** `x` lies strictly inside a deleted range, so no output position corresponds to it. */
  predicate Interior(cuts: seq<Cut>, x: nat) {
    exists i :: 0 <= i < |cuts| && cuts[i].offset < x < cuts[i].offset + cuts[i].bytes
  }

  function Sum(cuts: seq<Cut>): nat {
    if cuts == [] then 0 else Sum(cuts[..|cuts| - 1]) + cuts[|cuts| - 1].bytes
  }

  /** Bytes removed by the cuts that start before `x`. */
  function DeletedBefore(cuts: seq<Cut>, x: nat): nat {
    if cuts == [] then 0
    else
      DeletedBefore(cuts[..|cuts| - 1], x) +
      if cuts[|cuts| - 1].offset < x then cuts[|cuts| - 1].bytes else 0
  }

  /** How many input bytes below `x` survive: the reference for the offset map. */
  function KeptBelow(cuts: seq<Cut>, x: nat): nat {
    if x == 0 then 0 else KeptBelow(cuts, x - 1) + if Retained(cuts, x - 1) then 1 else 0
  }

  lemma {:induction false} DeletedBeforeAll(cuts: seq<Cut>, x: nat)
    requires forall i :: 0 <= i < |cuts| ==> cuts[i].offset < x
    ensures DeletedBefore(cuts, x) == Sum(cuts)
  {
    if cuts != [] {
      DeletedBeforeAll(cuts[..|cuts| - 1], x);
    }
  }

  lemma {:induction false} DeletedBeforePrefix(cuts: seq<Cut>, x: nat, n: nat)
    requires n <= |cuts|
    requires forall i :: 0 <= i < n ==> cuts[i].offset < x
    requires forall i :: n <= i < |cuts| ==> x <= cuts[i].offset
    ensures DeletedBefore(cuts, x) == Sum(cuts[..n])
  {
    if n == |cuts| {
      assert cuts[..n] == cuts;
      DeletedBeforeAll(cuts, x);
    } else {
      DeletedBeforePrefix(cuts[..|cuts| - 1], x, n);
      assert cuts[..|cuts| - 1][..n] == cuts[..n];
    }
  }

  lemma {:induction false} DeletedBeforeAppend(cuts: seq<Cut>, c: Cut, x: nat)
    ensures DeletedBefore(cuts + [c], x) == DeletedBefore(cuts, x) + if c.offset < x then c.bytes else 0
  {
    assert (cuts + [c])[..|cuts|] == cuts;
  }

  lemma {:induction false} SumPrefixStep(cuts: seq<Cut>, i: nat)
    requires i < |cuts|
    ensures Sum(cuts[..i + 1]) == Sum(cuts[..i]) + cuts[i].bytes
  {
    assert cuts[..i + 1][..i] == cuts[..i];
  }

  /** One more cut behind all others removes exactly its own bytes from the count. */
  lemma {:induction false} KeptBelowSnoc(cuts: seq<Cut>, c: Cut, x: nat)
    requires Disjoint(cuts + [c])
    ensures KeptBelow(cuts + [c], x) ==
            KeptBelow(cuts, x) - (if x <= c.offset then 0 else Min(x - c.offset, c.bytes))
  {
    if x > 0 {
      KeptBelowSnoc(cuts, c, x - 1);
      var more := cuts + [c];
      assert forall i :: 0 <= i < |cuts| ==> more[i] == cuts[i];
      assert more[|cuts|] == c;
      assert Retained(more, x - 1) <==>
        Retained(cuts, x - 1) && !(c.offset <= x - 1 < c.offset + c.bytes);
      if c.offset <= x - 1 < c.offset + c.bytes {
        assert Retained(cuts, x - 1);
      }
    }
  }

  lemma {:induction false} KeptBelowNoCuts(x: nat)
    ensures KeptBelow([], x) == x
  {
    if x > 0 {
      KeptBelowNoCuts(x - 1);
    }
  }

  /** Subtracting the bytes cut before `x` counts the surviving bytes below `x` exactly when `x` does
      not lie inside a deleted range. */
  lemma {:induction false} SubtractionCountsKept(cuts: seq<Cut>, x: nat)
    requires Disjoint(cuts)
    ensures x - DeletedBefore(cuts, x) == KeptBelow(cuts, x) <==> !Interior(cuts, x)
  {
    if cuts == [] {
      KeptBelowNoCuts(x);
    } else {
      var init, c := cuts[..|cuts| - 1], cuts[|cuts| - 1];
      assert cuts == init + [c];
      InteriorSnoc(init, c, x);
      SubtractionCountsKept(init, x);
      KeptBelowSnoc(init, c, x);
      if c.offset < x {
        BehindIsNotInterior(init, c, x);
      }
    }
  }

  lemma {:induction false} InteriorSnoc(cuts: seq<Cut>, c: Cut, x: nat)
    ensures Interior(cuts + [c], x) <==> Interior(cuts, x) || c.offset < x < c.offset + c.bytes
  {
    var more := cuts + [c];
    assert more[|cuts|] == c;
    assert forall i :: 0 <= i < |cuts| ==> more[i] == cuts[i];
  }

  lemma {:induction false} BehindIsNotInterior(cuts: seq<Cut>, c: Cut, x: nat)
    requires Disjoint(cuts + [c]) && c.offset < x
    ensures !Interior(cuts, x)
  {
    var more := cuts + [c];
    forall i | 0 <= i < |cuts| ensures cuts[i].offset + cuts[i].bytes <= x {
      assert more[i] == cuts[i] && more[|cuts|] == c;
    }
  }

  lemma {:induction false} KeptBelowGrows(cuts: seq<Cut>, x: nat, y: nat)
    requires x <= y
    ensures KeptBelow(cuts, x) <= KeptBelow(cuts, y) <= KeptBelow(cuts, x) + (y - x)
    ensures x < y && Retained(cuts, x) ==> KeptBelow(cuts, x) < KeptBelow(cuts, y)
    decreases y
  {
    if x < y {
      KeptBelowGrows(cuts, x, y - 1);
    }
  }

  /******* Stored entries *******/

  function CutsOf(deltas: seq<RelaxDelta>): (cuts: seq<Cut>)
    ensures |cuts| == |deltas|
    ensures forall i :: 0 <= i < |deltas| ==>
                          cuts[i] == Cut(deltas[i].inputOffset, deltas[i].bytesDeleted)
  {
    seq(|deltas|, i requires 0 <= i < |deltas| => Cut(deltas[i].inputOffset, deltas[i].bytesDeleted))
  }

  /** The running total carried into entry `i`. */
  function CarriedInto(deltas: seq<RelaxDelta>, i: nat): nat
    requires i <= |deltas|
  {
    if i == 0 then 0 else deltas[i - 1].cumulativeDeleted
  }

  /** The stored form: strictly ascending, each entry carrying the total up to and including it. */
  predicate WellRecorded(deltas: seq<RelaxDelta>) {
    && Sorted(CutsOf(deltas))
    && forall i {:trigger CarriedInto(deltas, i)} :: 0 <= i < |deltas| ==>
         deltas[i].cumulativeDeleted == CarriedInto(deltas, i) + deltas[i].bytesDeleted
  }

  lemma {:induction false} CarriedIntoIsSum(deltas: seq<RelaxDelta>, n: nat)
    requires WellRecorded(deltas) && n <= |deltas|
    ensures CarriedInto(deltas, n) == Sum(CutsOf(deltas)[..n])
  {
    if n > 0 {
      CarriedIntoIsSum(deltas, n - 1);
      SumPrefixStep(CutsOf(deltas), n - 1);
      assert deltas[n - 1].cumulativeDeleted == CarriedInto(deltas, n - 1) + deltas[n - 1].bytesDeleted;
    }
  }

  predicate HasDeltaAt(deltas: seq<RelaxDelta>, offset: nat) {
    HasCutAt(CutsOf(deltas), offset)
  }

  /** `partition_point(|e| e.input_offset < x)`: the number of leading entries before `x`. */
  function PartitionPoint(deltas: seq<RelaxDelta>, x: nat): (idx: nat)
    ensures idx <= |deltas|
    ensures forall i :: 0 <= i < idx ==> deltas[i].inputOffset < x
    ensures idx < |deltas| ==> x <= deltas[idx].inputOffset
  {
    if deltas == [] || x <= deltas[0].inputOffset then 0 else 1 + PartitionPoint(deltas[1..], x)
  }

  /** The cumulative count of the last entry before `x`, or zero when there is none. */
  function CumulativeBefore(deltas: seq<RelaxDelta>, x: nat): nat {
    var idx := PartitionPoint(deltas, x);
    if idx == 0 then 0 else deltas[idx - 1].cumulativeDeleted
  }

  lemma {:induction false} CumulativeBeforeIsDeletedBefore(deltas: seq<RelaxDelta>, x: nat)
    requires WellRecorded(deltas)
    ensures CumulativeBefore(deltas, x) == DeletedBefore(CutsOf(deltas), x)
  {
    var idx := PartitionPoint(deltas, x);
    var cuts := CutsOf(deltas);
    forall i | idx <= i < |cuts|
      ensures x <= cuts[i].offset
    {
      if idx < i {
        assert cuts[idx].offset < cuts[i].offset;
      }
    }
    DeletedBeforePrefix(cuts, x, idx);
    CarriedIntoIsSum(deltas, idx);
  }

  function InputToOutput(deltas: seq<RelaxDelta>, x: nat): int {
    x - CumulativeBefore(deltas, x)
  }

  /** The output position just past entry `d`: `input_offset + bytes_deleted - cumulative_deleted`. */
  function ResumeAt(d: RelaxDelta): int {
    d.inputOffset + d.bytesDeleted - d.cumulativeDeleted
  }

  /** The number of leading entries whose resume position is at most `o`. */
  function ResumePoint(deltas: seq<RelaxDelta>, o: nat): (lo: nat)
    ensures lo <= |deltas|
    ensures forall i :: 0 <= i < lo ==> ResumeAt(deltas[i]) <= o
    ensures lo < |deltas| ==> o < ResumeAt(deltas[lo])
  {
    if deltas == [] || o < ResumeAt(deltas[0]) then 0 else 1 + ResumePoint(deltas[1..], o)
  }

  function OutputToInput(deltas: seq<RelaxDelta>, o: nat): nat {
    var lo := ResumePoint(deltas, o);
    if lo == 0 then o else o + deltas[lo - 1].cumulativeDeleted
  }

  lemma {:induction false} CumulativeStep(deltas: seq<RelaxDelta>, i: nat)
    requires WellRecorded(deltas) && i < |deltas|
    ensures deltas[i].cumulativeDeleted == CarriedInto(deltas, i) + deltas[i].bytesDeleted
  {
  }

  /** With disjoint cuts the resume positions ascend, so the search over them is well founded; the
      last entry resumed at or before `o` and the next entry's start bracket the input position. */
  lemma {:induction false} ResumeAscends(deltas: seq<RelaxDelta>, i: nat, j: nat)
    requires WellRecorded(deltas) && Disjoint(CutsOf(deltas))
    requires i <= j < |deltas|
    ensures ResumeAt(deltas[i]) <= ResumeAt(deltas[j])
    decreases j - i
  {
    if i < j {
      ResumeAscends(deltas, i, j - 1);
      CumulativeStep(deltas, j);
      assert CutsOf(deltas)[j - 1].offset + CutsOf(deltas)[j - 1].bytes <= CutsOf(deltas)[j].offset;
    }
  }

  lemma {:induction false} ResumePointIs(deltas: seq<RelaxDelta>, o: nat, lo: nat)
    requires lo <= |deltas|
    requires forall i :: 0 <= i < lo ==> ResumeAt(deltas[i]) <= o
    requires lo < |deltas| ==> o < ResumeAt(deltas[lo])
    ensures ResumePoint(deltas, o) == lo
  {
  }

  /** Entries that start before a surviving `x` end at or before it. */
  lemma {:induction false} RetainedBracket(deltas: seq<RelaxDelta>, x: nat)
    requires WellRecorded(deltas) && Disjoint(CutsOf(deltas)) && Retained(CutsOf(deltas), x)
    ensures InputToOutput(deltas, x) >= 0
    ensures var idx := PartitionPoint(deltas, x);
            && (forall i :: 0 <= i < idx ==> ResumeAt(deltas[i]) <= InputToOutput(deltas, x))
            && (idx < |deltas| && deltas[idx].inputOffset == x ==> deltas[idx].bytesDeleted == 0)
  {
    hide DeletedBefore, KeptBelow, PartitionPoint, Disjoint;
    var cuts := CutsOf(deltas);
    var idx := PartitionPoint(deltas, x);
    assert !Interior(cuts, x);
    SubtractionCountsKept(cuts, x);
    CumulativeBeforeIsDeletedBefore(deltas, x);
    forall i | 0 <= i < idx
      ensures ResumeAt(deltas[i]) <= InputToOutput(deltas, x)
    {
      assert cuts[idx - 1].offset < x;
      assert cuts[idx - 1].offset + cuts[idx - 1].bytes <= x;
      ResumeAscends(deltas, i, idx - 1);
    }
    if idx < |deltas| && deltas[idx].inputOffset == x {
      assert cuts[idx].offset == x;
    }
  }

  /** A surviving input byte comes back from its output position. */
  lemma {:induction false} InputRoundTrip(deltas: seq<RelaxDelta>, x: nat)
    requires WellRecorded(deltas) && Disjoint(CutsOf(deltas)) && Retained(CutsOf(deltas), x)
    ensures InputToOutput(deltas, x) >= 0
    ensures OutputToInput(deltas, InputToOutput(deltas, x)) == x
  {
    hide PartitionPoint, ResumePoint, Disjoint, Retained;
    RetainedBracket(deltas, x);
    var idx, o := PartitionPoint(deltas, x), InputToOutput(deltas, x);
    if idx < |deltas| {
      CumulativeStep(deltas, idx);
      if deltas[idx].inputOffset == x {
        // A zero-byte entry at `x` resumes exactly at `o` and adds nothing to the total.
        if idx + 1 < |deltas| {
          CumulativeStep(deltas, idx + 1);
          assert CutsOf(deltas)[idx].offset < CutsOf(deltas)[idx + 1].offset;
        }
        ResumePointIs(deltas, o, idx + 1);
      } else {
        ResumePointIs(deltas, o, idx);
      }
    } else {
      ResumePointIs(deltas, o, idx);
    }
  }

  /** The entries resumed at or before `o` end at or before the recovered input offset, the others
      start after it. */
  lemma {:induction false} RecoveredBracket(deltas: seq<RelaxDelta>, o: nat, i: nat)
    requires WellRecorded(deltas) && Disjoint(CutsOf(deltas)) && i < |deltas|
    ensures var lo, x := ResumePoint(deltas, o), OutputToInput(deltas, o);
            if i < lo then deltas[i].inputOffset + deltas[i].bytesDeleted <= x
            else x < deltas[i].inputOffset
  {
    var cuts := CutsOf(deltas);
    var lo := ResumePoint(deltas, o);
    if i < lo {
      assert ResumeAt(deltas[lo - 1]) <= o;
      if i < lo - 1 {
        assert cuts[i].offset + cuts[i].bytes <= cuts[lo - 1].offset;
      }
    } else {
      assert o < ResumeAt(deltas[lo]);
      CumulativeStep(deltas, lo);
      if lo < i {
        assert cuts[lo].offset < cuts[i].offset;
      }
    }
  }

  lemma {:induction false} RecoveredIsRetained(deltas: seq<RelaxDelta>, o: nat)
    requires WellRecorded(deltas) && Disjoint(CutsOf(deltas))
    ensures Retained(CutsOf(deltas), OutputToInput(deltas, o))
  {
    var cuts, x := CutsOf(deltas), OutputToInput(deltas, o);
    forall i | 0 <= i < |cuts|
      ensures !(cuts[i].offset <= x < cuts[i].offset + cuts[i].bytes)
    {
      RecoveredBracket(deltas, o, i);
    }
  }

  /** Every output position comes from one surviving input byte. */
  lemma {:induction false} OutputRoundTrip(deltas: seq<RelaxDelta>, o: nat)
    requires WellRecorded(deltas) && Disjoint(CutsOf(deltas))
    ensures Retained(CutsOf(deltas), OutputToInput(deltas, o))
    ensures InputToOutput(deltas, OutputToInput(deltas, o)) == o
  {
    hide Retained, Disjoint, PartitionPoint, ResumePoint;
    RecoveredIsRetained(deltas, o);
    var lo, x := ResumePoint(deltas, o), OutputToInput(deltas, o);
    var idx := PartitionPoint(deltas, x);
    if lo < idx {
      RecoveredBracket(deltas, o, lo);
    } else if idx < lo {
      // Only a zero-byte entry can end exactly at `x` without starting before it.
      RecoveredBracket(deltas, o, idx);
      RecoveredBracket(deltas, o, lo - 1);
      assert lo == idx + 1;
      CumulativeStep(deltas, idx);
    }
  }

  lemma {:induction false} CarriedGrows(deltas: seq<RelaxDelta>, i: nat, j: nat)
    requires WellRecorded(deltas) && i <= j <= |deltas|
    ensures CarriedInto(deltas, i) <= CarriedInto(deltas, j)
    ensures CarriedInto(deltas, i) == CarriedInto(deltas, j) <==>
            forall e :: i <= e < j ==> deltas[e].bytesDeleted == 0
    decreases j - i
  {
    if i < j {
      CarriedGrows(deltas, i, j - 1);
      CumulativeStep(deltas, j - 1);
    }
  }

  /** The subtraction of the forward map goes below zero exactly for the offsets that lie between the
      start of some entry and its running total. */
  lemma {:induction false} UnderflowsExactly(deltas: seq<RelaxDelta>, x: nat)
    requires WellRecorded(deltas)
    ensures InputToOutput(deltas, x) < 0 <==>
            exists i :: 0 <= i < |deltas| && deltas[i].inputOffset < x < deltas[i].cumulativeDeleted
  {
    var idx := PartitionPoint(deltas, x);
    hide PartitionPoint, WellRecorded;
    assert CumulativeBefore(deltas, x) == CarriedInto(deltas, idx);
    if i :| 0 <= i < |deltas| && deltas[i].inputOffset < x < deltas[i].cumulativeDeleted {
      assert i < idx by { StartsBeforeMeansCounted(deltas, x, i); }
      CarriedGrows(deltas, i + 1, idx);
    }
  }

  lemma {:induction false} StartsBeforeMeansCounted(deltas: seq<RelaxDelta>, x: nat, i: nat)
    requires WellRecorded(deltas) && i < |deltas|
    ensures deltas[i].inputOffset < x <==> i < PartitionPoint(deltas, x)
  {
    hide PartitionPoint;
    var cuts, idx := CutsOf(deltas), PartitionPoint(deltas, x);
    if idx < i {
      assert cuts[idx].offset < cuts[i].offset;
    }
  }

  /** It happens inside a deleted range at the start of a section. */
  lemma {:induction false} InteriorOffsetUnderflows()
    ensures var deltas := [RelaxDelta(0, 4, 4)];
            WellRecorded(deltas) && Interior(CutsOf(deltas), 1) && InputToOutput(deltas, 1) < 0
  {
    var deltas := [RelaxDelta(0, 4, 4)];
    var cuts := CutsOf(deltas);
    assert cuts[..1] == [Cut(0, 4)];
    assert cuts[0].offset < 1 < cuts[0].offset + cuts[0].bytes;
  }

  /******* Building and merging *******/

  /** `SectionRelaxDeltas::new`: attaches the running total to each raw pair. */
  method Record(raw: seq<Cut>) returns (deltas: seq<RelaxDelta>)
    requires Sorted(raw)
    ensures WellRecorded(deltas) && CutsOf(deltas) == raw
  {
    deltas := [];
    var running := 0;
    for i := 0 to |raw|
      invariant CutsOf(deltas) == raw[..i] && running == CarriedInto(deltas, i)
      invariant WellRecorded(deltas)
    {
      running := running + raw[i].bytes;
      ghost var before := deltas;
      deltas := deltas + [RelaxDelta(raw[i].offset, running, raw[i].bytes)];
      assert forall k :: 0 <= k <= i ==> CarriedInto(deltas, k) == CarriedInto(before, k);
      assert CutsOf(deltas) == raw[..i + 1];
    }
    assert raw[..|raw|] == raw;
  }

  function Insert(c: Cut, s: seq<Cut>): (r: seq<Cut>)
    requires Sorted(s) && !HasCutAt(s, c.offset)
    ensures Sorted(r)
    ensures forall x :: x in r <==> x == c || x in s
  {
    if s == [] || s[|s| - 1].offset < c.offset then s + [c]
    else
      var init, last := s[..|s| - 1], s[|s| - 1];
      assert s == init + [last];
      assert !HasCutAt(init, c.offset) by {
        assert forall i :: 0 <= i < |init| ==> s[i] == init[i];
      }
      assert last.offset != c.offset;
      var r := Insert(c, init) + [last];
      assert forall i :: 0 <= i < |r| - 1 ==> r[i] in Insert(c, init);
      r
  }

  predicate DistinctOffsets(cuts: seq<Cut>) {
    forall i, j :: 0 <= i < j < |cuts| ==> cuts[i].offset != cuts[j].offset
  }

  /** `sort_by_key(|(offset, _)| *offset)` on pairs whose offsets differ. */
  function SortByOffset(cuts: seq<Cut>): (r: seq<Cut>)
    requires DistinctOffsets(cuts)
    ensures Sorted(r)
    ensures forall x :: x in r <==> x in cuts
  {
    if cuts == [] then []
    else
      var init, last := cuts[..|cuts| - 1], cuts[|cuts| - 1];
      assert cuts == init + [last];
      var r := SortByOffset(init);
      assert forall i :: 0 <= i < |r| ==> r[i] in init;
      assert forall i :: 0 <= i < |init| ==> init[i].offset != last.offset;
      Insert(last, r)
  }

  lemma {:induction false} SortedLast(a: seq<Cut>, c: Cut)
    requires Sorted(a) && a != []
    ensures c in a ==> c.offset < a[|a| - 1].offset || c == a[|a| - 1]
    ensures c in a[..|a| - 1] <==> c in a && c != a[|a| - 1]
  {
    var init, last := a[..|a| - 1], a[|a| - 1];
    assert forall i :: 0 <= i < |init| ==> init[i] == a[i];
    if c in a {
      var i :| 0 <= i < |a| && a[i] == c;
      assert i < |a| - 1 ==> init[i] == c;
    }
    if c in init {
      var i :| 0 <= i < |init| && init[i] == c;
      assert a[i] == c;
    }
  }

  /** A strictly ascending list is determined by its elements. */
  lemma {:induction false} SortedIsUnique(a: seq<Cut>, b: seq<Cut>)
    requires Sorted(a) && Sorted(b)
    requires forall x :: x in a <==> x in b
    ensures a == b
    decreases |a|
  {
    if b != [] {
      assert b[0] in a;
    }
    if a != [] {
      assert a[0] in b;
      var la, lb := a[|a| - 1], b[|b| - 1];
      assert la in b && lb in a;
      SortedLast(a, lb);
      SortedLast(b, la);
      assert la == lb;
      var a', b' := a[..|a| - 1], b[..|b| - 1];
      forall x
        ensures x in a' <==> x in b'
      {
        SortedLast(a, x);
        SortedLast(b, x);
      }
      SortedIsUnique(a', b');
      assert a == a' + [la] && b == b' + [lb];
    }
  }

  /** The deletions recorded for one input section. */
  class SectionRelaxDeltas {
    var deltas: seq<RelaxDelta>

    constructor (raw: seq<Cut>)
      requires Sorted(raw)
      ensures WellRecorded(deltas) && CutsOf(deltas) == raw
    {
      new;
      deltas := Record(raw);
    }

    /** Adds the cuts of a later pass and recomputes every running total. */
    method MergeAdditional(additional: seq<Cut>)
      requires WellRecorded(deltas) && DistinctOffsets(CutsOf(deltas) + additional)
      modifies this
      ensures WellRecorded(deltas)
      ensures forall c :: c in CutsOf(deltas) <==> c in old(CutsOf(deltas)) || c in additional
    {
      if additional == [] {
        return;
      }
      var raw := SortByOffset(CutsOf(deltas) + additional);
      deltas := Record(raw);
    }
  }

  /******* The cursor *******/

  /** Translates offsets in one sweep instead of one search per offset. */
  class RelaxCursor {
    const deltas: seq<RelaxDelta>
    var index: nat
    var currentCumulative: nat

    ghost predicate Valid()
      reads this
    {
      index <= |deltas| && currentCumulative == CarriedInto(deltas, index)
    }

    constructor (deltas: seq<RelaxDelta>)
      ensures Valid() && index == 0 && this.deltas == deltas
    {
      this.deltas := deltas;
      index, currentCumulative := 0, 0;
    }

    method Translate(inputOffset: nat) returns (outputOffset: int)
      requires Valid()
      modifies this
      ensures Valid()
      ensures index == Max(old(index), PartitionPoint(deltas, inputOffset)) || !WellRecorded(deltas)
      ensures outputOffset == inputOffset - CarriedInto(deltas, index)
    {
      while index < |deltas| && deltas[index].inputOffset < inputOffset
        invariant Valid() && old(index) <= index
        invariant index > old(index) ==> deltas[index - 1].inputOffset < inputOffset
      {
        currentCumulative := deltas[index].cumulativeDeleted;
        index := index + 1;
      }
      outputOffset := inputOffset - currentCumulative;
      if WellRecorded(deltas) {
        PartitionPointIsUnique(deltas, inputOffset, index, old(index));
      }
    }
  }

  lemma {:induction false} PartitionPointIsUnique(deltas: seq<RelaxDelta>, x: nat, reached: nat, from: nat)
    requires WellRecorded(deltas)
    requires from <= reached <= |deltas|
    requires reached < |deltas| ==> x <= deltas[reached].inputOffset
    requires reached > from ==> deltas[reached - 1].inputOffset < x
    ensures reached == Max(from, PartitionPoint(deltas, x))
  {
    hide PartitionPoint;
    var cuts := CutsOf(deltas);
    assert Sorted(cuts);
  }

  /** The answers of one cursor to a list of queries, given the entry it stands at. */
  function CursorRun(deltas: seq<RelaxDelta>, index: nat, queries: seq<nat>): seq<int>
    requires index <= |deltas|
    decreases |queries|
  {
    if queries == [] then []
    else
      var next := Max(index, PartitionPoint(deltas, queries[0]));
      [queries[0] - CarriedInto(deltas, next)] + CursorRun(deltas, next, queries[1..])
  }

  /** Entry `e` deletes something and is passed on the way from query `x` back to query `y`. */
  predicate PassedGoingBack(deltas: seq<RelaxDelta>, e: nat, x: nat, y: nat)
    requires e < |deltas|
  {
    y <= deltas[e].inputOffset < x && deltas[e].bytesDeleted > 0
  }

  /** A cursor that stands at entry `index` answers a query as the independent search does exactly
      when nothing was deleted by the entries that it has consumed too many. */
  lemma {:induction false} CursorAnswerExact(deltas: seq<RelaxDelta>, index: nat, x: nat)
    requires WellRecorded(deltas) && index <= |deltas|
    ensures x - CarriedInto(deltas, Max(index, PartitionPoint(deltas, x))) == InputToOutput(deltas, x) <==>
            forall e :: PartitionPoint(deltas, x) <= e < index ==> deltas[e].bytesDeleted == 0
  {
    hide PartitionPoint;
    var idx := PartitionPoint(deltas, x);
    if idx < index {
      CarriedGrows(deltas, idx, index);
    }
  }

  /** No entry consumed before the queries, and none between an earlier and a later query, deletes
      anything the later one has to take back. */
  ghost predicate NothingTakenBack(deltas: seq<RelaxDelta>, index: nat, queries: seq<nat>)
    requires index <= |deltas|
  {
    && (forall i, e :: 0 <= i < |queries| && 0 <= e < index && queries[i] <= deltas[e].inputOffset ==>
          deltas[e].bytesDeleted == 0)
    && (forall i, j, e :: 0 <= i < j < |queries| && 0 <= e < |deltas| ==>
          !PassedGoingBack(deltas, e, queries[i], queries[j]))
  }

  ghost predicate AllAgree(deltas: seq<RelaxDelta>, index: nat, queries: seq<nat>)
    requires index <= |deltas|
  {
    var answers := CursorRun(deltas, index, queries);
    && |answers| == |queries|
    && forall i :: 0 <= i < |queries| ==> answers[i] == InputToOutput(deltas, queries[i])
  }

  lemma {:induction false} AllAgreeStep(deltas: seq<RelaxDelta>, index: nat, queries: seq<nat>)
    requires index <= |deltas| && queries != []
    ensures var next := Max(index, PartitionPoint(deltas, queries[0]));
            AllAgree(deltas, index, queries) <==>
            queries[0] - CarriedInto(deltas, next) == InputToOutput(deltas, queries[0])
            && AllAgree(deltas, next, queries[1..])
  {
    hide PartitionPoint, InputToOutput, CarriedInto;
    var next, rest := Max(index, PartitionPoint(deltas, queries[0])), queries[1..];
    var answers, tail := CursorRun(deltas, index, queries), CursorRun(deltas, next, rest);
    assert answers[1..] == tail;
    if AllAgree(deltas, index, queries) {
      forall i | 0 <= i < |rest| ensures tail[i] == InputToOutput(deltas, rest[i]) {
        assert answers[i + 1] == InputToOutput(deltas, queries[i + 1]);
      }
    }
    if AllAgree(deltas, next, rest) {
      forall i | 0 < i < |queries| ensures answers[i] == InputToOutput(deltas, queries[i]) {
        assert tail[i - 1] == InputToOutput(deltas, rest[i - 1]);
      }
    }
  }

  lemma {:induction false} NothingTakenBackStep(deltas: seq<RelaxDelta>, index: nat, queries: seq<nat>)
    requires WellRecorded(deltas) && index <= |deltas| && queries != []
    ensures var next := Max(index, PartitionPoint(deltas, queries[0]));
            NothingTakenBack(deltas, index, queries) <==>
            (forall e :: PartitionPoint(deltas, queries[0]) <= e < index ==> deltas[e].bytesDeleted == 0)
            && NothingTakenBack(deltas, next, queries[1..])
  {
    var first, rest := queries[0], queries[1..];
    var next := Max(index, PartitionPoint(deltas, first));
    forall e: nat | e < |deltas| ensures deltas[e].inputOffset < first <==> e < PartitionPoint(deltas, first) {
      StartsBeforeMeansCounted(deltas, first, e);
    }
    hide PartitionPoint, WellRecorded;
    if NothingTakenBack(deltas, index, queries) {
      forall i, e | 0 <= i < |rest| && 0 <= e < next && rest[i] <= deltas[e].inputOffset
        ensures deltas[e].bytesDeleted == 0
      {
        assert rest[i] == queries[i + 1];
        assert !PassedGoingBack(deltas, e, queries[0], queries[i + 1]);
      }
      forall i, j, e | 0 <= i < j < |rest| && 0 <= e < |deltas|
        ensures !PassedGoingBack(deltas, e, rest[i], rest[j])
      {
        assert !PassedGoingBack(deltas, e, queries[i + 1], queries[j + 1]);
      }
    }
    if NothingTakenBack(deltas, next, rest)
       && forall e :: PartitionPoint(deltas, first) <= e < index ==> deltas[e].bytesDeleted == 0 {
      forall i, e | 0 <= i < |queries| && 0 <= e < index && queries[i] <= deltas[e].inputOffset
        ensures deltas[e].bytesDeleted == 0
      {
        if i > 0 {
          assert queries[i] == rest[i - 1];
        }
      }
      forall i, j, e | 0 <= i < j < |queries| && 0 <= e < |deltas|
        ensures !PassedGoingBack(deltas, e, queries[i], queries[j])
      {
        assert queries[j] == rest[j - 1];
        if i > 0 {
          assert queries[i] == rest[i - 1];
          assert !PassedGoingBack(deltas, e, rest[i - 1], rest[j - 1]);
        }
      }
    }
  }

  /** The answers of a sweep are those of the independent search exactly when no query goes back past
      an entry that deletes something. */
  lemma {:induction false} CursorAgreesExactly(deltas: seq<RelaxDelta>, index: nat, queries: seq<nat>)
    requires WellRecorded(deltas) && index <= |deltas|
    ensures AllAgree(deltas, index, queries) <==> NothingTakenBack(deltas, index, queries)
    decreases |queries|
  {
    if queries != [] {
      hide AllAgree, NothingTakenBack, PartitionPoint, InputToOutput, WellRecorded;
      var next := Max(index, PartitionPoint(deltas, queries[0]));
      AllAgreeStep(deltas, index, queries);
      NothingTakenBackStep(deltas, index, queries);
      CursorAnswerExact(deltas, index, queries[0]);
      CursorAgreesExactly(deltas, next, queries[1..]);
    }
  }

  /** On ascending queries the sweep gives the answer of the independent search every time. */
  lemma {:induction false} CursorAgreesOnAscendingQueries(deltas: seq<RelaxDelta>, index: nat, queries: seq<nat>)
    requires index <= |deltas|
    requires forall i, j :: 0 <= i < j < |queries| ==> queries[i] <= queries[j]
    requires queries != [] ==> index <= PartitionPoint(deltas, queries[0])
    ensures AllAgree(deltas, index, queries)
    decreases |queries|
  {
    if queries != [] {
      hide PartitionPoint, AllAgree;
      var next, rest := PartitionPoint(deltas, queries[0]), queries[1..];
      if rest != [] {
        PartitionPointMonotone(deltas, queries[0], rest[0]);
      }
      CursorAgreesOnAscendingQueries(deltas, next, rest);
      AllAgreeStep(deltas, index, queries);
    }
  }

  lemma {:induction false} PartitionPointMonotone(deltas: seq<RelaxDelta>, x: nat, y: nat)
    requires x <= y
    ensures PartitionPoint(deltas, x) <= PartitionPoint(deltas, y)
  {
  }

  /** A query that goes back past an entry already consumed gets the wrong answer. */
  lemma {:induction false} CursorIsWrongGoingBack()
    ensures var deltas := [RelaxDelta(4, 4, 4)];
            CursorRun(deltas, 0, [8, 0]) == [4, -4] && InputToOutput(deltas, 0) == 0
  {
    var deltas := [RelaxDelta(4, 4, 4)];
    assert PartitionPoint(deltas, 8) == 1 by { assert PartitionPoint(deltas[1..], 8) == 0; }
    assert PartitionPoint(deltas, 0) == 0;
    assert [8, 0][1..] == [0];
    assert CursorRun(deltas, 1, [0]) == [-4] by { assert [0][1..] == []; }
  }
}
