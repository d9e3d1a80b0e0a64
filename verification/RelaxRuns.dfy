/** Repeated relaxation passes over one section: what every pass keeps, where alignment sleds end
    up, and when a run must stop deleting. */
module RelaxRuns {
  import opened Arithmetic
  import opened RelaxDeltas
  import opened RelaxScan
  import opened Wrappers

  /******* Merging a pass into the earlier ones *******/

  ghost predicate Complete(rels: seq<Relocation>, ds: seq<Decision>) {
    AllAdmissible(rels, ds) && |ds| == |rels|
  }

  /** The decisions of one pass over a section that earlier passes left in state `prior`. */
  function Fresh(scan: Scan, prior: seq<Decision>): (ds: seq<Decision>)
    requires |prior| <= |scan.rels|
    ensures |ds| == |scan.rels|
  {
    Decisions(scan, Flatten(scan.rels, prior), |scan.rels|)
  }

  function Combine(prior: seq<Decision>, added: seq<Decision>): (ds: seq<Decision>)
    requires |prior| == |added|
    ensures |ds| == |prior|
    ensures forall k :: 0 <= k < |ds| ==> ds[k] == if prior[k] != Keep then prior[k] else added[k]
  {
    seq(|prior|, k requires 0 <= k < |prior| => if prior[k] != Keep then prior[k] else added[k])
  }

  /** No relocation is cut twice. */
  ghost predicate Exclusive(a: seq<Decision>, b: seq<Decision>) {
    |a| == |b| && forall k :: 0 <= k < |a| ==> a[k] == Keep || b[k] == Keep
  }

  lemma {:induction false} FreshIsExclusive(scan: Scan, prior: seq<Decision>)
    requires WellFormed(scan.rels) && Complete(scan.rels, prior)
    ensures Complete(scan.rels, Fresh(scan, prior))
    ensures Exclusive(prior, Fresh(scan, prior))
    ensures Complete(scan.rels, Combine(prior, Fresh(scan, prior)))
  {
    var cuts, n := Flatten(scan.rels, prior), |scan.rels|;
    DecisionsAdmissible(scan, cuts, n);
    forall k | 0 <= k < n
      ensures prior[k] == Keep || Fresh(scan, prior)[k] == Keep
    {
      DecisionAt(scan, cuts, k, n);
      CutAtMostOnce(scan, prior, k, Removed(Decisions(scan, cuts, k)));
    }
  }

  lemma {:induction false} CombineMembers(rels: seq<Relocation>, a: seq<Decision>, b: seq<Decision>, c: Cut)
    requires |a| == |rels| && Exclusive(a, b)
    ensures c in Flatten(rels, Combine(a, b)) <==> c in Flatten(rels, a) || c in Flatten(rels, b)
  {
    var ab := Combine(a, b);
    FlattenMembers(rels, a, c);
    FlattenMembers(rels, b, c);
    FlattenMembers(rels, ab, c);
    forall k | 0 <= k < |rels|
      ensures CutFor(rels[k], ab[k]) == [c] <==>
              CutFor(rels[k], a[k]) == [c] || CutFor(rels[k], b[k]) == [c]
    {
      assert a[k] == Keep || b[k] == Keep;
    }
  }

  lemma {:induction false} CombineRemoved(a: seq<Decision>, b: seq<Decision>, n: nat)
    requires Exclusive(a, b) && n <= |a|
    ensures Removed(Combine(a, b)[..n]) == Removed(a[..n]) + Removed(b[..n])
  {
    if n > 0 {
      CombineRemoved(a, b, n - 1);
      assert Combine(a, b)[..n][..n - 1] == Combine(a, b)[..n - 1];
      assert a[..n][..n - 1] == a[..n - 1];
      assert b[..n][..n - 1] == b[..n - 1];
      assert a[n - 1] == Keep || b[n - 1] == Keep;
    }
  }

  /** Everything a single pass promises about its cuts: strictly ascending, disjoint from each other
      and from all earlier ones, each inside the footprint of its own relocation, and the merged
      list is again the flattening of one decision per relocation. */
  lemma {:induction false} PassKeepsInvariant(scan: Scan, prior: seq<Decision>)
    requires WellFormed(scan.rels) && Complete(scan.rels, prior)
    ensures var added := Fresh(scan, prior);
            var earlier, cuts := Flatten(scan.rels, prior), Flatten(scan.rels, added);
            && Sorted(cuts) && Disjoint(cuts)
            && DistinctOffsets(earlier + cuts)
            && SortByOffset(earlier + cuts) == Flatten(scan.rels, Combine(prior, added))
            && Disjoint(SortByOffset(earlier + cuts))
    ensures forall k :: 0 <= k < |scan.rels| && Fresh(scan, prior)[k] != Keep ==>
              var c := CutFor(scan.rels[k], Fresh(scan, prior)[k]);
              && |c| == 1
              && scan.rels[k].offset <= c[0].offset
              && c[0].offset + c[0].bytes <= scan.rels[k].offset + scan.rels[k].Footprint()
  {
    var rels, added := scan.rels, Fresh(scan, prior);
    var earlier, cuts := Flatten(rels, prior), Flatten(rels, added);
    FreshIsExclusive(scan, prior);
    FlattenIsSortedAndDisjoint(rels, prior);
    FlattenIsSortedAndDisjoint(rels, added);
    FlattenIsSortedAndDisjoint(rels, Combine(prior, added));
    CutsDoNotMeet(rels, prior, added);
    var merged := SortByOffset(earlier + cuts);
    forall c
      ensures c in merged <==> c in Flatten(rels, Combine(prior, added))
    {
      CombineMembers(rels, prior, added, c);
    }
    SortedIsUnique(merged, Flatten(rels, Combine(prior, added)));
    forall k | 0 <= k < |rels| && added[k] != Keep
      ensures |CutFor(rels[k], added[k])| == 1
      ensures rels[k].offset <= CutFor(rels[k], added[k])[0].offset
      ensures CutFor(rels[k], added[k])[0].offset + CutFor(rels[k], added[k])[0].bytes
              <= rels[k].offset + rels[k].Footprint()
    {
      CutInFootprint(rels[k], added[k]);
    }
  }

  lemma {:induction false} CutsDoNotMeet(rels: seq<Relocation>, a: seq<Decision>, b: seq<Decision>)
    requires WellFormed(rels) && Complete(rels, a) && Complete(rels, b) && Exclusive(a, b)
    ensures DistinctOffsets(Flatten(rels, a) + Flatten(rels, b))
  {
    hide WellFormed, Exclusive;
    var earlier, cuts := Flatten(rels, a), Flatten(rels, b);
    FlattenIsSortedAndDisjoint(rels, a);
    FlattenIsSortedAndDisjoint(rels, b);
    forall i, j | 0 <= i < |earlier| && 0 <= j < |cuts|
      ensures earlier[i].offset != cuts[j].offset
    {
      CutsApart(rels, a, b, earlier[i], cuts[j]);
    }
    ApartIsDistinct(earlier, cuts);
  }

  lemma {:induction false} CutsApart(rels: seq<Relocation>, a: seq<Decision>, b: seq<Decision>, x: Cut, y: Cut)
    requires WellFormed(rels) && Complete(rels, a) && Complete(rels, b) && Exclusive(a, b)
    requires x in Flatten(rels, a) && y in Flatten(rels, b)
    ensures x.offset != y.offset
  {
    FlattenMembers(rels, a, x);
    FlattenMembers(rels, b, y);
    var k :| 0 <= k < |a| && CutFor(rels[k], a[k]) == [x];
    var l :| 0 <= l < |b| && CutFor(rels[l], b[l]) == [y];
    CutInFootprint(rels[k], a[k]);
    CutInFootprint(rels[l], b[l]);
    assert k != l;
  }

  lemma {:induction false} ApartIsDistinct(a: seq<Cut>, b: seq<Cut>)
    requires Sorted(a) && Disjoint(a) && Sorted(b) && Disjoint(b)
    requires forall i, j :: 0 <= i < |a| && 0 <= j < |b| ==> a[i].offset != b[j].offset
    ensures DistinctOffsets(a + b)
  {
    var all := a + b;
    forall i, j | 0 <= i < j < |all|
      ensures all[i].offset != all[j].offset
    {
      if j < |a| {
        assert all[i] == a[i] && all[j] == a[j];
      } else if i < |a| {
        assert all[i] == a[i] && all[j] == b[j - |a|];
      } else {
        assert all[i] == b[i - |a|] && all[j] == b[j - |a|];
      }
    }
  }

  /** One pass over a section, recorded in place. */
  method ScanSection(scan: Scan, d: SectionRelaxDeltas, ghost prior: seq<Decision>)
    returns (margin: Option<int>)
    requires WellFormed(scan.rels) && Complete(scan.rels, prior)
    requires WellRecorded(d.deltas) && CutsOf(d.deltas) == Flatten(scan.rels, prior)
    modifies d
    ensures WellRecorded(d.deltas) && Disjoint(CutsOf(d.deltas))
    ensures CutsOf(d.deltas) == Flatten(scan.rels, Combine(prior, Fresh(scan, prior)))
    ensures IsLeastMargin(Outcomes(scan, Flatten(scan.rels, prior), |scan.rels|), margin)
  {
    var rawDeltas;
    rawDeltas, margin := CollectRelaxationDeltas(scan, Some(d.deltas), prior);
    PassKeepsInvariant(scan, prior);
    ghost var merged := SortByOffset(CutsOf(d.deltas) + rawDeltas);
    d.MergeAdditional(rawDeltas);
    SortedIsUnique(CutsOf(d.deltas), merged);
  }

  /******* Runs of passes *******/

  ghost predicate SameSection(scans: seq<Scan>, rels: seq<Relocation>) {
    forall t :: 0 <= t < |scans| ==> scans[t].rels == rels
  }

  /** The decisions in force after all the passes of `scans`, starting from an untouched section. */
  function After(scans: seq<Scan>, rels: seq<Relocation>): (ds: seq<Decision>)
    requires SameSection(scans, rels)
    ensures |ds| == |rels|
  {
    if scans == [] then seq(|rels|, k => Keep)
    else
      var prior := After(scans[..|scans| - 1], rels);
      Combine(prior, Fresh(scans[|scans| - 1], prior))
  }

  function CutCount(ds: seq<Decision>): nat {
    if ds == [] then 0
    else CutCount(ds[..|ds| - 1]) + if ds[|ds| - 1] != Keep then 1 else 0
  }

  /** How many passes of the run returned at least one delta. */
  function BusyPasses(scans: seq<Scan>, rels: seq<Relocation>): nat
    requires SameSection(scans, rels)
  {
    if scans == [] then 0
    else
      var earlier, last := scans[..|scans| - 1], scans[|scans| - 1];
      BusyPasses(earlier, rels) +
      if Flatten(rels, Fresh(last, After(earlier, rels))) != [] then 1 else 0
  }

  lemma {:induction false} RunKeepsInvariant(scans: seq<Scan>, rels: seq<Relocation>)
    requires WellFormed(rels) && SameSection(scans, rels)
    ensures Complete(rels, After(scans, rels))
  {
    if scans != [] {
      var earlier, last := scans[..|scans| - 1], scans[|scans| - 1];
      RunKeepsInvariant(earlier, rels);
      FreshIsExclusive(last, After(earlier, rels));
    }
  }

  lemma {:induction false} CombineCount(a: seq<Decision>, b: seq<Decision>)
    requires Exclusive(a, b)
    ensures CutCount(Combine(a, b)) == CutCount(a) + CutCount(b)
  {
    if a != [] {
      var n := |a| - 1;
      CombineCount(a[..n], b[..n]);
      assert Combine(a, b)[..n] == Combine(a[..n], b[..n]);
      assert a[n] == Keep || b[n] == Keep;
    }
  }

  lemma {:induction false} CutsAreCounted(rels: seq<Relocation>, ds: seq<Decision>)
    requires |ds| <= |rels|
    ensures |Flatten(rels, ds)| == CutCount(ds) <= |ds|
  {
    if ds != [] {
      CutsAreCounted(rels, ds[..|ds| - 1]);
    }
  }

  /** Each relocation is cut at most once over a whole run, so at most as many passes as there are
      relocations delete anything, whatever symbol addresses the passes are given. */
  lemma {:induction false} RunsConverge(scans: seq<Scan>, rels: seq<Relocation>)
    requires WellFormed(rels) && SameSection(scans, rels)
    ensures BusyPasses(scans, rels) <= CutCount(After(scans, rels)) <= |rels|
    ensures |Flatten(rels, After(scans, rels))| == CutCount(After(scans, rels))
  {
    CutsAreCounted(rels, After(scans, rels));
    if scans != [] {
      var earlier, last := scans[..|scans| - 1], scans[|scans| - 1];
      var prior := After(earlier, rels);
      RunsConverge(earlier, rels);
      RunKeepsInvariant(earlier, rels);
      FreshIsExclusive(last, prior);
      CombineCount(prior, Fresh(last, prior));
      CutsAreCounted(rels, Fresh(last, prior));
    }
  }

  /******* Where alignment sleds end up *******/

  /** The address at which input offset `offset` of a section lands. */
  function PlaceOf(sectionAddress: nat, cuts: seq<Cut>, offset: nat): int {
    sectionAddress + offset - DeletedBefore(cuts, offset)
  }

  /** The address at which the byte following the sled of relocation `k` lands. */
  function SledEnd(sectionAddress: nat, rels: seq<Relocation>, ds: seq<Decision>, k: nat): int
    requires k < |rels| && |ds| <= |rels|
  {
    PlaceOf(sectionAddress, Flatten(rels, ds), rels[k].offset + rels[k].Footprint())
  }

  /** The address at which the sled itself starts. */
  function SledStart(sectionAddress: nat, rels: seq<Relocation>, ds: seq<Decision>, k: nat): int
    requires k < |rels| && |ds| <= |rels|
  {
    PlaceOf(sectionAddress, Flatten(rels, ds), rels[k].offset)
  }

  /** A sled this pass looks at: present, not empty, not cut before, and inside the address space. */
  ghost predicate Handled(scan: Scan, prior: seq<Decision>, k: nat)
    requires |prior| == |scan.rels|
  {
    && k < |scan.rels| && scan.rels[k].rawType == Align
    && 0 < scan.rels[k].addend < TWO32
    && prior[k] == Keep
    && scan.sectionAddress + scan.rels[k].offset + scan.rels[k].addend < TWO64
  }

  /** The start the pass computed for a sled is where the sled starts once the whole pass is merged. */
  lemma {:induction false} SledStartIsPosition(scan: Scan, prior: seq<Decision>, k: nat)
    requires WellFormed(scan.rels) && Complete(scan.rels, prior)
    requires k < |scan.rels| && scan.rels[k].Footprint() > 0
    ensures var cuts, offset := Flatten(scan.rels, prior), scan.rels[k].offset;
            var p := SledStart(scan.sectionAddress, scan.rels, Combine(prior, Fresh(scan, prior)), k);
            && p >= scan.sectionAddress
            && p == scan.sectionAddress + offset - DeletedBefore(cuts, offset) - Removed(Decisions(scan, cuts, k))
  {
    var rels, added := scan.rels, Fresh(scan, prior);
    FreshIsExclusive(scan, prior);
    PositionNeverWraps(scan, prior, k);
    DeletedBeforeFootprint(rels, prior, k);
    DeletedBeforeFootprint(rels, Combine(prior, added), k);
    CombineRemoved(prior, added, k);
    DecisionsPrefix(scan, Flatten(rels, prior), k, |rels|);
  }

  lemma {:induction false} SledEndIsStartPlus(sectionAddress: nat, rels: seq<Relocation>, ds: seq<Decision>, k: nat)
    requires WellFormed(rels) && Complete(rels, ds) && k < |rels| && rels[k].Footprint() > 0
    ensures SledEnd(sectionAddress, rels, ds, k)
            == SledStart(sectionAddress, rels, ds, k) + rels[k].Footprint() - ds[k].Size()
  {
    hide DeletedBefore, Flatten, WellFormed;
    DeletedBeforeFootprint(rels, ds, k);
    DeletedBeforeFootprintEnd(rels, ds, k);
    assert ds[..k + 1][..k] == ds[..k];
  }

  lemma {:induction false} HandledDecision(scan: Scan, prior: seq<Decision>, k: nat)
    requires WellFormed(scan.rels) && Complete(scan.rels, prior) && Handled(scan, prior, k)
    ensures var ds := Combine(prior, Fresh(scan, prior));
            var p := SledStart(scan.sectionAddress, scan.rels, ds, k);
            && p >= 0
            && ds[k] == match SledExcess(p, scan.rels[k].addend)
                        case Some(bytes) => CutSled(bytes)
                        case None => Keep
  {
    hide Flatten, Decisions, Removed, DeletedBefore, WellFormed, SledExcess;
    var rels, cuts := scan.rels, Flatten(scan.rels, prior);
    var removed := Removed(Decisions(scan, cuts, k));
    CutAtBelongsTo(rels, prior, k, rels[k].offset);
    DecisionAt(scan, cuts, k, |rels|);
    SledStartIsPosition(scan, prior, k);
    SmallMod(SledStart(scan.sectionAddress, rels, Combine(prior, Fresh(scan, prior)), k), TWO64);
    assert Fresh(scan, prior)[k] == Decide(scan, cuts, k, removed);
  }

  lemma {:induction false} ExcessLandsOnBoundary(p: nat, addend: nat)
    requires 0 < addend < TWO32
    ensures var alignment := NextPowerOfTwo(addend);
            var cut := if SledExcess(p, addend).Some? then SledExcess(p, addend).value else 0;
            Divides(alignment, p + addend - cut) <==> NextMultipleOf(p, alignment) <= p + addend
  {
    var alignment := NextPowerOfTwo(addend);
    var desired := NextMultipleOf(p, alignment);
    NextMultipleOfIsLeast(p, alignment);
    if p + addend > desired {
      assert 0 < p + addend - desired <= addend;
      SmallMod(p + addend - desired, TWO32);
    }
  }

  /** After the pass, the byte following a sled it handled is aligned exactly when the sled was long
      enough to reach the next boundary from where it now starts. */
  lemma {:induction false} HandledSledAligned(scan: Scan, prior: seq<Decision>, k: nat)
    requires WellFormed(scan.rels) && Complete(scan.rels, prior) && Handled(scan, prior, k)
    ensures var ds := Combine(prior, Fresh(scan, prior));
            var alignment := NextPowerOfTwo(scan.rels[k].addend);
            var p := SledStart(scan.sectionAddress, scan.rels, ds, k);
            && p >= 0
            && (Divides(alignment, SledEnd(scan.sectionAddress, scan.rels, ds, k)) <==>
                NextMultipleOf(p, alignment) <= p + scan.rels[k].addend)
  {
    hide SledStart, SledEnd, NextPowerOfTwo, NextMultipleOf, SledExcess, Fresh, WellFormed;
    HandledDecision(scan, prior, k);
    FreshIsExclusive(scan, prior);
    var ds := Combine(prior, Fresh(scan, prior));
    SledEndIsStartPlus(scan.sectionAddress, scan.rels, ds, k);
    ExcessLandsOnBoundary(SledStart(scan.sectionAddress, scan.rels, ds, k), scan.rels[k].addend);
  }

  /** Addresses, offsets and sleds are multiples of the instruction granule (two with compressed
      instructions). */
  ghost predicate OnGranule(scan: Scan) {
    && scan.sectionAddress % 2 == 0
    && (forall k :: 0 <= k < |scan.rels| ==> scan.rels[k].offset % 2 == 0)
    && (forall k :: 0 <= k < |scan.rels| && scan.rels[k].rawType == Align ==> scan.rels[k].addend % 2 == 0)
  }

  ghost predicate EvenDecisions(ds: seq<Decision>) {
    forall k :: 0 <= k < |ds| ==> ds[k].Size() % 2 == 0
  }

  lemma {:induction false} EvenRemoved(ds: seq<Decision>)
    requires EvenDecisions(ds)
    ensures Removed(ds) % 2 == 0
  {
    if ds != [] {
      EvenRemoved(ds[..|ds| - 1]);
    }
  }

  lemma {:induction false} EvenMod(x: nat, h: nat)
    requires h > 0 && x % 2 == 0
    ensures (x % (2 * h)) % 2 == 0
  {
    var a := 2 * h;
    var q, r := x / a, x % a;
    assert x == a * q + r;
    assert a * q == 2 * (h * q);
  }

  lemma {:induction false} EvenAlignment(addend: nat)
    requires addend >= 2
    ensures NextPowerOfTwo(addend) >= 2 && NextPowerOfTwo(addend) % 2 == 0
    ensures exists h: nat :: h > 0 && NextPowerOfTwo(addend) == 2 * h
  {
    var log := CeilLog2(addend, 0);
    assert log > 0 by { assert Pow2(0) == 1; }
    assert NextPowerOfTwo(addend) == 2 * Pow2(log - 1);
  }

  lemma {:induction false} EvenNextMultiple(p: nat, h: nat)
    requires p % 2 == 0 && h > 0
    ensures NextMultipleOf(p, 2 * h) % 2 == 0
  {
    EvenMod(p, h);
    EvenRound(p, 2 * h, p % (2 * h));
  }

  lemma {:induction false} EvenRound(p: nat, a: nat, rem: nat)
    requires p % 2 == 0 && a % 2 == 0 && rem % 2 == 0
    ensures (p + (a - rem)) % 2 == 0
  {
  }

  lemma {:induction false} EvenExcess(p: nat, addend: nat)
    requires p % 2 == 0 && addend % 2 == 0 && addend > 0
    ensures NextMultipleOf(p, NextPowerOfTwo(addend)) % 2 == 0
    ensures SledExcess(p, addend).Some? ==> SledExcess(p, addend).value % 2 == 0
  {
    hide NextMultipleOf, NextPowerOfTwo;
    EvenAlignment(addend);
    var h: nat :| h > 0 && NextPowerOfTwo(addend) == 2 * h;
    EvenNextMultiple(p, h);
    EvenRemainder(p + addend - NextMultipleOf(p, 2 * h));
  }

  lemma {:induction false} EvenRemainder(x: int)
    requires x % 2 == 0
    ensures (x % TWO32) % 2 == 0
  {
  }

  lemma {:induction false} EvenWrap(x: int)
    requires x % 2 == 0
    ensures WrapU64(x) % 2 == 0
  {
  }

  lemma {:induction false} DecideIsEven(scan: Scan, prior: seq<Decision>, k: nat, removed: nat)
    requires WellFormed(scan.rels) && Complete(scan.rels, prior)
    requires OnGranule(scan) && EvenDecisions(prior) && k < |scan.rels| && removed % 2 == 0
    ensures Decide(scan, Flatten(scan.rels, prior), k, removed).Size() % 2 == 0
  {
    hide SledExcess, DeletedBefore, OutcomeOf, Flatten, Removed, WellFormed, WrapU64;
    var cuts, r := Flatten(scan.rels, prior), scan.rels[k];
    if r.rawType == Align && r.addend > 0 {
      DeletedBeforeFootprint(scan.rels, prior, k);
      EvenRemoved(prior[..k]);
      EvenWrap(scan.sectionAddress + r.offset - DeletedBefore(cuts, r.offset) - removed);
      EvenExcess(PositionOf(scan, cuts, r.offset, removed), r.addend);
    } else {
      DecideIsAdmissible(scan, cuts, k, removed);
    }
  }

  /** Every deletion of a pass is even when its inputs are, so the granule is kept from pass to pass. */
  lemma {:induction false} PassKeepsGranule(scan: Scan, prior: seq<Decision>, n: nat)
    requires WellFormed(scan.rels) && Complete(scan.rels, prior)
    requires OnGranule(scan) && EvenDecisions(prior) && n <= |scan.rels|
    ensures EvenDecisions(Decisions(scan, Flatten(scan.rels, prior), n))
  {
    hide SledExcess, WellFormed, DeletedBefore, OutcomeOf;
    if n > 0 {
      var cuts, k := Flatten(scan.rels, prior), n - 1;
      PassKeepsGranule(scan, prior, k);
      var before := Decisions(scan, cuts, k);
      DecisionsSnoc(scan, cuts, n);
      EvenRemoved(before);
      DecideIsEven(scan, prior, k, Removed(before));
    }
  }

  lemma {:induction false} GapOnGranule(p: nat, alignment: nat)
    requires p % 2 == 0 && alignment > 0 && NextMultipleOf(p, alignment) % 2 == 0
    requires alignment % 2 == 0
    ensures NextMultipleOf(p, alignment) <= p + alignment - 2
  {
  }

  /** With compressed instructions, an assembler pads with at least `alignment - 2` bytes: every sled
      a pass handles then ends on its boundary, whatever the pass and the earlier ones deleted
      before it. */
  lemma {:induction false} EverySledHandledIsAligned(scan: Scan, prior: seq<Decision>, k: nat)
    requires WellFormed(scan.rels) && Complete(scan.rels, prior) && Handled(scan, prior, k)
    requires OnGranule(scan) && EvenDecisions(prior)
    requires scan.rels[k].addend >= NextPowerOfTwo(scan.rels[k].addend) - 2
    ensures var ds := Combine(prior, Fresh(scan, prior));
            Divides(NextPowerOfTwo(scan.rels[k].addend), SledEnd(scan.sectionAddress, scan.rels, ds, k))
  {
    hide NextPowerOfTwo, NextMultipleOf, Flatten, Removed, Decisions, DeletedBefore, WellFormed, SledExcess;
    var rels, addend := scan.rels, scan.rels[k].addend;
    var ds := Combine(prior, Fresh(scan, prior));
    var p := SledStart(scan.sectionAddress, rels, ds, k);
    HandledSledAligned(scan, prior, k);
    PassKeepsGranule(scan, prior, |rels|);
    FreshIsExclusive(scan, prior);
    DeletedBeforeFootprint(rels, ds, k);
    EvenRemoved(ds[..k]);
    assert p % 2 == 0;
    EvenAlignment(addend);
    EvenExcess(p, addend);
    GapOnGranule(p, NextPowerOfTwo(addend));
  }

  /******* What a later pass does to a sled that was already cut *******/

  lemma {:induction false} SledStartMoves(scan: Scan, prior: seq<Decision>, k: nat, earlierAddress: nat)
    requires WellFormed(scan.rels) && Complete(scan.rels, prior)
    requires k < |scan.rels| && scan.rels[k].Footprint() > 0
    ensures SledStart(scan.sectionAddress, scan.rels, Combine(prior, Fresh(scan, prior)), k)
            == SledStart(earlierAddress, scan.rels, prior, k) + scan.sectionAddress - earlierAddress
               - Removed(Decisions(scan, Flatten(scan.rels, prior), k))
  {
    SledStartIsPosition(scan, prior, k);
  }

  /** The sled of relocation `k` is one the pass has still to look at. */
  predicate FreshSled(scan: Scan, cuts: seq<Cut>, k: nat)
    requires k < |scan.rels|
  {
    scan.rels[k].rawType == Align && scan.rels[k].addend > 0 && !HasCutAt(cuts, scan.rels[k].offset)
  }

  /** The bytes freed by the first `k` relocations that are calls or `lui`: whether each relaxes is
      settled by its symbol's address, its own offset and the earlier cuts, not by this pass. */
  function FreedByInstructions(scan: Scan, cuts: seq<Cut>, k: nat): nat
    requires k <= |scan.rels|
  {
    if k == 0 then 0
    else
      FreedByInstructions(scan, cuts, k - 1)
      + match OutcomeOf(scan, cuts, k - 1)
        case Relaxed(decision) => decision.Size()
        case _ => 0
  }

  /** The bytes freed by the fresh sleds among the first `k` relocations: what of each lies beyond the
      next boundary from where it then starts. */
  function FreedBySleds(scan: Scan, cuts: seq<Cut>, k: nat): nat
    requires k <= |scan.rels|
  {
    if k == 0 then 0
    else
      var before := FreedBySleds(scan, cuts, k - 1);
      if !FreshSled(scan, cuts, k - 1) then before
      else
        var r := scan.rels[k - 1];
        var p := PositionOf(scan, cuts, r.offset, FreedByInstructions(scan, cuts, k - 1) + before);
        match SledExcess(p, r.addend)
        case Some(bytes) => before + bytes
        case None => before
  }

  /** All that a pass removes in front of a relocation comes from these two sources. */
  lemma {:induction false} RemovedIsFreed(scan: Scan, cuts: seq<Cut>, k: nat)
    requires k <= |scan.rels|
    ensures Removed(Decisions(scan, cuts, k)) == FreedByInstructions(scan, cuts, k) + FreedBySleds(scan, cuts, k)
  {
    hide Decisions, OutcomeOf, FreshSled, Decide, SledExcess, PositionOf;
    if k > 0 {
      RemovedIsFreed(scan, cuts, k - 1);
      RemovedStep(scan, cuts, k);
      DecideFrees(scan, cuts, k - 1, Removed(Decisions(scan, cuts, k - 1)));
    }
  }

  lemma {:induction false} RemovedStep(scan: Scan, cuts: seq<Cut>, k: nat)
    requires 0 < k <= |scan.rels|
    ensures var before := Removed(Decisions(scan, cuts, k - 1));
            Removed(Decisions(scan, cuts, k)) == before + Decide(scan, cuts, k - 1, before).Size()
  {
    hide Decide;
    assert Decisions(scan, cuts, k)[..k - 1] == Decisions(scan, cuts, k - 1);
  }

  lemma {:induction false} DecideFrees(scan: Scan, cuts: seq<Cut>, k: nat, removed: nat)
    requires k < |scan.rels|
    ensures Decide(scan, cuts, k, removed).Size()
            == (match OutcomeOf(scan, cuts, k)
                case Relaxed(decision) => decision.Size()
                case _ => 0)
               + (if FreshSled(scan, cuts, k) then
                    match SledExcess(PositionOf(scan, cuts, scan.rels[k].offset, removed), scan.rels[k].addend)
                    case Some(bytes) => bytes
                    case None => 0
                  else 0)
  {
    hide HasCutAt, SledExcess, PositionOf, CallOutcome, LuiOutcome;
  }

  lemma {:induction false} OnlyInstructionsFree(scan: Scan, cuts: seq<Cut>, k: nat)
    requires k <= |scan.rels| && forall j :: 0 <= j < k ==> !FreshSled(scan, cuts, j)
    ensures FreedBySleds(scan, cuts, k) == 0
  {
    hide FreshSled;
    if k > 0 {
      OnlyInstructionsFree(scan, cuts, k - 1);
    }
  }

  /** A sled an earlier pass cut is skipped. If it ended on its boundary, it still does exactly when
      the section's own move and the bytes freed in front of it cancel out modulo the alignment;
      nothing in the pass sees to that. When every sled in front has been cut too, only the calls and
      `lui` in front that now relax count. */
  lemma {:induction false} SkippedSledDrifts(scan: Scan, prior: seq<Decision>, k: nat, earlierAddress: nat,
    alignment: nat)
    requires WellFormed(scan.rels) && Complete(scan.rels, prior) && k < |scan.rels| && alignment > 0
    requires prior[k].CutSled?
    requires Divides(alignment, SledEnd(earlierAddress, scan.rels, prior, k))
    ensures Fresh(scan, prior)[k] == Keep
    ensures var cuts, moved := Flatten(scan.rels, prior), scan.sectionAddress - earlierAddress;
            && (Divides(alignment, SledEnd(scan.sectionAddress, scan.rels, Combine(prior, Fresh(scan, prior)), k))
                <==> Divides(alignment,
                       moved - FreedByInstructions(scan, cuts, k) - FreedBySleds(scan, cuts, k)))
            && ((forall j :: 0 <= j < k ==> !FreshSled(scan, cuts, j)) ==>
                  (Divides(alignment, SledEnd(scan.sectionAddress, scan.rels, Combine(prior, Fresh(scan, prior)), k))
                   <==> Divides(alignment, moved - FreedByInstructions(scan, cuts, k))))
  {
    hide Flatten, Removed, Decisions, DeletedBefore, WellFormed, SledStart, SledEnd, FreedByInstructions, FreedBySleds,
      FreshSled;
    var rels, added := scan.rels, Fresh(scan, prior);
    var cuts, ds := Flatten(rels, prior), Combine(prior, added);
    FreshIsExclusive(scan, prior);
    SledStartMoves(scan, prior, k, earlierAddress);
    assert added[k] == Keep;
    SledEndIsStartPlus(earlierAddress, rels, prior, k);
    SledEndIsStartPlus(scan.sectionAddress, rels, ds, k);
    RemovedIsFreed(scan, cuts, k);
    var freed := FreedByInstructions(scan, cuts, k) + FreedBySleds(scan, cuts, k);
    var moved := scan.sectionAddress - earlierAddress - freed;
    assert SledEnd(scan.sectionAddress, rels, ds, k) == SledEnd(earlierAddress, rels, prior, k) + moved;
    DividesSum(alignment, SledEnd(earlierAddress, rels, prior, k), moved);
    if forall j :: 0 <= j < k ==> !FreshSled(scan, cuts, j) {
      OnlyInstructionsFree(scan, cuts, k);
    }
  }

  /** The sled of the example below: a relaxable call, then a request for eight-byte alignment. */
  function CallThenAlign(target: nat): Scan {
    Scan(0x1_0000, [],
      [ Relocation(CallPlt, 0, 0, Some(7)),
        Relocation(Relax, 0, 0, None),
        Relocation(Align, 8, 6, None) ],
      (at, sym) => Some(SymbolInfo(target, false)))
  }

  lemma {:induction false} ConcreteSled()
    ensures NextPowerOfTwo(6) == 8 && SledExcess(0x1_0008, 6) == Some(6)
  {
    assert Pow2(0) == 1 && Pow2(1) == 2 && Pow2(2) == 4 && Pow2(3) == 8;
    assert CeilLog2(6, 3) == 3 && CeilLog2(6, 2) == 3 && CeilLog2(6, 1) == 3;
    assert NextPowerOfTwo(6) == 8;
  }

  lemma {:induction false} NothingCut()
    ensures Flatten(CallThenAlign(0x11_0004).rels, [Keep, Keep, Keep]) == []
  {
    var rels, none := CallThenAlign(0x11_0004).rels, [Keep, Keep, Keep];
    assert none[..2] == [Keep, Keep] && none[..2][..1] == [Keep];
    assert Flatten(rels, []) == [];
    assert Flatten(rels, [Keep]) == [];
    assert Flatten(rels, [Keep, Keep]) == [];
  }

  lemma {:induction false} ConcretePosition()
    ensures Removed([Keep, Keep]) == 0
    ensures PositionOf(CallThenAlign(0x11_0004), [], 8, 0) == 0x1_0008
  {
    assert [Keep, Keep][..1] == [Keep] && Removed([Keep]) == 0;
  }

  /** First pass: the call is out of reach by less than the sled is long, and the sled goes. */
  lemma {:induction false} FirstPass()
    ensures Fresh(CallThenAlign(0x11_0004), [Keep, Keep, Keep]) == [Keep, Keep, CutSled(6)]
  {
    hide Flatten, SledExcess, Removed, PositionOf;
    var scan := CallThenAlign(0x11_0004);
    NothingCut();
    ConcreteSled();
    assert Decisions(scan, [], 1) == [Keep];
    assert Decisions(scan, [], 2) == [Keep, Keep];
    ConcretePosition();
    assert Decide(scan, [], 2, 0) == CutSled(6);
  }

  lemma {:induction false} ConcreteCuts()
    ensures Flatten(CallThenAlign(0x10_FFFE).rels, [Keep, Keep, CutSled(6)]) == [Cut(8, 6)]
  {
    var rels, prior := CallThenAlign(0x10_FFFE).rels, [Keep, Keep, CutSled(6)];
    assert prior[..2] == [Keep, Keep] && prior[..2][..1] == [Keep];
    assert Flatten(rels, []) == [];
    assert Flatten(rels, [Keep]) == [];
    assert Flatten(rels, [Keep, Keep]) == [];
  }

  lemma {:induction false} ConcreteCall()
    ensures CallOutcome(CallThenAlign(0x10_FFFE), [Cut(8, 6)], 0) == Relaxed(CutJalr)
    ensures HasCutAt([Cut(8, 6)], 8)
  {
    assert [Cut(8, 6)][0].offset == 8;
  }

  /** Second pass: the sled's own deletion has brought the call into reach, so four bytes go in front
      of the sled, which is skipped. */
  lemma {:induction false} SecondPass()
    ensures Fresh(CallThenAlign(0x10_FFFE), [Keep, Keep, CutSled(6)]) == [CutJalr, Keep, Keep]
  {
    hide Flatten, SledExcess, CallOutcome, HasCutAt;
    var scan, cuts := CallThenAlign(0x10_FFFE), [Cut(8, 6)];
    ConcreteCuts();
    ConcreteCall();
    assert Decisions(scan, cuts, 1) == [CutJalr];
    assert Decisions(scan, cuts, 2) == [CutJalr, Keep];
    assert Decide(scan, cuts, 2, Removed([CutJalr, Keep])) == Keep;
  }

  lemma {:induction false} ConcreteRun()
    ensures var first, second := CallThenAlign(0x11_0004), CallThenAlign(0x10_FFFE);
            && SameSection([first, second], first.rels)
            && After([first], first.rels) == [Keep, Keep, CutSled(6)]
            && After([first, second], first.rels) == [CutJalr, Keep, CutSled(6)]
  {
    hide Decisions, Flatten, SledExcess;
    var first, second := CallThenAlign(0x11_0004), CallThenAlign(0x10_FFFE);
    FirstPass();
    SecondPass();
    assert [first][..0] == [] && [first, second][..1] == [first];
    assert After([], first.rels) == [Keep, Keep, Keep];
    assert After([first], first.rels) == [Keep, Keep, CutSled(6)];
  }

  /** Alignment does not survive repeated passes: after the two passes the eight-byte aligned byte
      sits four bytes past a boundary, though each pass aligned every sled it handled. */
  lemma {:induction false} LaterPassBreaksAlignment()
    ensures var first, second := CallThenAlign(0x11_0004), CallThenAlign(0x10_FFFE);
            && WellFormed(first.rels) && SameSection([first, second], first.rels)
            && NextPowerOfTwo(6) == 8
            && SledEnd(0x1_0000, first.rels, After([first], first.rels), 2) == 0x1_0008
            && SledEnd(0x1_0000, first.rels, After([first, second], first.rels), 2) == 0x1_0004
  {
    hide After, SledEnd, NextPowerOfTwo;
    ConcreteSled();
    ConcreteRun();
    ConcreteEnds();
  }

  lemma {:induction false} ConcreteEnds()
    ensures var rels := CallThenAlign(0x11_0004).rels;
            && SledEnd(0x1_0000, rels, [Keep, Keep, CutSled(6)], 2) == 0x1_0008
            && SledEnd(0x1_0000, rels, [CutJalr, Keep, CutSled(6)], 2) == 0x1_0004
  {
    hide Flatten, DeletedBefore, Removed, AllAdmissible, WellFormed, SledEnd;
    var rels := CallThenAlign(0x11_0004).rels;
    ConcreteShape();
    ConcreteRemoved();
    LastSledEnd(rels, [Keep, Keep, CutSled(6)], 0x1_0000);
    LastSledEnd(rels, [CutJalr, Keep, CutSled(6)], 0x1_0000);
  }

  lemma {:induction false} LastSledEnd(rels: seq<Relocation>, ds: seq<Decision>, sectionAddress: nat)
    requires WellFormed(rels) && AllAdmissible(rels, ds) && |rels| == |ds| == 3 && rels[2].Footprint() > 0
    ensures SledEnd(sectionAddress, rels, ds, 2)
            == sectionAddress + rels[2].offset + rels[2].Footprint() - Removed(ds)
  {
    hide Flatten, DeletedBefore, Removed, AllAdmissible, WellFormed;
    DeletedBeforeFootprintEnd(rels, ds, 2);
    assert ds[..3] == ds;
  }

  lemma {:induction false} ConcreteShape()
    ensures var rels := CallThenAlign(0x11_0004).rels;
            && WellFormed(rels)
            && AllAdmissible(rels, [Keep, Keep, CutSled(6)]) && AllAdmissible(rels, [CutJalr, Keep, CutSled(6)])
  {
    hide AllAdmissible, WellFormed;
    ConcreteWellFormed();
    ConcreteAdmissible(Keep);
    ConcreteAdmissible(CutJalr);
  }

  lemma {:induction false} ConcreteWellFormed()
    ensures WellFormed(CallThenAlign(0x11_0004).rels)
  {
  }

  lemma {:induction false} ConcreteAdmissible(first: Decision)
    requires first == Keep || first == CutJalr
    ensures AllAdmissible(CallThenAlign(0x11_0004).rels, [first, Keep, CutSled(6)])
  {
  }

  lemma {:induction false} ConcreteRemoved()
    ensures Removed([Keep, Keep, CutSled(6)]) == 6 && Removed([CutJalr, Keep, CutSled(6)]) == 10
  {
    var cut, both := [Keep, Keep, CutSled(6)], [CutJalr, Keep, CutSled(6)];
    assert cut[..2] == [Keep, Keep] && both[..2] == [CutJalr, Keep];
    assert [Keep, Keep][..1] == [Keep] && [CutJalr, Keep][..1] == [CutJalr];
    assert [Keep][..0] == [] && [CutJalr][..0] == [];
  }

  /******* The alignment the sled length stands for *******/

  /** A sled for alignment `2^k` is `2^k` minus the granule long. Rounding its length up to a power of
      two recovers the alignment exactly when the sled is longer than half of it. */
  lemma {:induction false} SledLengthGivesAlignment(k: nat, addend: nat)
    requires k > 0 && addend <= Pow2(k)
    ensures NextPowerOfTwo(addend) == Pow2(k) <==> 2 * addend > Pow2(k)
  {
    var log := CeilLog2(addend, 0);
    CeilLog2Least(addend, 0, k);
    assert Pow2(k) == 2 * Pow2(k - 1);
    if 2 * addend > Pow2(k) {
      if log < k {
        Pow2Monotone(log, k - 1);
      }
    } else {
      CeilLog2Least(addend, 0, k - 1);
      Pow2Monotone(log, k - 1);
    }
  }

  /** So a four-byte request with compressed instructions and an eight-byte request without them are
      read as half of what was asked for. */
  lemma {:induction false} ShortSledsAreMisread()
    ensures NextPowerOfTwo(4 - 2) == 2 && NextPowerOfTwo(8 - 4) == 4
  {
    assert Pow2(0) == 1 && Pow2(1) == 2 && Pow2(2) == 4;
    assert CeilLog2(2, 1) == 1 && CeilLog2(4, 2) == 2 && CeilLog2(4, 1) == 2;
  }
}
