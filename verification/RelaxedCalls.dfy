/** Where a call that was relaxed to `jal` stands in the end, and whether it still reaches. The scan
    measures from the raw offset of the call to the raw offset of its target, while the bytes written
    stand at the places the deletions leave them. */
module RelaxedCalls {
  import opened Arithmetic
  import opened RelaxDeltas
  import opened RelaxMargins
  import opened RelaxRuns
  import opened RelaxScan
  import opened Wrappers

  /** The bytes missing in front of relocation `k` after a pass: those cut before, those freed by calls
      and `lui` in front, and those freed by sleds in front. */
  function GoneInFront(scan: Scan, prior: seq<Decision>, k: nat): nat
    requires Complete(scan.rels, prior) && k < |scan.rels|
  {
    var cuts := Flatten(scan.rels, prior);
    DeletedBefore(cuts, scan.rels[k].offset) + FreedByInstructions(scan, cuts, k) + FreedBySleds(scan, cuts, k)
  }

  /** After the pass a relocation stands that many bytes closer to the start of its section. */
  lemma {:induction false} PlaceAfterPass(scan: Scan, prior: seq<Decision>, k: nat, sectionAddress: nat)
    requires WellFormed(scan.rels) && Complete(scan.rels, prior)
    requires k < |scan.rels| && scan.rels[k].Footprint() > 0
    ensures GoneInFront(scan, prior, k) <= scan.rels[k].offset
    ensures PlaceOf(sectionAddress, Flatten(scan.rels, Combine(prior, Fresh(scan, prior))), scan.rels[k].offset)
            == sectionAddress + scan.rels[k].offset - GoneInFront(scan, prior, k)
  {
    hide DeletedBefore, Flatten, WellFormed, Decisions, FreedByInstructions, FreedBySleds, Removed;
    SledStartIsPosition(scan, prior, k);
    PositionNeverWraps(scan, prior, k);
    RemovedIsFreed(scan, Flatten(scan.rels, prior), k);
  }

  /** The distance the scan sees between a call and a target at offset `t` of a section. */
  function ScannedDistance(sectionAddress: nat, offset: nat, targetSection: nat, t: nat): int {
    targetSection + t - (sectionAddress + offset)
  }

  /** The distance between the places where the two are written. */
  function WrittenDistance(sectionAddress: nat, cuts: seq<Cut>, offset: nat,
                           targetSection: nat, targetCuts: seq<Cut>, t: nat): int {
    PlaceOf(targetSection, targetCuts, t) - PlaceOf(sectionAddress, cuts, offset)
  }

  /** The scan's measure once `gone` bytes are missing in front of the call, `goneThere` in front of
      its target, and the two sections have moved. */
  function CorrectedDistance(scanned: int, gone: nat, goneThere: nat, move: int, moveThere: int): int {
    scanned + gone - goneThere + moveThere - move
  }

  /** A call the pass relaxes was in reach by the scan's measure. In the end, whatever later passes cut,
      `jal` reaches exactly when the corrected measure fits. */
  lemma {:induction false} RelaxedCallReachesTarget(
    scan: Scan, cuts: seq<Cut>, k: nat, targetSection: nat, t: nat,
    finalSection: nat, finalCuts: seq<Cut>, finalTarget: nat, targetCuts: seq<Cut>)
    requires k < |scan.rels| && scan.rels[k].IsCall() && CallOutcome(scan, cuts, k).Relaxed?
    requires scan.resolve(k + 1, RelaxableSymbol(scan.rels, k).value).value.outputAddress == targetSection + t
    ensures var offset := scan.rels[k].offset;
            var scanned := ScannedDistance(scan.sectionAddress, offset, targetSection, t);
            var written := WrittenDistance(finalSection, finalCuts, offset, finalTarget, targetCuts, t);
            && DistanceFitsJal(WrapI64(scanned))
            && (DistanceFitsJal(WrapI64(written)) <==>
                DistanceFitsJal(WrapI64(CorrectedDistance(
                  scanned, DeletedBefore(finalCuts, offset), DeletedBefore(targetCuts, t),
                  finalSection - scan.sectionAddress, finalTarget - targetSection))))
  {
    hide DeletedBefore, HasCutAt;
  }

  /** Right after the pass the bytes missing in front of the call are known beforehand. */
  lemma {:induction false} RelaxedCallReachesAfterPass(
    scan: Scan, prior: seq<Decision>, k: nat, targetSection: nat, t: nat,
    finalSection: nat, finalTarget: nat, targetCuts: seq<Cut>)
    requires WellFormed(scan.rels) && Complete(scan.rels, prior) && k < |scan.rels|
    requires scan.rels[k].IsCall() && CallOutcome(scan, Flatten(scan.rels, prior), k).Relaxed?
    requires scan.resolve(k + 1, RelaxableSymbol(scan.rels, k).value).value.outputAddress == targetSection + t
    ensures var offset, cuts := scan.rels[k].offset, Flatten(scan.rels, Combine(prior, Fresh(scan, prior)));
            DistanceFitsJal(WrapI64(WrittenDistance(finalSection, cuts, offset, finalTarget, targetCuts, t))) <==>
            DistanceFitsJal(WrapI64(CorrectedDistance(
              ScannedDistance(scan.sectionAddress, offset, targetSection, t),
              GoneInFront(scan, prior, k), DeletedBefore(targetCuts, t),
              finalSection - scan.sectionAddress, finalTarget - targetSection)))
  {
    hide DeletedBefore, Flatten, WellFormed, GoneInFront, Fresh, HasCutAt;
    PlaceAfterPass(scan, prior, k, finalSection);
    var cuts := Flatten(scan.rels, Combine(prior, Fresh(scan, prior)));
    RelaxedCallReachesTarget(scan, Flatten(scan.rels, prior), k, targetSection, t, finalSection, cuts, finalTarget,
                             targetCuts);
  }

  /******* Targets in the same section *******/

  /** No cut begins in front of a relocation and ends behind its start. */
  lemma {:induction false} StartIsNotInterior(rels: seq<Relocation>, ds: seq<Decision>, k: nat)
    requires WellFormed(rels) && AllAdmissible(rels, ds) && k < |rels| && rels[k].Footprint() > 0
    ensures !Interior(Flatten(rels, ds), rels[k].offset)
  {
    var cuts, x := Flatten(rels, ds), rels[k].offset;
    forall i | 0 <= i < |cuts| ensures !(cuts[i].offset < x < cuts[i].offset + cuts[i].bytes) {
      FlattenMembers(rels, ds, cuts[i]);
      var j :| 0 <= j < |ds| && CutFor(rels[j], ds[j]) == [cuts[i]];
      CutInFootprint(rels[j], ds[j]);
    }
  }

  /** Between two places of one section deletions only shorten the way, and never turn it round. */
  lemma {:induction false} WayWithinSection(cuts: seq<Cut>, x: nat, t: nat, sectionAddress: nat)
    requires Disjoint(cuts) && !Interior(cuts, x) && !Interior(cuts, t)
    ensures var way := PlaceOf(sectionAddress, cuts, t) - PlaceOf(sectionAddress, cuts, x);
            if x <= t then 0 <= way <= t - x else t - x <= way <= 0
  {
    hide DeletedBefore, KeptBelow, Interior;
    SubtractionCountsKept(cuts, x);
    SubtractionCountsKept(cuts, t);
    if x <= t {
      KeptBelowGrows(cuts, x, t);
    } else {
      KeptBelowGrows(cuts, t, x);
    }
  }

  /** A call to a target in its own section that was relaxed by some pass reaches it for good: whatever
      later passes cut and wherever the section ends up. The target must not lie strictly inside a
      deleted range, where no written byte corresponds to it. */
  lemma {:induction false} SameSectionCallReaches(
    scan: Scan, cuts: seq<Cut>, k: nat, t: nat, final: seq<Decision>, finalSection: nat)
    requires WellFormed(scan.rels) && AllAdmissible(scan.rels, final) && k < |scan.rels|
    requires scan.rels[k].IsCall() && CallOutcome(scan, cuts, k).Relaxed?
    requires scan.resolve(k + 1, RelaxableSymbol(scan.rels, k).value).value.outputAddress == scan.sectionAddress + t
    requires -TWO63 <= t - scan.rels[k].offset < TWO63
    requires !Interior(Flatten(scan.rels, final), t)
    ensures var finalCuts := Flatten(scan.rels, final);
            DistanceFitsJal(WrittenDistance(finalSection, finalCuts, scan.rels[k].offset, finalSection, finalCuts, t))
  {
    hide WellFormed, Interior, HasCutAt, Flatten, PlaceOf;
    FlattenIsSortedAndDisjoint(scan.rels, final);
    StartIsNotInterior(scan.rels, final, k);
    WayWithinSection(Flatten(scan.rels, final), scan.rels[k].offset, t, finalSection);
  }

  /******* A call that ends up out of reach *******/

  /** A sled of 256 bytes, then a call into another section. */
  function SledThenCall(target: nat): Scan {
    Scan(0x1_0000, [],
      [ Relocation(Align, 0, 0x100, None),
        Relocation(CallPlt, 0x100, 0, Some(7)),
        Relocation(Relax, 0x100, 0, None) ],
      (at, sym) => Some(SymbolInfo(target, false)))
  }

  lemma {:induction false} SledOf256()
    ensures NextPowerOfTwo(0x100) == 0x100
    ensures SledExcess(0x1_0000, 0x100) == Some(0x100)
  {
    assert Pow2(4) == 16 by { assert Pow2(2) == 4; }
    assert Pow2(7) == 128 && Pow2(8) == 256;
    var log := CeilLog2(0x100, 0);
    CeilLog2Least(0x100, 0, 8);
    Pow2Monotone(Min(log, 7), 7);
  }

  lemma {:induction false} FirstPassOnCall()
    ensures var scan := SledThenCall(0x11_01FE);
            && Fresh(scan, [Keep, Keep, Keep]) == [CutSled(0x100), Keep, Keep]
            && OutcomeOf(scan, Flatten(scan.rels, [Keep, Keep, Keep]), 1) == Unrelaxed(0xFF)
  {
    var scan := SledThenCall(0x11_01FE);
    NothingFlattened(scan.rels);
    SledOf256();
    hide Flatten, SledExcess, NextPowerOfTwo;
    assert Removed([]) == 0 && DeletedBefore([], 0) == 0;
    assert PositionOf(scan, [], 0, 0) == 0x1_0000;
    assert Decisions(scan, [], 0) == [];
    assert Decisions(scan, [], 1) == [CutSled(0x100)];
    assert Decisions(scan, [], 2) == [CutSled(0x100), Keep];
  }

  lemma {:induction false} NothingFlattened(rels: seq<Relocation>)
    requires |rels| == 3
    ensures Flatten(rels, [Keep, Keep, Keep]) == []
  {
    var none := [Keep, Keep, Keep];
    assert none[..2] == [Keep, Keep] && none[..2][..1] == [Keep];
    assert Flatten(rels, []) == [] && Flatten(rels, [Keep]) == [] && Flatten(rels, [Keep, Keep]) == [];
  }

  lemma {:induction false} OneSledFlattened(rels: seq<Relocation>)
    requires |rels| == 3 && rels[0].offset == 0
    ensures Flatten(rels, [CutSled(0x100), Keep, Keep]) == [Cut(0, 0x100)]
  {
    var ds := [CutSled(0x100), Keep, Keep];
    assert ds[..2] == [CutSled(0x100), Keep] && ds[..2][..1] == [CutSled(0x100)];
    assert Flatten(rels, []) == [] && Flatten(rels, [CutSled(0x100)]) == [Cut(0, 0x100)];
    assert Flatten(rels, [CutSled(0x100), Keep]) == [Cut(0, 0x100)];
  }

  lemma {:induction false} SecondPassOnCall()
    ensures Fresh(SledThenCall(0x11_00FE), [CutSled(0x100), Keep, Keep]) == [Keep, CutJalr, Keep]
  {
    var scan, cuts := SledThenCall(0x11_00FE), [Cut(0, 0x100)];
    OneSledFlattened(scan.rels);
    hide Flatten, SledExcess;
    assert cuts[0].offset == 0;
    assert Decisions(scan, cuts, 0) == [];
    assert Decisions(scan, cuts, 1) == [Keep];
    assert OutcomeOf(scan, cuts, 1) == Relaxed(CutJalr);
    assert Decisions(scan, cuts, 2) == [Keep, CutJalr];
  }

  lemma {:induction false} CallStandsAtStart()
    ensures var rels := SledThenCall(0x11_00FE).rels;
            PlaceOf(0x1_0000, Flatten(rels, [CutSled(0x100), CutJalr, Keep]), 0x100) == 0x1_0000
  {
    var rels, ds := SledThenCall(0x11_00FE).rels, [CutSled(0x100), CutJalr, Keep];
    assert WellFormed(rels) && AllAdmissible(rels, ds);
    hide Flatten, DeletedBefore, WellFormed, AllAdmissible;
    DeletedBeforeFootprint(rels, ds, 1);
    assert ds[..1] == [CutSled(0x100)] && [CutSled(0x100)][..0] == [];
  }

  /** The scan relaxes a call that cannot reach. The call stands behind a sled of 256 bytes, its target
      0x100 bytes out of reach in the next section. The first pass reports margin 0xFF and cuts the
      sled, so the section is scanned again. The second sees the target 0x100 bytes lower but the call
      where it was, and takes away its second half. Written, the call stands at the start of the
      section and the target is as far as before, even when the next section follows the four bytes
      just cut. */
  lemma {:induction false} RelaxedCallOutOfReach()
    ensures var first, second := SledThenCall(0x11_01FE), SledThenCall(0x11_00FE);
            var none, cut := [Keep, Keep, Keep], [CutSled(0x100), Keep, Keep];
            && first.rels == second.rels
            && Fresh(first, none) == cut
            && OutcomeOf(first, Flatten(first.rels, none), 1) == Unrelaxed(0xFF)
            && Rescanned(Some(0xFF), 0x100)
            && Fresh(second, cut) == [Keep, CutJalr, Keep]
            && PlaceOf(0x1_0000, Flatten(second.rels, Combine(cut, Fresh(second, cut))), 0x100) == 0x1_0000
            && !DistanceFitsJal(0x11_00FE - 0x1_0000) && !DistanceFitsJal(0x11_00FA - 0x1_0000)
  {
    hide Fresh, Flatten, OutcomeOf, PlaceOf;
    FirstPassOnCall();
    SecondPassOnCall();
    assert Combine([CutSled(0x100), Keep, Keep], [Keep, CutJalr, Keep]) == [CutSled(0x100), CutJalr, Keep];
    CallStandsAtStart();
  }
}
