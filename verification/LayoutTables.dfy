/** What the rewritten tables say, read off the tables alone: section after section in output order,
    part after part, segment after segment. */
module LayoutTables {
  import opened Alignments
  import opened Arithmetic
  import opened LayoutRewrite
  import opened Wrappers

  /** No section among the events from `i` up to but not including `k`. */
  ghost predicate NoSection(order: seq<Event>, i: nat, k: nat)
    requires k <= |order|
  {
    forall n :: i <= n < k ==> !order[n].Section?
  }

  lemma {:induction false} NothingPlacedYet(plan: Plan, k: nat)
    requires GoodPlan(plan) && k <= |plan.order| && NoSection(plan.order, 0, k)
    ensures OffsetAfter(plan, k) == 0
    decreases k
  {
    if k > 0 {
      NothingPlacedYet(plan, k - 1);
    }
  }

  lemma {:induction false} OffsetIsLastEnd(plan: Plan, j: nat, k: nat)
    requires GoodPlan(plan) && j < k <= |plan.order| && plan.order[j].Section? && NoSection(plan.order, j + 1, k)
    ensures OffsetAfter(plan, k) == SectionEnd(plan, j)
    decreases k
  {
    if j + 1 < k {
      OffsetIsLastEnd(plan, j, k - 1);
    }
  }

  /** The first section of the file starts at its beginning. */
  lemma {:induction false} FirstSectionAtZero(
    plan: Plan, sections0: seq<Record>, sections: seq<Record>, k: nat, s: nat)
    requires GoodPlan(plan) && SectionsPlaced(plan, |plan.order|, sections0, sections)
    requires SectionAt(plan.order, k, s) && NoSection(plan.order, 0, k)
    ensures sections[s].fileOffset == 0
  {
    NothingPlacedYet(plan, k);
  }

  /** `x` is the least multiple of `2^exponent` that is not below `end`. */
  ghost predicate IsNextBoundary(x: nat, end: nat, exponent: nat) {
    x % Pow2(exponent) == 0 && end <= x < end + Pow2(exponent)
  }

  /** No multiple of `2^exponent` from `end` on is below `x`. */
  ghost predicate NothingNearer(x: nat, end: nat, exponent: nat) {
    forall m: nat :: end <= m < x ==> m % Pow2(exponent) != 0
  }

  lemma {:induction false} AlignUpIsNextBoundary(a: Alignment, end: nat)
    ensures IsNextBoundary(a.AlignUp(end), end, a.exponent) && NothingNearer(a.AlignUp(end), end, a.exponent)
  {
    NextMultipleOfIsLeast(end, a.Value());
    forall m: nat | end <= m < a.AlignUp(end) ensures m % Pow2(a.exponent) != 0 {
      assert !Divides(a.Value(), m);
    }
  }

  /** Every later section starts at the next boundary of its own alignment behind the section before
      it: not a byte further. */
  lemma {:induction false} SectionsPackTightly(
    plan: Plan, sections0: seq<Record>, sections: seq<Record>, j: nat, a: nat, k: nat, b: nat)
    requires GoodPlan(plan) && SectionsPlaced(plan, |plan.order|, sections0, sections)
    requires forall s :: 0 <= s < |sections| ==> plan.alignments[s] == sections[s].alignment
    requires j < k && SectionAt(plan.order, j, a) && SectionAt(plan.order, k, b) && NoSection(plan.order, j + 1, k)
    ensures var end, exponent := sections[a].fileOffset + sections[a].fileSize, sections[b].alignment.exponent;
            && IsNextBoundary(sections[b].fileOffset, end, exponent)
            && NothingNearer(sections[b].fileOffset, end, exponent)
  {
    hide IsNextBoundary, NothingNearer, Alignment.AlignUp;
    OffsetIsLastEnd(plan, j, k);
    AlignUpIsNextBoundary(sections[b].alignment, OffsetAfter(plan, k));
  }

  /** Parts `base` to `base + count - 1` follow each other without a gap from `start` to `end`. */
  ghost predicate Tile(parts: seq<Record>, base: nat, count: nat, start: nat, end: nat)
    requires 0 < count && base + count <= |parts|
  {
    && parts[base].fileOffset == start
    && (forall p :: base < p < base + count ==> parts[p].fileOffset == parts[p - 1].fileOffset + parts[p - 1].fileSize)
    && parts[base + count - 1].fileOffset + parts[base + count - 1].fileSize == end
  }

  /** The parts of a section fill it. Sections below `single` have one part, the others seventeen. */
  lemma {:induction false} PartsFillSection(
    plan: Plan, sections0: seq<Record>, sections: seq<Record>, parts0: seq<Record>, parts: seq<Record>, k: nat, s: nat)
    requires GoodPlan(plan) && SectionsPlaced(plan, |plan.order|, sections0, sections)
    requires PartsPlaced(plan, |plan.order|, parts0, parts)
    requires forall p :: 0 <= p < |parts| ==> plan.sizes[p] == parts[p].fileSize
    requires SectionAt(plan.order, k, s)
    ensures var base := if s < plan.single then s else plan.single + 17 * (s - plan.single);
            var count := if s < plan.single then 1 else 17;
            && base + count <= |parts|
            && Tile(parts, base, count, sections[s].fileOffset, sections[s].fileOffset + sections[s].fileSize)
  {
    PartsInRange(plan.single, s, |plan.alignments|);
    assert PartsTile(plan, k, s, parts);
    hide SectionStart, Tile;
    PartsTileSection(plan, parts, s, SectionStart(plan, k));
  }

  lemma {:induction false} PartsTileSection(plan: Plan, parts: seq<Record>, s: nat, start: nat)
    requires GoodPlan(plan) && s < |plan.alignments| && |parts| == |plan.sizes|
    requires forall p :: 0 <= p < |parts| ==> plan.sizes[p] == parts[p].fileSize
    requires forall j :: 0 <= j < NumParts(plan.single, s) ==> PartStartsAt(plan, s, j, start, parts)
    ensures BasePart(plan.single, s) + NumParts(plan.single, s) <= |parts|
    ensures Tile(parts, BasePart(plan.single, s), NumParts(plan.single, s), start, start + SectionSize(plan, s))
  {
    PartsInRange(plan.single, s, |plan.alignments|);
    var base, count := BasePart(plan.single, s), NumParts(plan.single, s);
    hide NumParts, BasePart;
    forall p | base <= p < base + count
      ensures parts[p].fileOffset == start + SizeUpTo(plan, s, p - base)
      ensures SizeUpTo(plan, s, p - base + 1) == SizeUpTo(plan, s, p - base) + parts[p].fileSize
    {
      assert PartStartsAt(plan, s, p - base, start, parts);
    }
    hide SizeUpTo;
    SizeOfNothing(plan, s);
    forall p | base < p < base + count
      ensures parts[p].fileOffset == parts[p - 1].fileOffset + parts[p - 1].fileSize
    {
      assert SizeUpTo(plan, s, (p - 1) - base + 1) == SizeUpTo(plan, s, p - base);
    }
  }

  lemma {:induction false} SizeOfNothing(plan: Plan, s: nat)
    requires GoodPlan(plan) && s < |plan.alignments|
    ensures SizeUpTo(plan, s, 0) == 0
  {
  }

  /** A merge target begins where its own section does and ends where the last section merged into it
      does. */
  lemma {:induction false} MergedRangeIsExact(
    plan: Plan, mergeTarget: seq<Option<nat>>, sections0: seq<Record>, sections: seq<Record>,
    merged0: seq<Record>, merged: seq<Record>, j: nat, t: nat, k: nat, s: nat)
    requires GoodPlan(plan) && SectionsPlaced(plan, |plan.order|, sections0, sections)
    requires MergedPlaced(plan, mergeTarget, |plan.order|, merged0, merged)
    requires SectionAt(plan.order, j, t) && mergeTarget[t] == None
    requires SectionAt(plan.order, k, s) && (s == t || mergeTarget[s] == Some(t))
    requires forall i, r: nat :: k < i && SectionAt(plan.order, i, r) ==> r != t && mergeTarget[r] != Some(t)
    ensures merged[t].fileOffset == sections[t].fileOffset
    ensures merged[t].fileOffset + merged[t].fileSize == sections[s].fileOffset + sections[s].fileSize
  {
    assert MergesInto(plan.order, mergeTarget, k, t);
    forall i | k < i < |plan.order| ensures !MergesInto(plan.order, mergeTarget, i, t) {
      if plan.order[i].Section? {
        assert SectionAt(plan.order, i, plan.order[i].id);
      }
    }
    LastMergedEnds(plan, mergeTarget, t, k, |plan.order|);
  }

  lemma {:induction false} LastMergedEnds(plan: Plan, mergeTarget: seq<Option<nat>>, t: nat, k: nat, n: nat)
    requires GoodPlan(plan) && k < n <= |plan.order| && MergesInto(plan.order, mergeTarget, k, t)
    requires forall i :: k < i < n ==> !MergesInto(plan.order, mergeTarget, i, t)
    ensures MergedEnd(plan, mergeTarget, t, n) == SectionEnd(plan, k)
    decreases n
  {
    if k < n - 1 {
      LastMergedEnds(plan, mergeTarget, t, k, n - 1);
    }
  }

  /******* Segments *******/

  /** Segments are taken off the list from its head, one at each start event that names the head. */
  lemma {:induction false} SegmentsTakenInTurn(order: seq<Event>, segments: seq<Segment>, n: nat, t: nat)
    requires n < |order| && t == Taken(order, segments, n)
    ensures n == 0 ==> t == 0
    ensures Taken(order, segments, n + 1)
            == if t < |segments| && order[n] == SegmentStart(segments[t].id) then t + 1 else t
  {
  }

  /** When the rewrite succeeds, a segment that is taken off starts where the section before it ends, or
      at the beginning of the file. */
  lemma {:induction false} SegmentsStartAtEnds(
    plan: Plan, segments: seq<Segment>, sections0: seq<Record>, sections: seq<Record>, k: nat)
    requires GoodPlan(plan) && SectionsPlaced(plan, |plan.order|, sections0, sections)
    requires SegmentsStay(plan, segments, |plan.order|)
    requires k < |plan.order| && Taken(plan.order, segments, k + 1) == Taken(plan.order, segments, k) + 1
    ensures var segment := segments[Taken(plan.order, segments, k)];
            && (NoSection(plan.order, 0, k) ==> segment.fileOffset == 0)
            && forall j, a: nat :: j < k && SectionAt(plan.order, j, a) && NoSection(plan.order, j + 1, k) ==>
                 segment.fileOffset == sections[a].fileOffset + sections[a].fileSize
  {
    assert StartsSegment(plan.order, segments, k);
    if NoSection(plan.order, 0, k) {
      NothingPlacedYet(plan, k);
    }
    forall j, a: nat | j < k && SectionAt(plan.order, j, a) && NoSection(plan.order, j + 1, k)
      ensures OffsetAfter(plan, k) == sections[a].fileOffset + sections[a].fileSize
    {
      OffsetIsLastEnd(plan, j, k);
    }
  }

  /** When it fails, a segment was somewhere else than that. */
  lemma {:induction false} FailureMovesSegment(plan: Plan, segments: seq<Segment>) returns (k: nat)
    requires GoodPlan(plan) && !SegmentsStay(plan, segments, |plan.order|)
    ensures k < |plan.order| && StartsSegment(plan.order, segments, k)
    ensures var segment := segments[Taken(plan.order, segments, k)];
            && (NoSection(plan.order, 0, k) ==> segment.fileOffset != 0)
            && forall j :: 0 <= j < k && plan.order[j].Section? && NoSection(plan.order, j + 1, k) ==>
                 segment.fileOffset != SectionEnd(plan, j)
  {
    k :| 0 <= k < |plan.order| && StartsSegment(plan.order, segments, k)
         && segments[Taken(plan.order, segments, k)].fileOffset != OffsetAfter(plan, k);
    if NoSection(plan.order, 0, k) {
      NothingPlacedYet(plan, k);
    }
    forall j | 0 <= j < k && plan.order[j].Section? && NoSection(plan.order, j + 1, k)
      ensures OffsetAfter(plan, k) == SectionEnd(plan, j)
    {
      OffsetIsLastEnd(plan, j, k);
    }
  }

  /******* Sizes *******/

  /** Collapsing, part by part: in a compressed section the last of its seventeen parts, the one of the
      finest alignment, takes the compressed size and the others become empty; nothing else changes. */
  lemma {:induction false} CollapsedPartByPart(
    single: nat, compressed: seq<Option<nat>>, before: seq<Record>, now: seq<Record>, p: nat)
    requires RegularOnly(single, compressed) && PartsCollapsed(single, compressed, |compressed|, before, now)
    requires p < |now|
    requires p >= single ==> single + (p - single) / 17 < |compressed|
    ensures now[p] == before[p].(fileSize :=
                        if p < single then before[p].fileSize
                        else
                          match compressed[single + (p - single) / 17]
                          case None => before[p].fileSize
                          case Some(size) => if (p - single) % 17 == 16 then size else 0)
  {
  }

  /** The same in a group, which keeps the compressed size only if it holds the epilogue. */
  lemma {:induction false} CollapsedGroup(
    single: nat, compressed: seq<Option<nat>>, before: seq<Group>, now: seq<Group>, g: nat, p: nat)
    requires RegularOnly(single, compressed) && GroupsCollapsed(single, compressed, |compressed|, before, now)
    requires g < |now| && p < |now[g].fileSizes|
    requires p >= single ==> single + (p - single) / 17 < |compressed|
    ensures p < |before[g].fileSizes|
    ensures now[g].fileSizes[p]
            == if p < single then before[g].fileSizes[p]
               else
                 match compressed[single + (p - single) / 17]
                 case None => before[g].fileSizes[p]
                 case Some(size) => if before[g].hasEpilogue && (p - single) % 17 == 16 then size else 0
  {
    assert GroupCollapsed(single, compressed, |compressed|, before[g], now[g]);
  }
}
