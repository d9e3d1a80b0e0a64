/** Rewriting the size and offset tables once some debug sections have been compressed. */
module LayoutRewrite {
  import opened Alignments
  import opened Arithmetic
  import opened Wrappers

  datatype Record = Record(fileSize: nat, memSize: nat, alignment: Alignment, fileOffset: nat)

  datatype Segment = Segment(id: nat, fileOffset: nat)

  /** The output order; the events that only move the location counter take no part here. */
  datatype Event = SegmentStart(segment: nat) | SegmentEnd(segment: nat) | Section(id: nat) | Location

  datatype Group = Group(fileSizes: seq<nat>, hasEpilogue: bool)

  /******* Part numbering *******/

  // Sections below `single` have one part with the section's own number; every later one has a part
  // per alignment, from the coarsest to the finest.

  function BasePart(single: nat, s: nat): nat {
    if s < single then s else single + (s - single) * NUM_ALIGNMENTS
  }

  function NumParts(single: nat, s: nat): (n: nat)
    ensures n > 0
  {
    if s < single then 1 else NUM_ALIGNMENTS
  }

  /** `part_id_with_alignment(MIN)`, which exists for regular sections only. */
  function CompressedPart(single: nat, s: nat): nat
    requires s >= single
  {
    single + (s - single) * NUM_ALIGNMENTS + NUM_ALIGNMENTS - 1
  }

  function OwnerOf(single: nat, p: nat): nat {
    if p < single then p else single + (p - single) / NUM_ALIGNMENTS
  }

  /** Every part belongs to exactly one section: its owner. */
  lemma {:induction false} OwnerIsUnique(single: nat, s: nat, p: nat)
    ensures BasePart(single, s) <= p < BasePart(single, s) + NumParts(single, s) <==> OwnerOf(single, p) == s
  {
  }

  lemma {:induction false} PartsInRange(single: nat, s: nat, n: nat)
    requires s < n
    ensures BasePart(single, s) + NumParts(single, s) <= BasePart(single, n)
    ensures s >= single ==> CompressedPart(single, s) == BasePart(single, s) + NumParts(single, s) - 1
  {
  }

  /******* Sizes after compression *******/

  /** Only regular sections are compressed. */
  ghost predicate RegularOnly(single: nat, compressed: seq<Option<nat>>) {
    forall s :: 0 <= s < |compressed| && compressed[s].Some? ==> s >= single
  }

  /** The size a table holds for part `p` once the compressed sections among the first `n` are
      collapsed into one part each; `holder` tells whether this table keeps the compressed size. */
  function SizeAfter(single: nat, compressed: seq<Option<nat>>, n: nat, p: nat, previous: nat, holder: bool): nat
    requires n <= |compressed|
  {
    var s := OwnerOf(single, p);
    if s >= n || compressed[s] == None then previous
    else if holder && s >= single && p == CompressedPart(single, s) then compressed[s].value
    else 0
  }

  ghost predicate PartsCollapsed(
    single: nat, compressed: seq<Option<nat>>, n: nat, before: seq<Record>, now: seq<Record>)
    requires n <= |compressed|
  {
    && |now| == |before|
    && forall p :: 0 <= p < |now| ==>
         now[p] == before[p].(fileSize := SizeAfter(single, compressed, n, p, before[p].fileSize, true))
  }

  ghost predicate GroupCollapsed(
    single: nat, compressed: seq<Option<nat>>, n: nat, before: Group, now: Group)
    requires n <= |compressed|
  {
    && now.hasEpilogue == before.hasEpilogue
    && |now.fileSizes| == |before.fileSizes|
    && forall p :: 0 <= p < |now.fileSizes| ==>
         now.fileSizes[p] == SizeAfter(single, compressed, n, p, before.fileSizes[p], before.hasEpilogue)
  }

  ghost predicate GroupsCollapsed(
    single: nat, compressed: seq<Option<nat>>, n: nat, before: seq<Group>, now: seq<Group>)
    requires n <= |compressed|
  {
    && |now| == |before|
    && forall g :: 0 <= g < |now| ==> GroupCollapsed(single, compressed, n, before[g], now[g])
  }

  /** A section-level table: compressed sections take their new memory size. */
  ghost predicate MemSizesSet(compressed: seq<Option<nat>>, n: nat, before: seq<Record>, now: seq<Record>)
    requires n <= |compressed|
  {
    && |now| == |before| == |compressed|
    && forall s :: 0 <= s < |now| ==>
         now[s] == if s < n && compressed[s].Some? then before[s].(memSize := compressed[s].value) else before[s]
  }

  /** The part table with every compressed section collapsed. */
  ghost function CollapsedParts(single: nat, compressed: seq<Option<nat>>, before: seq<Record>): (r: seq<Record>)
    ensures PartsCollapsed(single, compressed, |compressed|, before, r)
  {
    seq(|before|, p requires 0 <= p < |before| =>
      before[p].(fileSize := SizeAfter(single, compressed, |compressed|, p, before[p].fileSize, true)))
  }

  /** A section table with the compressed sizes as memory sizes. */
  ghost function WithMemSizes(compressed: seq<Option<nat>>, before: seq<Record>): (r: seq<Record>)
    requires |before| == |compressed|
    ensures MemSizesSet(compressed, |compressed|, before, r)
  {
    seq(|before|, s requires 0 <= s < |before| =>
      if compressed[s].Some? then before[s].(memSize := compressed[s].value) else before[s])
  }

  lemma {:induction false} CollapsedIsUnique(
    single: nat, compressed: seq<Option<nat>>, parts0: seq<Record>, parts: seq<Record>,
    sections0: seq<Record>, sections: seq<Record>, merged0: seq<Record>, merged: seq<Record>)
    requires PartsCollapsed(single, compressed, |compressed|, parts0, parts)
    requires MemSizesSet(compressed, |compressed|, sections0, sections)
    requires MemSizesSet(compressed, |compressed|, merged0, merged)
    ensures parts == CollapsedParts(single, compressed, parts0)
    ensures sections == WithMemSizes(compressed, sections0) && merged == WithMemSizes(compressed, merged0)
  {
  }

  /** One more section: what the two loops over its parts do to a single size. */
  lemma {:induction false} SizeAfterStep(single: nat, compressed: seq<Option<nat>>, s: nat, p: nat,
    previous: nat, holder: bool)
    requires RegularOnly(single, compressed) && s < |compressed|
    ensures SizeAfter(single, compressed, s + 1, p, previous, holder)
            == if compressed[s] == None then SizeAfter(single, compressed, s, p, previous, holder)
               else if holder && p == CompressedPart(single, s) then compressed[s].value
               else if BasePart(single, s) <= p < BasePart(single, s) + NumParts(single, s) then 0
               else SizeAfter(single, compressed, s, p, previous, holder)
  {
    OwnerIsUnique(single, s, p);
    if compressed[s].Some? {
      PartsInRange(single, s, s + 1);
    }
  }

  method CollapseParts(parts: seq<Record>, base: nat, count: nat, last: nat, size: nat) returns (r: seq<Record>)
    requires base <= last < base + count <= |parts|
    ensures |r| == |parts|
    ensures forall p :: 0 <= p < |parts| ==>
              r[p] == if p == last then parts[p].(fileSize := size)
                      else if base <= p < base + count then parts[p].(fileSize := 0)
                      else parts[p]
  {
    r := parts;
    for j := 0 to count
      invariant |r| == |parts|
      invariant forall p :: 0 <= p < |parts| ==>
                  r[p] == if base <= p < base + j then parts[p].(fileSize := 0) else parts[p]
    {
      r := r[base + j := r[base + j].(fileSize := 0)];
    }
    r := r[last := r[last].(fileSize := size)];
  }

  method ClearSizes(sizes: seq<nat>, base: nat, count: nat) returns (r: seq<nat>)
    requires base + count <= |sizes|
    ensures |r| == |sizes|
    ensures forall p :: 0 <= p < |sizes| ==> r[p] == if base <= p < base + count then 0 else sizes[p]
  {
    r := sizes;
    for j := 0 to count
      invariant |r| == |sizes|
      invariant forall p :: 0 <= p < |sizes| ==> r[p] == if base <= p < base + j then 0 else sizes[p]
    {
      r := r[base + j := 0];
    }
  }

  method CollapseGroups(groups: seq<Group>, base: nat, count: nat, last: nat, size: nat)
    returns (r: seq<Group>)
    requires base <= last < base + count
    requires forall g :: 0 <= g < |groups| ==> base + count <= |groups[g].fileSizes|
    ensures |r| == |groups|
    ensures forall g :: 0 <= g < |groups| ==>
              && r[g].hasEpilogue == groups[g].hasEpilogue
              && |r[g].fileSizes| == |groups[g].fileSizes|
              && forall p :: 0 <= p < |r[g].fileSizes| ==>
                   r[g].fileSizes[p] == if p == last && groups[g].hasEpilogue then size
                                        else if base <= p < base + count then 0
                                        else groups[g].fileSizes[p]
  {
    r := [];
    for g := 0 to |groups|
      invariant |r| == g
      invariant forall h :: 0 <= h < g ==>
                  && r[h].hasEpilogue == groups[h].hasEpilogue
                  && |r[h].fileSizes| == |groups[h].fileSizes|
                  && forall p :: 0 <= p < |r[h].fileSizes| ==>
                       r[h].fileSizes[p] == if p == last && groups[h].hasEpilogue then size
                                            else if base <= p < base + count then 0
                                            else groups[h].fileSizes[p]
    {
      var sizes := ClearSizes(groups[g].fileSizes, base, count);
      if groups[g].hasEpilogue {
        sizes := sizes[last := size];
      }
      r := r + [Group(sizes, groups[g].hasEpilogue)];
    }
  }

  /******* Offsets *******/

  /** What the offsets depend on. */
  datatype Plan = Plan(single: nat, order: seq<Event>, alignments: seq<Alignment>, sizes: seq<nat>)

  function PlanFor(single: nat, order: seq<Event>, sections: seq<Record>, parts: seq<Record>): (plan: Plan)
    ensures plan.single == single && plan.order == order
    ensures |plan.alignments| == |sections| && |plan.sizes| == |parts|
    ensures forall s :: 0 <= s < |sections| ==> plan.alignments[s] == sections[s].alignment
    ensures forall p :: 0 <= p < |parts| ==> plan.sizes[p] == parts[p].fileSize
  {
    Plan(single, order,
         seq(|sections|, s requires 0 <= s < |sections| => sections[s].alignment),
         seq(|parts|, p requires 0 <= p < |parts| => parts[p].fileSize))
  }

  /** Moving things does not change what the offsets depend on. */
  lemma {:induction false} PlanUnchanged(
    single: nat, order: seq<Event>,
    sections: seq<Record>, sections': seq<Record>, parts: seq<Record>, parts': seq<Record>)
    requires |sections'| == |sections| && |parts'| == |parts|
    requires forall s :: 0 <= s < |sections| ==> sections'[s].alignment == sections[s].alignment
    requires forall p :: 0 <= p < |parts| ==> parts'[p].fileSize == parts[p].fileSize
    ensures PlanFor(single, order, sections', parts') == PlanFor(single, order, sections, parts)
  {
    var a, b := PlanFor(single, order, sections', parts'), PlanFor(single, order, sections, parts);
    assert a.alignments == b.alignments && a.sizes == b.sizes;
  }

  ghost predicate GoodPlan(plan: Plan) {
    && |plan.sizes| == BasePart(plan.single, |plan.alignments|)
    && forall k :: 0 <= k < |plan.order| && plan.order[k].Section? ==> plan.order[k].id < |plan.alignments|
  }

  /** Bytes in the first `j` parts of section `s`. */
  function SizeUpTo(plan: Plan, s: nat, j: nat): nat
    requires GoodPlan(plan) && s < |plan.alignments| && j <= NumParts(plan.single, s)
  {
    if j == 0 then 0
    else
      PartsInRange(plan.single, s, |plan.alignments|);
      SizeUpTo(plan, s, j - 1) + plan.sizes[BasePart(plan.single, s) + j - 1]
  }

  function SectionSize(plan: Plan, s: nat): nat
    requires GoodPlan(plan) && s < |plan.alignments|
  {
    SizeUpTo(plan, s, NumParts(plan.single, s))
  }

  /** The running file offset once `n` events have been read. */
  function OffsetAfter(plan: Plan, n: nat): nat
    requires GoodPlan(plan) && n <= |plan.order|
    decreases n, 0
  {
    if n == 0 then 0
    else if plan.order[n - 1].Section? then SectionEnd(plan, n - 1)
    else OffsetAfter(plan, n - 1)
  }

  function SectionStart(plan: Plan, k: nat): nat
    requires GoodPlan(plan) && k < |plan.order| && plan.order[k].Section?
    decreases k, 1
  {
    plan.alignments[plan.order[k].id].AlignUp(OffsetAfter(plan, k))
  }

  function SectionEnd(plan: Plan, k: nat): nat
    requires GoodPlan(plan) && k < |plan.order| && plan.order[k].Section?
    decreases k, 2
  {
    SectionStart(plan, k) + SectionSize(plan, plan.order[k].id)
  }

  lemma {:induction false} OffsetStep(plan: Plan, n: nat)
    requires GoodPlan(plan) && n < |plan.order|
    ensures OffsetAfter(plan, n) <= OffsetAfter(plan, n + 1)
    ensures plan.order[n].Section? ==>
              OffsetAfter(plan, n) <= SectionStart(plan, n) <= SectionEnd(plan, n) == OffsetAfter(plan, n + 1)
  {
  }

  lemma {:induction false} OffsetsGrow(plan: Plan, m: nat, n: nat)
    requires GoodPlan(plan) && m <= n <= |plan.order|
    ensures OffsetAfter(plan, m) <= OffsetAfter(plan, n)
    decreases n
  {
    if m < n {
      OffsetsGrow(plan, m, n - 1);
      OffsetStep(plan, n - 1);
    }
  }

  /** Section file ranges do not overlap and follow the output order; each starts aligned. */
  lemma {:induction false} SectionsInOrder(plan: Plan, j: nat, k: nat)
    requires GoodPlan(plan) && j < k < |plan.order| && plan.order[j].Section? && plan.order[k].Section?
    ensures SectionStart(plan, j) <= SectionEnd(plan, j) <= SectionStart(plan, k)
    ensures Divides(plan.alignments[plan.order[k].id].Value(), SectionStart(plan, k))
  {
    OffsetStep(plan, j);
    OffsetsGrow(plan, j + 1, k);
    NextMultipleOfIsLeast(OffsetAfter(plan, k), plan.alignments[plan.order[k].id].Value());
  }

  /******* Segments *******/

  /** How many segments have been taken off the list after `n` events. */
  function Taken(order: seq<Event>, segments: seq<Segment>, n: nat): (t: nat)
    requires n <= |order|
    ensures t <= |segments|
  {
    if n == 0 then 0
    else
      var t := Taken(order, segments, n - 1);
      if order[n - 1].SegmentStart? && t < |segments| && segments[t].id == order[n - 1].segment
      then t + 1 else t
  }

  /** Event `n` starts the next segment on the list. */
  predicate StartsSegment(order: seq<Event>, segments: seq<Segment>, n: nat)
    requires n < |order|
  {
    var t := Taken(order, segments, n);
    order[n].SegmentStart? && t < |segments| && segments[t].id == order[n].segment
  }

  /** Every segment that starts within the first `n` events still starts where it did. */
  ghost predicate SegmentsStay(plan: Plan, segments: seq<Segment>, n: nat)
    requires GoodPlan(plan) && n <= |plan.order|
  {
    forall k {:trigger StartsSegment(plan.order, segments, k)} ::
      0 <= k < n && StartsSegment(plan.order, segments, k) ==>
        segments[Taken(plan.order, segments, k)].fileOffset == OffsetAfter(plan, k)
  }

  /******* Merged sections *******/

  function TargetOf(mergeTarget: seq<Option<nat>>, s: nat): nat
    requires s < |mergeTarget|
  {
    if mergeTarget[s].Some? then mergeTarget[s].value else s
  }

  /** Event `k` is a section that is merged into `t`. */
  predicate MergesInto(order: seq<Event>, mergeTarget: seq<Option<nat>>, k: nat, t: nat)
    requires k < |order|
  {
    order[k].Section? && order[k].id < |mergeTarget| && TargetOf(mergeTarget, order[k].id) == t
  }

  /** Where the last section merged into `t` among the first `n` events ends. */
  function MergedEnd(plan: Plan, mergeTarget: seq<Option<nat>>, t: nat, n: nat): nat
    requires GoodPlan(plan) && n <= |plan.order|
  {
    if n == 0 then 0
    else if MergesInto(plan.order, mergeTarget, n - 1, t) then SectionEnd(plan, n - 1)
    else MergedEnd(plan, mergeTarget, t, n - 1)
  }

  /** The range of a merge target covers every section merged into it. */
  lemma {:induction false} MergedEndCovers(plan: Plan, mergeTarget: seq<Option<nat>>, t: nat, k: nat, n: nat)
    requires GoodPlan(plan) && k < n <= |plan.order| && MergesInto(plan.order, mergeTarget, k, t)
    ensures SectionEnd(plan, k) <= MergedEnd(plan, mergeTarget, t, n) <= OffsetAfter(plan, n)
    decreases n
  {
    OffsetStep(plan, n - 1);
    if k < n - 1 {
      MergedEndCovers(plan, mergeTarget, t, k, n - 1);
      if MergesInto(plan.order, mergeTarget, n - 1, t) {
        SectionsInOrder(plan, k, n - 1);
      }
    }
  }

  /******* What a finished rewrite looks like *******/

  predicate SectionAt(order: seq<Event>, k: int, s: nat) {
    0 <= k < |order| && order[k] == Section(s)
  }

  predicate Seen(order: seq<Event>, n: nat, s: nat)
    requires n <= |order|
  {
    n > 0 && (order[n - 1] == Section(s) || Seen(order, n - 1, s))
  }

  /** One of the first `n` events is a section merged into `t`. */
  predicate SeenTarget(order: seq<Event>, mergeTarget: seq<Option<nat>>, n: nat, t: nat)
    requires n <= |order|
  {
    n > 0 && (MergesInto(order, mergeTarget, n - 1, t) || SeenTarget(order, mergeTarget, n - 1, t))
  }

  /** A section appears at most once in the output order. */
  ghost predicate NoRepeats(order: seq<Event>) {
    forall j, k, s: nat {:trigger SectionAt(order, j, s), SectionAt(order, k, s)} ::
      SectionAt(order, j, s) && SectionAt(order, k, s) ==> j == k
  }

  /** A section comes after the one it is merged into. */
  ghost predicate TargetsFirst(order: seq<Event>, mergeTarget: seq<Option<nat>>) {
    forall k, s: nat {:trigger SectionAt(order, k, s)} ::
      SectionAt(order, k, s) && s < |mergeTarget| && mergeTarget[s].Some? ==>
        && mergeTarget[s].value < |mergeTarget| && mergeTarget[mergeTarget[s].value] == None
        && exists j :: j < k && SectionAt(order, j, mergeTarget[s].value)
  }

  /** Sections: offset and size are set for those among the first `n` events, nothing else changes. */
  ghost predicate SectionsPlaced(plan: Plan, n: nat, before: seq<Record>, now: seq<Record>)
    requires GoodPlan(plan) && n <= |plan.order|
  {
    && |now| == |before| == |plan.alignments|
    && (forall s :: 0 <= s < |now| ==>
          now[s] == before[s].(fileOffset := now[s].fileOffset, fileSize := now[s].fileSize))
    && (forall s :: 0 <= s < |now| && !Seen(plan.order, n, s) ==> now[s] == before[s])
    && forall k, s: nat {:trigger SectionAt(plan.order, k, s)} ::
         k < n && SectionAt(plan.order, k, s) ==>
           now[s].fileOffset == SectionStart(plan, k) && now[s].fileSize == SectionSize(plan, s)
  }

  /** Parts: they tile their section in order without gaps; only offsets change. */
  ghost predicate PartsPlaced(plan: Plan, n: nat, before: seq<Record>, now: seq<Record>)
    requires GoodPlan(plan) && n <= |plan.order|
  {
    && |now| == |before| == |plan.sizes|
    && (forall p :: 0 <= p < |now| ==> now[p] == before[p].(fileOffset := now[p].fileOffset))
    && (forall p :: 0 <= p < |now| && !Seen(plan.order, n, OwnerOf(plan.single, p)) ==> now[p] == before[p])
    && forall k, s: nat {:trigger SectionAt(plan.order, k, s)} ::
         k < n && SectionAt(plan.order, k, s) ==> PartsTile(plan, k, s, now)
  }

  ghost predicate PartsTile(plan: Plan, k: nat, s: nat, now: seq<Record>)
    requires GoodPlan(plan) && SectionAt(plan.order, k, s) && |now| == |plan.sizes|
  {
    forall j :: 0 <= j < NumParts(plan.single, s) ==> PartStartsAt(plan, s, j, SectionStart(plan, k), now)
  }

  predicate PartStartsAt(plan: Plan, s: nat, j: nat, start: nat, now: seq<Record>)
    requires GoodPlan(plan) && s < |plan.alignments| && j < NumParts(plan.single, s) && |now| == |plan.sizes|
  {
    PartsInRange(plan.single, s, |plan.alignments|);
    now[BasePart(plan.single, s) + j].fileOffset == start + SizeUpTo(plan, s, j)
  }

  /** Merge targets: the range runs from the target's own start to the end of the last section merged
      into it so far. */
  ghost predicate MergedPlaced(
    plan: Plan, mergeTarget: seq<Option<nat>>, n: nat, before: seq<Record>, now: seq<Record>)
    requires GoodPlan(plan) && n <= |plan.order|
  {
    && |now| == |before| == |mergeTarget| == |plan.alignments|
    && (forall s :: 0 <= s < |now| ==>
          now[s] == before[s].(fileOffset := now[s].fileOffset, fileSize := now[s].fileSize))
    && (forall s :: 0 <= s < |now| && !SeenTarget(plan.order, mergeTarget, n, s) ==> now[s] == before[s])
    && forall k, t: nat {:trigger SectionAt(plan.order, k, t)} ::
         k < n && SectionAt(plan.order, k, t) && mergeTarget[t] == None ==>
           && now[t].fileOffset == SectionStart(plan, k)
           && now[t].fileOffset + now[t].fileSize == MergedEnd(plan, mergeTarget, t, n)
  }

  method PlaceParts(parts: seq<Record>, start: nat, ghost plan: Plan, single: nat, s: nat)
    returns (r: seq<Record>, end: nat)
    requires GoodPlan(plan) && single == plan.single && s < |plan.alignments| && |parts| == |plan.sizes|
    requires forall p :: 0 <= p < |parts| ==> parts[p].fileSize == plan.sizes[p]
    ensures |r| == |parts| && end == start + SectionSize(plan, s)
    ensures forall p :: 0 <= p < |parts| ==> r[p] == parts[p].(fileOffset := r[p].fileOffset)
    ensures forall p :: 0 <= p < |parts| && OwnerOf(single, p) != s ==> r[p] == parts[p]
    ensures forall j :: 0 <= j < NumParts(single, s) ==> PartStartsAt(plan, s, j, start, r)
  {
    PartsInRange(single, s, |plan.alignments|);
    ghost var base := BasePart(single, s);
    r, end := parts, start;
    for j := 0 to NumParts(single, s)
      invariant |r| == |parts| && end == start + SizeUpTo(plan, s, j)
      invariant forall p :: 0 <= p < |parts| ==> r[p] == parts[p].(fileOffset := r[p].fileOffset)
      invariant forall p :: 0 <= p < |parts| && !(base <= p < base + j) ==> r[p] == parts[p]
      invariant forall i :: 0 <= i < j ==> r[base + i].fileOffset == start + SizeUpTo(plan, s, i)
    {
      var p := BasePart(single, s) + j;
      r := r[p := r[p].(fileOffset := end)];
      end := end + r[p].fileSize;
    }
    forall p | 0 <= p < |parts| && OwnerOf(single, p) != s
      ensures r[p] == parts[p]
    {
      OwnerIsUnique(single, s, p);
    }
  }

  /** One event that is not a section leaves the placement as it was. */
  lemma {:induction false} SkipEvent(
    plan: Plan, mergeTarget: seq<Option<nat>>, n: nat,
    sections0: seq<Record>, sections: seq<Record>, parts0: seq<Record>, parts: seq<Record>,
    merged0: seq<Record>, merged: seq<Record>)
    requires GoodPlan(plan) && n < |plan.order| && !plan.order[n].Section?
    requires SectionsPlaced(plan, n, sections0, sections)
    requires PartsPlaced(plan, n, parts0, parts)
    requires MergedPlaced(plan, mergeTarget, n, merged0, merged)
    ensures SectionsPlaced(plan, n + 1, sections0, sections)
    ensures PartsPlaced(plan, n + 1, parts0, parts)
    ensures MergedPlaced(plan, mergeTarget, n + 1, merged0, merged)
  {
    hide SectionStart, SectionSize, PartsTile, MergedEnd;
    SkipMergedEnd(plan, mergeTarget, n);
  }

  lemma {:induction false} SkipMergedEnd(plan: Plan, mergeTarget: seq<Option<nat>>, n: nat)
    requires GoodPlan(plan) && n < |plan.order| && !plan.order[n].Section?
    ensures forall t :: MergedEnd(plan, mergeTarget, t, n + 1) == MergedEnd(plan, mergeTarget, t, n)
  {
  }

  lemma {:induction false} PlaceSection(plan: Plan, n: nat, s: nat, before: seq<Record>, now: seq<Record>,
    next: seq<Record>)
    requires GoodPlan(plan) && SectionAt(plan.order, n, s) && NoRepeats(plan.order)
    requires SectionsPlaced(plan, n, before, now)
    requires next == now[s := now[s].(fileOffset := SectionStart(plan, n), fileSize := SectionSize(plan, s))]
    ensures SectionsPlaced(plan, n + 1, before, next)
  {
    hide SectionStart, SectionSize;
    forall k, t: nat | k < n + 1 && SectionAt(plan.order, k, t)
      ensures next[t].fileOffset == SectionStart(plan, k) && next[t].fileSize == SectionSize(plan, t)
    {
      if k == n {
        assert t == s;
      } else {
        assert t != s;
      }
    }
  }

  lemma {:induction false} PlacePartsOf(plan: Plan, n: nat, s: nat, before: seq<Record>, now: seq<Record>,
    next: seq<Record>)
    requires GoodPlan(plan) && SectionAt(plan.order, n, s) && NoRepeats(plan.order)
    requires PartsPlaced(plan, n, before, now) && |next| == |now|
    requires forall p :: 0 <= p < |now| ==> next[p] == now[p].(fileOffset := next[p].fileOffset)
    requires forall p :: 0 <= p < |now| && OwnerOf(plan.single, p) != s ==> next[p] == now[p]
    requires forall j :: 0 <= j < NumParts(plan.single, s) ==> PartStartsAt(plan, s, j, SectionStart(plan, n), next)
    ensures PartsPlaced(plan, n + 1, before, next)
  {
    hide SectionStart, SizeUpTo;
    forall k, t: nat | k < n + 1 && SectionAt(plan.order, k, t)
      ensures PartsTile(plan, k, t, next)
    {
      if k == n {
        assert t == s;
      } else {
        assert t != s;
        assert PartsTile(plan, k, t, now);
        forall j | 0 <= j < NumParts(plan.single, t)
          ensures PartStartsAt(plan, t, j, SectionStart(plan, k), next)
        {
          PartsInRange(plan.single, t, |plan.alignments|);
          OwnerIsUnique(plan.single, t, BasePart(plan.single, t) + j);
          assert PartStartsAt(plan, t, j, SectionStart(plan, k), now);
        }
      }
    }
  }

  /** The merged table after section `s`: its target's range now ends where `s` ends. */
  lemma {:induction false} PlaceMerged(
    plan: Plan, mergeTarget: seq<Option<nat>>, n: nat, s: nat,
    before: seq<Record>, now: seq<Record>, next: seq<Record>)
    requires GoodPlan(plan) && SectionAt(plan.order, n, s)
    requires NoRepeats(plan.order) && TargetsFirst(plan.order, mergeTarget)
    requires MergedPlaced(plan, mergeTarget, n, before, now)
    requires TargetOf(mergeTarget, s) < |now|
    requires var t := TargetOf(mergeTarget, s);
             var start := if t == s then SectionStart(plan, n) else now[t].fileOffset;
             start <= SectionEnd(plan, n) &&
             next == now[t := now[t].(fileOffset := start, fileSize := SectionEnd(plan, n) - start)]
    ensures MergedPlaced(plan, mergeTarget, n + 1, before, next)
  {
    var t := TargetOf(mergeTarget, s);
    MergedEndStep(plan, mergeTarget, n, s);
    hide SectionStart, SectionEnd, SectionSize, MergedEnd;
    forall k, u: nat | k < n + 1 && SectionAt(plan.order, k, u) && mergeTarget[u] == None
      ensures next[u].fileOffset == SectionStart(plan, k)
      ensures next[u].fileOffset + next[u].fileSize == MergedEnd(plan, mergeTarget, u, n + 1)
    {
      if k == n {
        assert u == s && t == s;
      } else {
        assert u != s;
        assert MergedEnd(plan, mergeTarget, u, n + 1)
               == if u == t then SectionEnd(plan, n) else MergedEnd(plan, mergeTarget, u, n);
      }
    }
  }

  lemma {:induction false} MergedEndStep(plan: Plan, mergeTarget: seq<Option<nat>>, n: nat, s: nat)
    requires GoodPlan(plan) && SectionAt(plan.order, n, s) && s < |mergeTarget|
    ensures forall u {:trigger MergedEnd(plan, mergeTarget, u, n + 1)} ::
              MergedEnd(plan, mergeTarget, u, n + 1)
              == if u == TargetOf(mergeTarget, s) then SectionEnd(plan, n) else MergedEnd(plan, mergeTarget, u, n)
  {
  }

  /** The target of a section that is not its own was placed at or before the current offset. */
  lemma {:induction false} TargetPlacedEarlier(
    plan: Plan, mergeTarget: seq<Option<nat>>, n: nat, s: nat, before: seq<Record>, now: seq<Record>)
    requires GoodPlan(plan) && SectionAt(plan.order, n, s) && TargetsFirst(plan.order, mergeTarget)
    requires MergedPlaced(plan, mergeTarget, n, before, now)
    ensures var t := TargetOf(mergeTarget, s);
            t < |now| && (t != s ==> now[t].fileOffset <= SectionStart(plan, n))
  {
    if mergeTarget[s].Some? {
      var t := mergeTarget[s].value;
      var j :| j < n && SectionAt(plan.order, j, t);
      SectionsInOrder(plan, j, n);
    }
  }

  /******* The tables *******/

  class Layout {
    const single: nat
    const order: seq<Event>
    const segments: seq<Segment>
    const mergeTarget: seq<Option<nat>>
    const compressed: seq<Option<nat>>
    var parts: seq<Record>
    var sections: seq<Record>
    var merged: seq<Record>
    var groups: seq<Group>

    /** The tables have one entry per section or part; only regular sections are compressed. */
    ghost predicate Valid()
      reads this
    {
      && |sections| == |merged| == |mergeTarget| == |compressed|
      && |parts| == BasePart(single, |sections|)
      && (forall g :: 0 <= g < |groups| ==> |groups[g].fileSizes| == |parts|)
      && RegularOnly(single, compressed)
      && (forall k :: 0 <= k < |order| && order[k].Section? ==> order[k].id < |sections|)
    }

    ghost function PlanOf(): (plan: Plan)
      reads this
      requires Valid()
      ensures GoodPlan(plan)
    {
      PlanFor(single, order, sections, parts)
    }

    /** Collapses every compressed section into its finest part, in all the tables. */
    method UpdateAllocationSizes()
      requires Valid()
      modifies `parts, `sections, `merged, `groups
      ensures Valid()
      ensures PartsCollapsed(single, compressed, |compressed|, old(parts), parts)
      ensures GroupsCollapsed(single, compressed, |compressed|, old(groups), groups)
      ensures MemSizesSet(compressed, |compressed|, old(sections), sections)
      ensures MemSizesSet(compressed, |compressed|, old(merged), merged)
    {
      hide SizeAfter, RegularOnly, PartsCollapsed, GroupsCollapsed;
      NothingCollapsed(single, compressed, parts, groups);
      for s := 0 to |compressed|
        invariant Valid()
        invariant PartsCollapsed(single, compressed, s, old(parts), parts)
        invariant GroupsCollapsed(single, compressed, s, old(groups), groups)
        invariant MemSizesSet(compressed, s, old(sections), sections)
        invariant MemSizesSet(compressed, s, old(merged), merged)
      {
        ghost var partsBefore, groupsBefore := parts, groups;
        if compressed[s].Some? {
          IsRegular(single, compressed, s);
          CollapsedShapes(single, compressed, s, old(parts), parts, old(groups), groups);
          PartsInRange(single, s, |sections|);
          var compressedSize := compressed[s].value;
          var base, count, last := BasePart(single, s), NumParts(single, s), CompressedPart(single, s);
          parts := CollapseParts(parts, base, count, last, compressedSize);
          merged := merged[s := merged[s].(memSize := compressedSize)];
          sections := sections[s := sections[s].(memSize := compressedSize)];
          groups := CollapseGroups(groups, base, count, last, compressedSize);
        }
        PartsStep(single, compressed, s, old(parts), partsBefore, parts);
        GroupsStep(single, compressed, s, old(groups), groupsBefore, groups);
      }
    }

    /** Lays the file out again in output order. Fails when a segment would have to move. */
    method UpdateFileOffset() returns (r: Result<(), string>)
      requires Valid() && NoRepeats(order) && TargetsFirst(order, mergeTarget)
      modifies `parts, `sections, `merged
      ensures Valid() && PlanOf() == old(PlanOf())
      ensures r.Ok? <==> SegmentsStay(PlanOf(), segments, |order|)
      ensures r.Ok? ==>
                && SectionsPlaced(PlanOf(), |order|, old(sections), sections)
                && PartsPlaced(PlanOf(), |order|, old(parts), parts)
                && MergedPlaced(PlanOf(), mergeTarget, |order|, old(merged), merged)
    {
      hide SectionsPlaced, PartsPlaced, MergedPlaced, SegmentsStay, NoRepeats, TargetsFirst, SectionSize,
        OffsetAfter, Taken, GoodPlan, SectionStart, SectionEnd;
      ghost var plan := PlanOf();
      var next, fileOffset := 0, 0;
      NothingPlaced(plan, segments, mergeTarget, sections, parts, merged);
      for n := 0 to |order|
        invariant Valid() && PlanOf() == plan
        invariant next == Taken(order, segments, n) && fileOffset == OffsetAfter(plan, n)
        invariant SegmentsStay(plan, segments, n)
        invariant SectionsPlaced(plan, n, old(sections), sections)
        invariant PartsPlaced(plan, n, old(parts), parts)
        invariant MergedPlaced(plan, mergeTarget, n, old(merged), merged)
      {
        EventStep(plan, segments, n);
        match order[n]
        case SegmentStart(id) =>
          SkipEvent(plan, mergeTarget, n, old(sections), sections, old(parts), parts, old(merged), merged);
          if next < |segments| && segments[next].id == id {
            if segments[next].fileOffset != fileOffset {
              SegmentMoved(plan, segments, n);
              return Err("Segment moved due to debug info compression");
            }
            next := next + 1;
          }
        case Section(s) =>
          TargetPlacedEarlier(plan, mergeTarget, n, s, old(merged), merged);
          fileOffset := PlaceOne(s, fileOffset, plan, n, old(sections), old(parts), old(merged));
        case SegmentEnd(_) =>
          SkipEvent(plan, mergeTarget, n, old(sections), sections, old(parts), parts, old(merged), merged);
        case Location =>
          SkipEvent(plan, mergeTarget, n, old(sections), sections, old(parts), parts, old(merged), merged);
      }
      return Ok(());
    }

    /** The whole step after compression: sizes first, then offsets. */
    method Rewrite() returns (r: Result<(), string>)
      requires Valid() && NoRepeats(order) && TargetsFirst(order, mergeTarget)
      modifies `parts, `sections, `merged, `groups
      ensures Valid() && (r.Ok? <==> SegmentsStay(PlanOf(), segments, |order|))
      ensures GroupsCollapsed(single, compressed, |compressed|, old(groups), groups)
      ensures r.Ok? ==>
                && SectionsPlaced(PlanOf(), |order|, WithMemSizes(compressed, old(sections)), sections)
                && PartsPlaced(PlanOf(), |order|, CollapsedParts(single, compressed, old(parts)), parts)
                && MergedPlaced(PlanOf(), mergeTarget, |order|, WithMemSizes(compressed, old(merged)), merged)
                && forall k, s: nat {:trigger SectionAt(order, k, s)} ::
                     SectionAt(order, k, s) && compressed[s].Some? ==>
                       && sections[s].fileSize == compressed[s].value
                       && (EpilogueCount(groups) == 1 ==>
                             forall p :: 0 <= p < |parts| && OwnerOf(single, p) == s ==>
                               GroupTotal(groups, p) == parts[p].fileSize)
      ensures r.Ok? ==>
                forall k, s: nat {:trigger SectionAt(order, k, s)} ::
                  SectionAt(order, k, s) && compressed[s] == None ==>
                    && sections[s].fileSize == SectionSize(old(PlanOf()), s)
                    && forall p :: 0 <= p < |parts| && OwnerOf(single, p) == s ==>
                         && parts[p].fileSize == old(parts[p].fileSize)
                         && GroupTotal(groups, p) == old(GroupTotal(groups, p))
    {
      UpdateAllocationSizes();
      ghost var parts1, sections1 := parts, sections;
      CollapsedIsUnique(single, compressed, old(parts), parts, old(sections), sections, old(merged), merged);
      r := UpdateFileOffset();
      if r.Ok? {
        ghost var plan := PlanOf();
        hide SectionsPlaced, PartsPlaced, MergedPlaced, PartsCollapsed, GroupsCollapsed, SegmentsStay,
          GroupTotal, EpilogueCount, NoRepeats, TargetsFirst;
        SizesStillCollapsed(plan, single, compressed, old(parts), parts1, parts);
        TablesAgree(single, compressed, old(parts), parts1, old(groups), groups, old(PlanOf()), plan,
                    sections1, sections);
      }
    }

    /** The `Section` arm: aligns, places the parts, and records the section and its merge target. */
    method PlaceOne(
      s: nat, offset: nat, ghost plan: Plan, ghost n: nat,
      ghost sections0: seq<Record>, ghost parts0: seq<Record>, ghost merged0: seq<Record>)
      returns (fileOffset: nat)
      requires Valid() && PlanOf() == plan && SectionAt(order, n, s) && offset == OffsetAfter(plan, n)
      requires NoRepeats(order) && TargetsFirst(order, mergeTarget)
      requires SectionsPlaced(plan, n, sections0, sections)
      requires PartsPlaced(plan, n, parts0, parts)
      requires MergedPlaced(plan, mergeTarget, n, merged0, merged)
      modifies `parts, `sections, `merged
      ensures Valid() && PlanOf() == plan && fileOffset == SectionEnd(plan, n)
      ensures SectionsPlaced(plan, n + 1, sections0, sections)
      ensures PartsPlaced(plan, n + 1, parts0, parts)
      ensures MergedPlaced(plan, mergeTarget, n + 1, merged0, merged)
    {
      TargetPlacedEarlier(plan, mergeTarget, n, s, merged0, merged);
      hide SectionsPlaced, PartsPlaced, MergedPlaced, NoRepeats, TargetsFirst, SectionSize, OffsetAfter, GoodPlan,
        PartStartsAt, PlanFor;
      ghost var sectionsBefore, partsBefore, mergedBefore := sections, parts, merged;
      fileOffset := sections[s].alignment.AlignUp(offset);
      sections := sections[s := sections[s].(fileOffset := fileOffset)];
      var target := TargetOf(mergeTarget, s);
      if target == s {
        merged := merged[target := merged[target].(fileOffset := fileOffset)];
      }
      parts, fileOffset := PlaceParts(parts, fileOffset, plan, single, s);
      sections := sections[s := sections[s].(fileSize := fileOffset - sections[s].fileOffset)];
      merged := merged[target := merged[target].(fileSize := fileOffset - merged[target].fileOffset)];
      PlanUnchanged(single, order, sectionsBefore, sections, partsBefore, parts);
      PlaceSection(plan, n, s, sections0, sectionsBefore, sections);
      PlacePartsOf(plan, n, s, parts0, partsBefore, parts);
      PlaceMerged(plan, mergeTarget, n, s, merged0, mergedBefore, merged);
    }
  }

  /** Placing parts leaves their sizes alone. */
  lemma {:induction false} SizesStillCollapsed(
    plan: Plan, single: nat, compressed: seq<Option<nat>>,
    before: seq<Record>, collapsed: seq<Record>, placed: seq<Record>)
    requires GoodPlan(plan) && PartsCollapsed(single, compressed, |compressed|, before, collapsed)
    requires PartsPlaced(plan, |plan.order|, collapsed, placed)
    ensures |placed| == |collapsed| == |before|
    ensures forall p :: 0 <= p < |placed| ==> placed[p].fileSize == collapsed[p].fileSize
  {
  }

  lemma {:induction false} NothingPlaced(
    plan: Plan, segments: seq<Segment>, mergeTarget: seq<Option<nat>>,
    sections: seq<Record>, parts: seq<Record>, merged: seq<Record>)
    requires GoodPlan(plan) && |sections| == |merged| == |mergeTarget| == |plan.alignments|
    requires |parts| == |plan.sizes|
    ensures SectionsPlaced(plan, 0, sections, sections) && PartsPlaced(plan, 0, parts, parts)
    ensures MergedPlaced(plan, mergeTarget, 0, merged, merged)
    ensures SegmentsStay(plan, segments, 0) && Taken(plan.order, segments, 0) == 0 && OffsetAfter(plan, 0) == 0
  {
  }

  /** What reading event `n` does to the segment list and the offset. */
  lemma {:induction false} EventStep(plan: Plan, segments: seq<Segment>, n: nat)
    requires GoodPlan(plan) && n < |plan.order| && SegmentsStay(plan, segments, n)
    ensures var t := Taken(plan.order, segments, n);
            var starts := plan.order[n].SegmentStart? && t < |segments| && segments[t].id == plan.order[n].segment;
            && Taken(plan.order, segments, n + 1) == (if starts then t + 1 else t)
            && (SegmentsStay(plan, segments, n + 1) <==>
                (starts ==> segments[t].fileOffset == OffsetAfter(plan, n)))
    ensures OffsetAfter(plan, n + 1) ==
            if plan.order[n].Section? then SectionEnd(plan, n) else OffsetAfter(plan, n)
  {
    assert StartsSegment(plan.order, segments, n) <==>
      plan.order[n].SegmentStart? && Taken(plan.order, segments, n) < |segments|
      && segments[Taken(plan.order, segments, n)].id == plan.order[n].segment;
  }

  lemma {:induction false} SegmentMoved(plan: Plan, segments: seq<Segment>, n: nat)
    requires GoodPlan(plan) && n < |plan.order| && !SegmentsStay(plan, segments, n + 1)
    ensures !SegmentsStay(plan, segments, |plan.order|)
  {
  }

  lemma {:induction false} IsRegular(single: nat, compressed: seq<Option<nat>>, s: nat)
    requires RegularOnly(single, compressed) && s < |compressed| && compressed[s].Some?
    ensures s >= single
  {
  }

  lemma {:induction false} NothingCollapsed(single: nat, compressed: seq<Option<nat>>, parts: seq<Record>,
    groups: seq<Group>)
    ensures PartsCollapsed(single, compressed, 0, parts, parts)
    ensures GroupsCollapsed(single, compressed, 0, groups, groups)
  {
  }

  lemma {:induction false} CollapsedShapes(
    single: nat, compressed: seq<Option<nat>>, n: nat,
    parts0: seq<Record>, parts: seq<Record>, groups0: seq<Group>, groups: seq<Group>)
    requires n <= |compressed|
    requires PartsCollapsed(single, compressed, n, parts0, parts)
    requires GroupsCollapsed(single, compressed, n, groups0, groups)
    ensures |parts| == |parts0| && |groups| == |groups0|
  {
  }

  /** The part table after section `s`, given what the loop did to it. */
  lemma {:induction false} PartsStep(
    single: nat, compressed: seq<Option<nat>>, s: nat,
    first: seq<Record>, before: seq<Record>, now: seq<Record>)
    requires RegularOnly(single, compressed) && s < |compressed|
    requires PartsCollapsed(single, compressed, s, first, before) && |now| == |before|
    requires forall p :: 0 <= p < |now| ==>
               now[p] == if compressed[s] == None then before[p]
                         else if p == CompressedPart(single, s) then before[p].(fileSize := compressed[s].value)
                         else if BasePart(single, s) <= p < BasePart(single, s) + NumParts(single, s)
                         then before[p].(fileSize := 0) else before[p]
    ensures PartsCollapsed(single, compressed, s + 1, first, now)
  {
    hide SizeAfter;
    forall p | 0 <= p < |now|
      ensures now[p] == first[p].(fileSize := SizeAfter(single, compressed, s + 1, p, first[p].fileSize, true))
    {
      SizeAfterStep(single, compressed, s, p, first[p].fileSize, true);
    }
  }

  lemma {:induction false} GroupsStep(
    single: nat, compressed: seq<Option<nat>>, s: nat,
    first: seq<Group>, before: seq<Group>, now: seq<Group>)
    requires RegularOnly(single, compressed) && s < |compressed|
    requires GroupsCollapsed(single, compressed, s, first, before) && |now| == |before|
    requires forall g :: 0 <= g < |now| ==>
               && now[g].hasEpilogue == before[g].hasEpilogue
               && |now[g].fileSizes| == |before[g].fileSizes|
               && forall p :: 0 <= p < |now[g].fileSizes| ==>
                    now[g].fileSizes[p] ==
                    if compressed[s] == None then before[g].fileSizes[p]
                    else if p == CompressedPart(single, s) && before[g].hasEpilogue then compressed[s].value
                    else if BasePart(single, s) <= p < BasePart(single, s) + NumParts(single, s) then 0
                    else before[g].fileSizes[p]
    ensures GroupsCollapsed(single, compressed, s + 1, first, now)
  {
    hide SizeAfter;
    forall g | 0 <= g < |now|
      ensures GroupCollapsed(single, compressed, s + 1, first[g], now[g])
    {
      assert GroupCollapsed(single, compressed, s, first[g], before[g]);
      forall p | 0 <= p < |now[g].fileSizes|
        ensures now[g].fileSizes[p]
                == SizeAfter(single, compressed, s + 1, p, first[g].fileSizes[p], first[g].hasEpilogue)
      {
        SizeAfterStep(single, compressed, s, p, first[g].fileSizes[p], first[g].hasEpilogue);
      }
    }
  }

  /******* The tables agree afterwards *******/

  /** The bytes all groups hold for part `p`. */
  function GroupTotal(groups: seq<Group>, p: nat): nat
    requires forall g :: 0 <= g < |groups| ==> p < |groups[g].fileSizes|
  {
    if groups == [] then 0
    else GroupTotal(groups[..|groups| - 1], p) + groups[|groups| - 1].fileSizes[p]
  }

  function EpilogueCount(groups: seq<Group>): nat {
    if groups == [] then 0
    else EpilogueCount(groups[..|groups| - 1]) + if groups[|groups| - 1].hasEpilogue then 1 else 0
  }

  /** Collapsed groups hold the compressed size once per epilogue in its part, and nothing elsewhere. */
  lemma {:induction false} GroupTotalOfCompressed(
    single: nat, compressed: seq<Option<nat>>, before: seq<Group>, now: seq<Group>, p: nat)
    requires GroupsCollapsed(single, compressed, |compressed|, before, now)
    requires forall g :: 0 <= g < |now| ==> p < |now[g].fileSizes|
    requires OwnerOf(single, p) < |compressed| && compressed[OwnerOf(single, p)].Some?
    requires OwnerOf(single, p) >= single
    ensures GroupTotal(now, p)
            == if p == CompressedPart(single, OwnerOf(single, p))
               then compressed[OwnerOf(single, p)].value * EpilogueCount(now) else 0
  {
    if now != [] {
      var n := |now| - 1;
      assert GroupCollapsed(single, compressed, |compressed|, before[n], now[n]);
      GroupTotalOfCompressed(single, compressed, before[..n], now[..n], p);
      var size := compressed[OwnerOf(single, p)].value;
      Distribute(EpilogueCount(now[..n]), 1, size);
    }
  }

  lemma {:induction false} CollapsedSizeUpTo(
    single: nat, compressed: seq<Option<nat>>, before: seq<Record>, now: seq<Record>, plan: Plan, s: nat, j: nat)
    requires GoodPlan(plan) && plan.single == single && |compressed| == |plan.alignments|
    requires PartsCollapsed(single, compressed, |compressed|, before, now) && |now| == |plan.sizes|
    requires forall p :: 0 <= p < |now| ==> plan.sizes[p] == now[p].fileSize
    requires single <= s < |compressed| && compressed[s].Some? && j <= NUM_ALIGNMENTS
    ensures SizeUpTo(plan, s, j) == if j == NUM_ALIGNMENTS then compressed[s].value else 0
    decreases j
  {
    if j > 0 {
      CollapsedSizeUpTo(single, compressed, before, now, plan, s, j - 1);
      PartsInRange(single, s, |compressed|);
      OwnerIsUnique(single, s, BasePart(single, s) + j - 1);
    }
  }

  /** After the sizes are collapsed and the file is laid out again: every compressed section is as long
      as its compressed data, and with one epilogue in the link the group sizes of each of its parts
      add up to the part's size. */
  lemma {:induction false} CompressedTablesAgree(
    single: nat, compressed: seq<Option<nat>>, parts0: seq<Record>, parts: seq<Record>,
    groups0: seq<Group>, groups: seq<Group>, plan: Plan,
    sections0: seq<Record>, sections: seq<Record>, k: nat, s: nat)
    requires GoodPlan(plan) && plan.single == single && |compressed| == |plan.alignments|
    requires RegularOnly(single, compressed)
    requires PartsCollapsed(single, compressed, |compressed|, parts0, parts) && |parts| == |plan.sizes|
    requires forall p :: 0 <= p < |parts| ==> plan.sizes[p] == parts[p].fileSize
    requires GroupsCollapsed(single, compressed, |compressed|, groups0, groups)
    requires forall g :: 0 <= g < |groups| ==> |groups[g].fileSizes| == |parts|
    requires SectionsPlaced(plan, |plan.order|, sections0, sections)
    requires SectionAt(plan.order, k, s) && compressed[s].Some?
    ensures sections[s].fileSize == compressed[s].value
    ensures EpilogueCount(groups) == 1 ==>
              forall p :: 0 <= p < |parts| && OwnerOf(single, p) == s ==> GroupTotal(groups, p) == parts[p].fileSize
  {
    CollapsedSizeUpTo(single, compressed, parts0, parts, plan, s, NUM_ALIGNMENTS);
    assert sections[s].fileSize == SectionSize(plan, s);
    forall p | 0 <= p < |parts| && OwnerOf(single, p) == s && EpilogueCount(groups) == 1
      ensures GroupTotal(groups, p) == parts[p].fileSize
    {
      GroupTotalOfCompressed(single, compressed, groups0, groups, p);
    }
  }

  /** A section that was not compressed is as long in the new file as its parts were before, each of
      its parts keeps its size, and so do the shares of the groups. */
  lemma {:induction false} UncompressedSizesKept(
    single: nat, compressed: seq<Option<nat>>, parts0: seq<Record>, parts: seq<Record>,
    groups0: seq<Group>, groups: seq<Group>, plan0: Plan, plan: Plan,
    sections0: seq<Record>, sections: seq<Record>, k: nat, s: nat)
    requires GoodPlan(plan) && plan.single == single && |compressed| == |plan.alignments|
    requires GoodPlan(plan0) && plan0.single == single && |plan0.alignments| == |compressed|
    requires PartsCollapsed(single, compressed, |compressed|, parts0, parts)
    requires |parts| == |plan.sizes| == |plan0.sizes|
    requires forall p :: 0 <= p < |parts| ==> plan.sizes[p] == parts[p].fileSize && plan0.sizes[p] == parts0[p].fileSize
    requires GroupsCollapsed(single, compressed, |compressed|, groups0, groups)
    requires forall g :: 0 <= g < |groups| ==> |groups[g].fileSizes| == |groups0[g].fileSizes| == |parts|
    requires SectionsPlaced(plan, |plan.order|, sections0, sections)
    requires SectionAt(plan.order, k, s) && compressed[s] == None
    ensures sections[s].fileSize == SectionSize(plan0, s)
    ensures forall p :: 0 <= p < |parts| && OwnerOf(single, p) == s ==>
              parts[p].fileSize == parts0[p].fileSize && GroupTotal(groups, p) == GroupTotal(groups0, p)
  {
    SizeUpToKept(single, compressed, parts0, parts, plan0, plan, s, NumParts(single, s));
    assert sections[s].fileSize == SectionSize(plan, s);
    forall p | 0 <= p < |parts| && OwnerOf(single, p) == s
      ensures parts[p].fileSize == parts0[p].fileSize && GroupTotal(groups, p) == GroupTotal(groups0, p)
    {
      GroupTotalKept(single, compressed, groups0, groups, p);
    }
  }

  lemma {:induction false} SizeUpToKept(
    single: nat, compressed: seq<Option<nat>>, parts0: seq<Record>, parts: seq<Record>, plan0: Plan, plan: Plan,
    s: nat, j: nat)
    requires GoodPlan(plan) && plan.single == single && |compressed| == |plan.alignments|
    requires GoodPlan(plan0) && plan0.single == single && |plan0.alignments| == |compressed|
    requires PartsCollapsed(single, compressed, |compressed|, parts0, parts)
    requires |parts| == |plan.sizes| == |plan0.sizes|
    requires forall p :: 0 <= p < |parts| ==> plan.sizes[p] == parts[p].fileSize && plan0.sizes[p] == parts0[p].fileSize
    requires s < |compressed| && compressed[s] == None && j <= NumParts(single, s)
    ensures SizeUpTo(plan, s, j) == SizeUpTo(plan0, s, j)
    decreases j
  {
    if j > 0 {
      SizeUpToKept(single, compressed, parts0, parts, plan0, plan, s, j - 1);
      hide OwnerOf;
      PartsInRange(single, s, |compressed|);
      var p := BasePart(single, s) + j - 1;
      OwnerIsUnique(single, s, p);
      assert parts[p].fileSize == parts0[p].fileSize;
    }
  }

  lemma {:induction false} GroupTotalKept(
    single: nat, compressed: seq<Option<nat>>, groups0: seq<Group>, groups: seq<Group>, p: nat)
    requires GroupsCollapsed(single, compressed, |compressed|, groups0, groups)
    requires forall g :: 0 <= g < |groups| ==> p < |groups[g].fileSizes| == |groups0[g].fileSizes|
    requires OwnerOf(single, p) < |compressed| && compressed[OwnerOf(single, p)] == None
    ensures GroupTotal(groups, p) == GroupTotal(groups0, p)
    decreases |groups|
  {
    if groups != [] {
      var n := |groups| - 1;
      assert GroupCollapsed(single, compressed, |compressed|, groups0[n], groups[n]);
      assert forall g :: 0 <= g < n ==> groups[..n][g] == groups[g] && groups0[..n][g] == groups0[g];
      GroupTotalKept(single, compressed, groups0[..n], groups[..n], p);
    }
  }

  /** Both results, for every section that is laid out. */
  lemma {:induction false} TablesAgree(
    single: nat, compressed: seq<Option<nat>>, parts0: seq<Record>, parts: seq<Record>,
    groups0: seq<Group>, groups: seq<Group>, plan0: Plan, plan: Plan,
    sections0: seq<Record>, sections: seq<Record>)
    requires GoodPlan(plan) && plan.single == single && |compressed| == |plan.alignments|
    requires GoodPlan(plan0) && plan0.single == single && |plan0.alignments| == |compressed|
    requires RegularOnly(single, compressed)
    requires PartsCollapsed(single, compressed, |compressed|, parts0, parts)
    requires |parts| == |plan.sizes| == |plan0.sizes|
    requires forall p :: 0 <= p < |parts| ==> plan.sizes[p] == parts[p].fileSize && plan0.sizes[p] == parts0[p].fileSize
    requires GroupsCollapsed(single, compressed, |compressed|, groups0, groups)
    requires forall g :: 0 <= g < |groups| ==> |groups[g].fileSizes| == |groups0[g].fileSizes| == |parts|
    requires SectionsPlaced(plan, |plan.order|, sections0, sections)
    ensures forall k, s: nat {:trigger SectionAt(plan.order, k, s)} ::
              SectionAt(plan.order, k, s) && compressed[s].Some? ==>
                && sections[s].fileSize == compressed[s].value
                && (EpilogueCount(groups) == 1 ==>
                      forall p :: 0 <= p < |parts| && OwnerOf(single, p) == s ==>
                        GroupTotal(groups, p) == parts[p].fileSize)
    ensures forall k, s: nat {:trigger SectionAt(plan.order, k, s)} ::
              SectionAt(plan.order, k, s) && compressed[s] == None ==>
                && sections[s].fileSize == SectionSize(plan0, s)
                && forall p :: 0 <= p < |parts| && OwnerOf(single, p) == s ==>
                     parts[p].fileSize == parts0[p].fileSize && GroupTotal(groups, p) == GroupTotal(groups0, p)
  {
    assert |parts0| == |parts| && |groups0| == |groups|;
    hide PartsCollapsed, GroupsCollapsed, GroupTotal, EpilogueCount, RegularOnly, OwnerOf;
    forall k, s: nat | SectionAt(plan.order, k, s) && compressed[s].Some?
      ensures && sections[s].fileSize == compressed[s].value
              && (EpilogueCount(groups) == 1 ==>
                    forall p :: 0 <= p < |parts| && OwnerOf(single, p) == s ==>
                      GroupTotal(groups, p) == parts[p].fileSize)
    {
      CompressedTablesAgree(single, compressed, parts0, parts, groups0, groups, plan, sections0, sections, k, s);
    }
    forall k, s: nat | SectionAt(plan.order, k, s) && compressed[s] == None
      ensures && sections[s].fileSize == SectionSize(plan0, s)
              && forall p :: 0 <= p < |parts| && OwnerOf(single, p) == s ==>
                   parts[p].fileSize == parts0[p].fileSize && GroupTotal(groups, p) == GroupTotal(groups0, p)
    {
      UncompressedSizesKept(single, compressed, parts0, parts, groups0, groups, plan0, plan,
                            sections0, sections, k, s);
    }
  }

  /** A merge target's range contains the range of every section merged into it. */
  lemma {:induction false} MergedRangeCovers(
    plan: Plan, mergeTarget: seq<Option<nat>>, merged0: seq<Record>, merged: seq<Record>,
    sections0: seq<Record>, sections: seq<Record>, j: nat, t: nat, k: nat, s: nat)
    requires GoodPlan(plan)
    requires SectionsPlaced(plan, |plan.order|, sections0, sections)
    requires MergedPlaced(plan, mergeTarget, |plan.order|, merged0, merged)
    requires SectionAt(plan.order, j, t) && mergeTarget[t] == None
    requires SectionAt(plan.order, k, s) && TargetOf(mergeTarget, s) == t && j <= k
    ensures merged[t].fileOffset <= sections[s].fileOffset
    ensures sections[s].fileOffset + sections[s].fileSize <= merged[t].fileOffset + merged[t].fileSize
  {
    assert MergesInto(plan.order, mergeTarget, k, t);
    MergedEndCovers(plan, mergeTarget, t, k, |plan.order|);
    assert sections[s].fileOffset == SectionStart(plan, k);
    assert merged[t].fileOffset == SectionStart(plan, j);
    if j < k {
      SectionsInOrder(plan, j, k);
    } else {
      assert t == s;
    }
  }

  /** Laying out a second time, with nothing resized in between, moves nothing. */
  lemma {:induction false} SecondRewriteMovesNothing(
    plan: Plan, mergeTarget: seq<Option<nat>>,
    sections0: seq<Record>, sections: seq<Record>, sections': seq<Record>,
    parts0: seq<Record>, parts: seq<Record>, parts': seq<Record>)
    requires GoodPlan(plan)
    requires SectionsPlaced(plan, |plan.order|, sections0, sections)
    requires SectionsPlaced(plan, |plan.order|, sections, sections')
    requires PartsPlaced(plan, |plan.order|, parts0, parts) && PartsPlaced(plan, |plan.order|, parts, parts')
    ensures sections' == sections && parts' == parts
  {
    forall s | 0 <= s < |sections|
      ensures sections'[s] == sections[s]
    {
      if Seen(plan.order, |plan.order|, s) {
        var k := SeenAt(plan.order, |plan.order|, s);
        assert SectionAt(plan.order, k, s);
      }
    }
    forall p | 0 <= p < |parts|
      ensures parts'[p] == parts[p]
    {
      var s := OwnerOf(plan.single, p);
      if Seen(plan.order, |plan.order|, s) {
        var k := SeenAt(plan.order, |plan.order|, s);
        OwnerIsUnique(plan.single, s, p);
        var j := p - BasePart(plan.single, s);
        assert PartsTile(plan, k, s, parts) && PartsTile(plan, k, s, parts');
        assert PartStartsAt(plan, s, j, SectionStart(plan, k), parts);
        assert PartStartsAt(plan, s, j, SectionStart(plan, k), parts');
      }
    }
  }

  lemma {:induction false} SeenAt(order: seq<Event>, n: nat, s: nat) returns (k: nat)
    requires n <= |order| && Seen(order, n, s)
    ensures k < n && SectionAt(order, k, s)
  {
    if order[n - 1] == Section(s) {
      k := n - 1;
    } else {
      k := SeenAt(order, n - 1, s);
    }
  }

  /******* Alignment inside a section *******/

  /** The alignment a part of a regular section stands for: coarsest first. */
  function PartAlignment(j: nat): Alignment
    requires j < NUM_ALIGNMENTS
  {
    Alignment(NUM_ALIGNMENTS - 1 - j)
  }

  /** The rewrite only aligns the section, not its parts. That is enough when every part's size is a
      multiple of its own alignment and the section is aligned for each part in use: part `j` then
      starts on its own boundary. */
  lemma {:induction false} PartsStayAligned(plan: Plan, k: nat, s: nat, i: nat, j: nat)
    requires GoodPlan(plan) && SectionAt(plan.order, k, s) && s >= plan.single
    requires i <= j < NUM_ALIGNMENTS && PartAlignment(j).exponent <= plan.alignments[s].exponent
    requires forall m :: 0 <= m < NUM_ALIGNMENTS && BasePart(plan.single, s) + m < |plan.sizes| ==>
               Divides(PartAlignment(m).Value(), plan.sizes[BasePart(plan.single, s) + m])
    ensures Divides(PartAlignment(j).Value(), SectionStart(plan, k) + SizeUpTo(plan, s, i))
    decreases i
  {
    var a := PartAlignment(j).Value();
    if i == 0 {
      NextMultipleOfIsLeast(OffsetAfter(plan, k), plan.alignments[s].Value());
      CoarserIsFiner(PartAlignment(j), plan.alignments[s], SectionStart(plan, k));
    } else {
      PartsStayAligned(plan, k, s, i - 1, j);
      PartsInRange(plan.single, s, |plan.alignments|);
      var size := plan.sizes[BasePart(plan.single, s) + i - 1];
      CoarserIsFiner(PartAlignment(j), PartAlignment(i - 1), size);
      DividesSum(a, SectionStart(plan, k) + SizeUpTo(plan, s, i - 1), size);
    }
  }
}
