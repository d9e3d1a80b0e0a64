/** The relaxation iterations as a whole: which sections each of them looks at, and what becomes of the
    candidates of a section that has been dropped. */
module RelaxIterations {
  import opened Arithmetic
  import opened RelaxDeltas
  import opened RelaxMargins
  import opened RelaxScan
  import opened Wrappers

  const MAX_RELAXATION_ITERATIONS: nat := 5

  /** What one pass reports: the bytes it deleted, and the least margin of each section that it looked at
      and that has a candidate left. */
  datatype PassReport = PassReport(deleted: nat, margins: map<nat, int>)

  /** A pass is asked with its number and the sections to look at. */
  type Scanner = (nat, set<nat>) -> PassReport

  /** The sections a pass keeps on the list. */
  function Kept(listed: set<nat>, report: PassReport): set<nat> {
    set s | s in listed && s in report.margins && report.margins[s] <= report.deleted
  }

  /** The sections iteration `i` looks at. */
  function Listed(start: set<nat>, reports: seq<PassReport>, i: nat): set<nat>
    requires i <= |reports|
  {
    if i == 0 then start else Kept(Listed(start, reports, i - 1), reports[i - 1])
  }

  /** Nothing is left to do after `n` iterations. */
  predicate Stops(start: set<nat>, reports: seq<PassReport>, n: nat)
    requires n <= |reports|
  {
    n > 0 && (reports[n - 1].deleted == 0 || Listed(start, reports, n) == {})
  }

  /** `perform_iterative_relaxation`, the layout recomputed in between being part of what the scanner
      answers. The first iteration takes place even when no section is listed. */
  method IterativeRelaxation(start: set<nat>, scan: Scanner) returns (reports: seq<PassReport>)
    ensures Faithful(start, reports, scan)
    ensures 0 < |reports| <= 5
    ensures forall n :: 0 <= n < |reports| ==> !Stops(start, reports, n)
    ensures |reports| == 5 || Stops(start, reports, |reports|)
  {
    hide Listed, Stops, Kept;
    reports := [];
    var listed := start;
    NothingReported(start);
    for iteration := 0 to MAX_RELAXATION_ITERATIONS
      invariant |reports| == iteration && listed == Listed(start, reports, iteration)
      invariant Faithful(start, reports, scan)
      invariant forall n :: 0 <= n < iteration ==> !Stops(start, reports, n)
      invariant iteration > 0 ==> reports[iteration - 1].deleted > 0
    {
      StopsWhen(start, reports, iteration);
      if iteration > 0 && listed == {} {
        return;
      }
      var report := scan(iteration, listed);
      ReportAdded(start, reports, report, scan);
      reports := reports + [report];
      StopsWhen(start, reports, iteration + 1);
      if report.deleted == 0 {
        return;
      }
      listed := Kept(listed, report);
    }
  }

  /** Each report is what the scanner answered about the list of its iteration. */
  ghost predicate Faithful(start: set<nat>, reports: seq<PassReport>, scan: Scanner) {
    forall i :: 0 <= i < |reports| ==> reports[i] == scan(i, Listed(start, reports, i))
  }

  lemma {:induction false} NothingReported(start: set<nat>)
    ensures Listed(start, [], 0) == start
  {
  }

  lemma {:induction false} StopsWhen(start: set<nat>, reports: seq<PassReport>, n: nat)
    requires n <= |reports|
    ensures Stops(start, reports, n) <==> n > 0 && (reports[n - 1].deleted == 0 || Listed(start, reports, n) == {})
  {
  }

  lemma {:induction false} ReportAdded(start: set<nat>, before: seq<PassReport>, report: PassReport, scan: Scanner)
    requires Faithful(start, before, scan) && report == scan(|before|, Listed(start, before, |before|))
    ensures var reports := before + [report];
            && Faithful(start, reports, scan)
            && Listed(start, reports, |reports|) == Kept(Listed(start, before, |before|), report)
            && forall n :: 0 <= n <= |before| ==> (Stops(start, reports, n) <==> Stops(start, before, n))
  {
    hide Listed, Kept;
    var reports := before + [report];
    forall n | 0 <= n <= |before| ensures Listed(start, reports, n) == Listed(start, before, n) {
      ListedPrefix(start, before, [report], n);
    }
    ListedStep(start, reports);
  }

  lemma {:induction false} ListedStep(start: set<nat>, reports: seq<PassReport>)
    requires reports != []
    ensures var n := |reports| - 1;
            Listed(start, reports, n + 1) == Kept(Listed(start, reports, n), reports[n])
  {
  }

  lemma {:induction false} ListedPrefix(start: set<nat>, reports: seq<PassReport>, more: seq<PassReport>, n: nat)
    requires n <= |reports|
    ensures Listed(start, reports + more, n) == Listed(start, reports, n)
  {
    if n > 0 {
      ListedPrefix(start, reports, more, n - 1);
    }
  }

  /** A section that is not on the list never comes back. */
  lemma {:induction false} DroppedForGood(start: set<nat>, reports: seq<PassReport>, i: nat, j: nat)
    requires i <= j <= |reports|
    ensures Listed(start, reports, j) <= Listed(start, reports, i)
    decreases j - i
  {
    if i < j {
      DroppedForGood(start, reports, i, j - 1);
    }
  }

  /** The bytes deleted by the iterations from `i` up to but not including `j`. */
  function DeletedFrom(reports: seq<PassReport>, i: nat, j: nat): nat
    requires i <= j <= |reports|
    decreases j - i
  {
    if i == j then 0 else DeletedFrom(reports, i, j - 1) + reports[j - 1].deleted
  }

  /******* Lost candidates *******/

  /** The least shift that lets a candidate relax. */
  function LeastShift(c: Candidate): int {
    match c
    case OfCall(distance) => if distance > 0 then distance - JAL_MAX else JAL_MIN - distance
    case OfLui(value) => LuiLeast(value)
  }

  lemma {:induction false} LeastShiftIsLeast(c: Candidate, deleted: nat)
    requires c.LeftAlone()
    ensures c.CouldRelax(deleted) <==> LeastShift(c) <= deleted
    ensures 0 < LeastShift(c) <= c.Margin() || (c.OfCall? && c.distance < 0 && c.Margin() == LeastShift(c) + 1)
  {
    match c
    case OfCall(distance) => CallShift(distance, deleted);
    case OfLui(value) =>
      LuiFilter(value, deleted);
      LuiLeastIsLeast(value, 0);
  }

  lemma {:induction false} CallShift(distance: int, deleted: nat)
    requires !DistanceFitsJal(distance)
    ensures var least := if distance > 0 then distance - JAL_MAX else JAL_MIN - distance;
            CanReachJal(distance, deleted) <==> least <= deleted
  {
    var least := if distance > 0 then distance - JAL_MAX else JAL_MIN - distance;
    assert DistanceFitsJal(Shrunk(distance, least));
    forall s: nat | s < least ensures !DistanceFitsJal(Shrunk(distance, s)) {
    }
  }

  /** Some candidate of the section needs no more than `shift` bytes. */
  ghost predicate SomeNeedsAtMost(scan: Scan, cuts: seq<Cut>, shift: nat) {
    exists k :: 0 <= k < |scan.rels| && OutcomeOf(scan, cuts, k).Unrelaxed?
                && LeastShift(CandidateAt(scan, cuts, k)) <= shift
  }

  /** The report of a pass says of section `s` what the scan of it found. */
  ghost predicate Reports(report: PassReport, s: nat, scan: Scan, cuts: seq<Cut>) {
    exists margin :: IsLeastMargin(Outcomes(scan, cuts, |scan.rels|), margin)
                     && (s in report.margins <==> margin.Some?)
                     && (margin.Some? ==> report.margins[s] == margin.value)
  }

  /** Section `s` is on the list of iteration `i` and on none of the later ones. */
  ghost predicate LastSeen(start: set<nat>, reports: seq<PassReport>, i: nat, s: nat)
    requires i < |reports|
  {
    s in Listed(start, reports, i) && s !in Listed(start, reports, i + 1)
  }

  /** Over a whole run: a section last seen by iteration `i` holds a candidate that the deletions up to
      iteration `j` would have let relax, although no iteration looks at it again, exactly when every
      margin it reported is above the bytes deleted by iteration `i` alone while some candidate needs no
      more than those deleted by all the iterations from `i` up to `j` together. */
  lemma {:induction false} LostCandidates(
    start: set<nat>, reports: seq<PassReport>, i: nat, j: nat, s: nat, scan: Scan, cuts: seq<Cut>)
    requires i < j <= |reports| && s in Listed(start, reports, i)
    requires Reports(reports[i], s, scan, cuts)
    ensures LastSeen(start, reports, i, s) ==> forall n :: i < n <= |reports| ==> s !in Listed(start, reports, n)
    ensures LastSeen(start, reports, i, s) <==> AllMarginsAbove(scan, cuts, reports[i].deleted)
    ensures HasHope(scan, cuts, DeletedFrom(reports, i, j)) <==>
            SomeNeedsAtMost(scan, cuts, DeletedFrom(reports, i, j))
    ensures LastSeen(start, reports, i, s) && HasHope(scan, cuts, DeletedFrom(reports, i, j)) <==>
            AllMarginsAbove(scan, cuts, reports[i].deleted)
            && SomeNeedsAtMost(scan, cuts, DeletedFrom(reports, i, j))
  {
    hide OutcomeOf, CandidateAt, LeastShift, Candidate.LeftAlone, Candidate.CouldRelax, Candidate.Margin;
    if LastSeen(start, reports, i, s) {
      forall n | i < n <= |reports| ensures s !in Listed(start, reports, n) {
        DroppedForGood(start, reports, i + 1, n);
      }
    }
    var shift := DeletedFrom(reports, i, j);
    forall k | 0 <= k < |scan.rels| && OutcomeOf(scan, cuts, k).Unrelaxed?
      ensures var c := CandidateAt(scan, cuts, k);
              && c.Margin() == OutcomeOf(scan, cuts, k).margin
              && (c.CouldRelax(shift) <==> LeastShift(c) <= shift)
    {
      CandidateIsLeftAlone(scan, cuts, k);
      LeastShiftIsLeast(CandidateAt(scan, cuts, k), shift);
    }
    DroppedByMargins(start, reports, i, s, scan, cuts);
  }

  lemma {:induction false} DroppedByMargins(
    start: set<nat>, reports: seq<PassReport>, i: nat, s: nat, scan: Scan, cuts: seq<Cut>)
    requires i < |reports| && s in Listed(start, reports, i) && Reports(reports[i], s, scan, cuts)
    ensures LastSeen(start, reports, i, s) <==> AllMarginsAbove(scan, cuts, reports[i].deleted)
  {
    hide OutcomeOf, CandidateAt, Candidate.LeftAlone, Candidate.Margin;
    var os := Outcomes(scan, cuts, |scan.rels|);
    forall k | 0 <= k < |scan.rels| && OutcomeOf(scan, cuts, k).Unrelaxed?
      ensures CandidateAt(scan, cuts, k).Margin() == os[k].margin
    {
      CandidateIsLeftAlone(scan, cuts, k);
    }
  }

  /** A forward call with margin 8: the section is dropped when 6 bytes go, and the next 4 would have
      brought the call into range. */
  lemma {:induction false} LaterDeletionsAddUp()
    ensures var c := OfCall(JAL_MAX + 8);
            var reports := [PassReport(6, map[0 := 8]), PassReport(4, map[])];
            && c.LeftAlone() && c.Margin() == 8
            && LastSeen({0}, reports, 0, 0)
            && !c.CouldRelax(6) && c.CouldRelax(DeletedFrom(reports, 0, 2))
  {
    var c := OfCall(JAL_MAX + 8);
    var reports := [PassReport(6, map[0 := 8]), PassReport(4, map[])];
    LeastShiftIsLeast(c, 6);
    LeastShiftIsLeast(c, 10);
    assert DeletedFrom(reports, 0, 1) == 6;
  }
}
