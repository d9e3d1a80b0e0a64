/** The distance the scan reports for candidates it left alone, and the filter that decides from it
    which sections a later iteration looks at again. */
module RelaxMargins {
  import opened Arithmetic
  import opened RelaxDeltas
  import opened RelaxScan
  import opened Wrappers

  /******* Calls *******/

  /** The distance of a call once `s` bytes between it and its target are gone. */
  function Shrunk(distance: int, s: nat): int {
    if distance >= 0 then distance - s else distance + s
  }

  /** Some shrinkage of at most `deleted` bytes brings the call into the range of `jal`. */
  ghost predicate CanReachJal(distance: int, deleted: nat) {
    exists s: nat :: s <= deleted && DistanceFitsJal(Shrunk(distance, s))
  }

  /** For a forward call the margin is exact: shrinking by it fits, shrinking by less does not. */
  lemma {:induction false} ForwardMarginIsExact(distance: int)
    requires distance > JAL_MAX
    ensures CallMargin(distance) > 0 && DistanceFitsJal(Shrunk(distance, CallMargin(distance)))
    ensures forall s: nat :: s < CallMargin(distance) ==> !DistanceFitsJal(Shrunk(distance, s))
  {
  }

  /** A candidate within `deleted` bytes of its reported margin is rescanned. That keeps every call
      that the deletions could bring into range, except a backward one exactly one byte short: its
      margin is counted from the forward limit, which is one smaller than the backward one. */
  lemma {:induction false} CallFilter(distance: int, deleted: nat)
    requires !DistanceFitsJal(distance)
    ensures CallMargin(distance) <= deleted ==> CanReachJal(distance, deleted)
    ensures CanReachJal(distance, deleted) && CallMargin(distance) > deleted <==>
            distance < JAL_MIN && CallMargin(distance) == deleted + 1
  {
    var limit := if distance > 0 then JAL_MAX else -JAL_MIN;
    var least := Abs(distance) - limit;
    assert least > 0 && DistanceFitsJal(Shrunk(distance, least));
    forall s: nat | s < least
      ensures !DistanceFitsJal(Shrunk(distance, s))
    {
    }
    assert CanReachJal(distance, deleted) <==> least <= deleted;
  }

  /******* lui *******/

  /** `c.lui` is only ever chosen for a positive upper part: the upper part is an unsigned shift of the
      64-bit value, so the negative half of the six-bit range is never matched. */
  lemma {:induction false} CluiFitsExactlyOneTo31(value: nat)
    requires value < TWO64
    ensures Hi20FitsClui(value) <==> 1 <= Hi20Of(value) <= 31
  {
  }

  /** Of the three margin cases only the first is ever taken, and its product fits in 64 bits. */
  lemma {:induction false} LuiMarginTakesFirstCase(value: nat)
    requires value < TWO64 && !Hi20IsZero(value) && !Hi20FitsClui(value)
    ensures Hi20Of(value) > 31
    ensures LuiMargin(value) == (Hi20Of(value) - 31) * 0x1000
    ensures 0 < LuiMargin(value) < TWO64 && LuiMargin(value) <= value + 0x800
  {
    CluiFitsExactlyOneTo31(value);
    assert WrapU64(value + 0x800) < TWO64;
  }

  /** Lowering the value by the margin gives the largest upper part `c.lui` can hold. */
  lemma {:induction false} LuiMarginReaches31(value: nat)
    requires value < TWO64 && Hi20Of(value) > 31
    ensures LuiMargin(value) <= value && Hi20Of(value - LuiMargin(value)) == 31
  {
    var sum := WrapU64(value + 0x800);
    assert sum == value + 0x800;
    var q, r := sum / 0x1000, sum % 0x1000;
    assert sum == 0x1000 * q + r;
    assert value - LuiMargin(value) + 0x800 == 31 * 0x1000 + r;
  }

  /** The `lui` can be deleted or compressed. */
  predicate LuiRelaxable(value: nat) {
    Hi20IsZero(value) || Hi20FitsClui(value)
  }

  predicate RelaxableLowered(value: nat, s: nat) {
    s <= value && LuiRelaxable(value - s)
  }

  /** Some reduction of at most `deleted` bytes makes the `lui` relaxable. */
  ghost predicate CanShrinkLui(value: nat, deleted: nat) {
    exists s: nat :: s <= deleted && RelaxableLowered(value, s)
  }

  /** The value with its rounding added: the upper part in pages, the rest below. */
  function Rounded(value: nat): nat {
    value + 0x800
  }

  /** The least reduction that makes a `lui` relaxable. Below 2^32 it takes the upper part down to 31.
      From there on the nearest target is the multiple of 2^32 below, because the test for zero reads
      20 bits of the upper part only. */
  function LuiLeast(value: nat): int {
    if Rounded(value) < TWO32 then Rounded(value) - 0x1_FFFF else Rounded(value) % TWO32 - 0xFFF
  }

  /** Which roundings relax: at most a page past a multiple of 2^32, or below 32 pages. */
  lemma {:induction false} LuiRelaxableIs(value: nat)
    requires Rounded(value) < TWO64
    ensures Hi20Of(value) == Rounded(value) / 0x1000
    ensures LuiRelaxable(value) <==> Rounded(value) % TWO32 < 0x1000 || Rounded(value) < 0x2_0000
  {
    SmallMod(value + 0x800, TWO64);
    CluiFitsExactlyOneTo31(value);
  }

  /** A rounding that wraps has upper part zero, so a candidate's never does. */
  lemma {:induction false} CandidateDoesNotWrap(value: nat)
    requires value < TWO64 && !LuiRelaxable(value)
    ensures Rounded(value) < TWO64 && Hi20Of(value) > 31
  {
    CluiFitsExactlyOneTo31(value);
  }

  /** A reduction relaxes the `lui` from the least one on only, and the least one does. */
  lemma {:induction false} LuiLeastIsLeast(value: nat, s: nat)
    requires value < TWO64 && !LuiRelaxable(value)
    ensures 0 < LuiLeast(value) <= value && RelaxableLowered(value, LuiLeast(value))
    ensures s < LuiLeast(value) ==> !RelaxableLowered(value, s)
  {
    hide LuiRelaxable;
    CandidateDoesNotWrap(value);
    LuiRelaxableIs(value);
    var least, sum := LuiLeast(value), Rounded(value);
    LuiRelaxableIs(value - least);
    if s < least {
      LuiRelaxableIs(value - s);
      assert Rounded(value - s) == sum - s;
    }
  }

  /** For every address a `lui` left alone can have: the filter drops exactly those candidates that
      `deleted` bytes would have made relaxable but whose margin is larger. Below 2^32 the margin is
      the least reduction rounded up to whole pages, so only the last page is at stake; above, it
      counts down to 31 pages although a multiple of 2^32 is nearer. */
  lemma {:induction false} LuiFilter(value: nat, deleted: nat)
    requires value < TWO64 && !LuiRelaxable(value)
    ensures CanShrinkLui(value, deleted) <==> LuiLeast(value) <= deleted
    ensures LuiLeast(value) <= LuiMargin(value)
    ensures Rounded(value) < TWO32 ==> LuiMargin(value) == LuiLeast(value) + (0xFFF - Rounded(value) % 0x1000)
    ensures Rounded(value) >= TWO32 ==>
              LuiMargin(value) == Rounded(value) - Rounded(value) % 0x1000 - 0x1_F000
    ensures CanShrinkLui(value, deleted) && LuiMargin(value) > deleted <==>
            LuiLeast(value) <= deleted < LuiMargin(value)
  {
    hide LuiRelaxable, RelaxableLowered;
    CandidateDoesNotWrap(value);
    LuiRelaxableIs(value);
    LuiLeastIsLeast(value, 0);
    forall s: nat | s < LuiLeast(value) ensures !RelaxableLowered(value, s) {
      LuiLeastIsLeast(value, s);
    }
    MarginCoversLeast(value);
  }

  lemma {:induction false} MarginCoversLeast(value: nat)
    requires Rounded(value) < TWO64 && Hi20Of(value) > 31 && Hi20Of(value) == Rounded(value) / 0x1000
    ensures LuiMargin(value) == Rounded(value) - Rounded(value) % 0x1000 - 0x1_F000
    ensures LuiLeast(value) <= LuiMargin(value)
    ensures Rounded(value) < TWO32 ==> LuiMargin(value) == LuiLeast(value) + (0xFFF - Rounded(value) % 0x1000)
  {
    var sum := Rounded(value);
    assert sum == 0x1000 * (sum / 0x1000) + sum % 0x1000;
    if sum >= TWO32 {
      assert sum == TWO32 * (sum / TWO32) + sum % TWO32;
    }
  }

  /******* Sections *******/

  /** What the scan left alone: a call by its distance, a `lui` by its value. */
  datatype Candidate = OfCall(distance: int) | OfLui(value: nat)
  {
    function Margin(): int {
      match this
      case OfCall(distance) => CallMargin(distance)
      case OfLui(value) => LuiMargin(value)
    }

    /** Some shift of at most `deleted` bytes would let it relax. */
    ghost predicate CouldRelax(deleted: nat) {
      match this
      case OfCall(distance) => CanReachJal(distance, deleted)
      case OfLui(value) => CanShrinkLui(value, deleted)
    }

    /** It could, though its margin says otherwise: a backward call one byte short, or a `lui` between
        its least reduction and its margin. */
    predicate Missed(deleted: nat) {
      match this
      case OfCall(distance) => distance < JAL_MIN && CallMargin(distance) == deleted + 1
      case OfLui(value) => LuiLeast(value) <= deleted < LuiMargin(value)
    }

    predicate LeftAlone() {
      match this
      case OfCall(distance) => !DistanceFitsJal(distance)
      case OfLui(value) => value < TWO64 && !LuiRelaxable(value)
    }
  }

  lemma {:induction false} MissedExactly(c: Candidate, deleted: nat)
    requires c.LeftAlone()
    ensures c.CouldRelax(deleted) && c.Margin() > deleted <==> c.Missed(deleted)
    ensures c.Margin() <= deleted ==> c.CouldRelax(deleted)
  {
    match c
    case OfCall(distance) => CallFilter(distance, deleted);
    case OfLui(value) => LuiFilter(value, deleted);
  }

  /** The candidate behind an outcome `Unrelaxed` of relocation `k`. */
  function CandidateAt(scan: Scan, cuts: seq<Cut>, k: nat): Candidate
    requires k < |scan.rels| && OutcomeOf(scan, cuts, k).Unrelaxed?
  {
    var r := scan.rels[k];
    var info := scan.resolve(k + 1, RelaxableSymbol(scan.rels, k).value).value;
    if r.IsCall() then OfCall(WrapI64(info.outputAddress - (scan.sectionAddress + r.offset)))
    else OfLui(WrapU64(info.outputAddress + r.addend))
  }

  lemma {:induction false} CandidateIsLeftAlone(scan: Scan, cuts: seq<Cut>, k: nat)
    requires k < |scan.rels| && OutcomeOf(scan, cuts, k).Unrelaxed?
    ensures CandidateAt(scan, cuts, k).LeftAlone()
    ensures CandidateAt(scan, cuts, k).Margin() == OutcomeOf(scan, cuts, k).margin
  {
    hide LuiWord, HasCutAt;
  }

  /** A candidate of the section that a shift of `deleted` bytes would let relax. */
  ghost predicate HasHope(scan: Scan, cuts: seq<Cut>, deleted: nat) {
    exists k :: 0 <= k < |scan.rels| && OutcomeOf(scan, cuts, k).Unrelaxed?
                && CandidateAt(scan, cuts, k).CouldRelax(deleted)
  }

  ghost predicate HasMissed(scan: Scan, cuts: seq<Cut>, deleted: nat) {
    exists k :: 0 <= k < |scan.rels| && OutcomeOf(scan, cuts, k).Unrelaxed?
                && CandidateAt(scan, cuts, k).Missed(deleted)
  }

  /** The section is looked at again: it reported a margin within the deleted bytes. */
  predicate Rescanned(margin: Option<int>, deleted: nat) {
    margin.Some? && margin.value <= deleted
  }

  ghost predicate AllMarginsAbove(scan: Scan, cuts: seq<Cut>, deleted: nat) {
    forall k :: 0 <= k < |scan.rels| && OutcomeOf(scan, cuts, k).Unrelaxed? ==>
                  CandidateAt(scan, cuts, k).Margin() > deleted
  }

  /** The filter works on the least margin of a whole section. A section that holds a candidate worth
      another look is dropped exactly when it holds one the margins miss and every margin of the
      section is above the deleted bytes. */
  lemma {:induction false} SectionFilter(scan: Scan, cuts: seq<Cut>, margin: Option<int>, deleted: nat)
    requires IsLeastMargin(Outcomes(scan, cuts, |scan.rels|), margin)
    ensures HasHope(scan, cuts, deleted) && !Rescanned(margin, deleted) <==>
            HasMissed(scan, cuts, deleted) && AllMarginsAbove(scan, cuts, deleted)
    ensures Rescanned(margin, deleted) ==> HasHope(scan, cuts, deleted)
  {
    hide OutcomeOf, CandidateAt, Candidate.LeftAlone, Candidate.Margin, Candidate.CouldRelax, Candidate.Missed;
    var os := Outcomes(scan, cuts, |scan.rels|);
    forall k | 0 <= k < |scan.rels| && OutcomeOf(scan, cuts, k).Unrelaxed?
      ensures var c := CandidateAt(scan, cuts, k);
              && c.Margin() == os[k].margin
              && (c.CouldRelax(deleted) && c.Margin() > deleted <==> c.Missed(deleted))
              && (c.Margin() <= deleted ==> c.CouldRelax(deleted))
    {
      CandidateIsLeftAlone(scan, cuts, k);
      MissedExactly(CandidateAt(scan, cuts, k), deleted);
    }
  }

  /** A backward call that two deleted bytes would bring into range; its margin is three. */
  lemma {:induction false} MissedCall()
    ensures var c := OfCall(JAL_MIN - 2);
            c.LeftAlone() && c.CouldRelax(2) && c.Margin() == 3
  {
    CallFilter(JAL_MIN - 2, 2);
  }

  /** A `lui` that one deleted byte would let compress, with a margin of a page; and one past 2^32
      that 0x4801 bytes would let vanish, with a margin of nearly 2^32. */
  lemma {:induction false} MissedLui()
    ensures var c := OfLui(0x1_F800);
            c.LeftAlone() && c.CouldRelax(1) && c.Margin() == 0x1000
    ensures var c := OfLui(0x1_0000_5000);
            c.LeftAlone() && c.CouldRelax(0x4801) && c.Margin() == 0xFFFE_6000
  {
    LuiRelaxableIs(0x1_F800);
    LuiRelaxableIs(0x1_0000_5000);
    LuiFilter(0x1_F800, 1);
    LuiFilter(0x1_0000_5000, 0x4801);
  }

  /******* What the shorter code does *******/

  /** The low 12 bits of a number, sign-extended. */
  function SignExtend12(value: nat): int {
    if value % 0x1000 < 0x800 then value % 0x1000 else value % 0x1000 - 0x1000
  }

  /** What `lui` with the upper part of `value` puts in the register: 20 bits shifted up by 12 and
      sign-extended from 32 bits. */
  function LuiLoads(value: nat): int {
    var upper := Hi20Of(value) % 0x10_0000;
    if upper < 0x8_0000 then upper * 0x1000 else (upper - 0x10_0000) * 0x1000
  }

  /** What `c.lui` with the low six bits of the upper part puts in the register. */
  function CluiLoads(value: nat): int {
    SixBit(Hi20Of(value)) * 0x1000
  }

  /** Relaxing a `lui` does not change the number built by it and the low-part instruction after it,
      as long as the value stays what the scan saw. A deleted `lui` loaded zero, so the low part can be
      taken from the zero register; a compressed one loads the same upper part. */
  lemma {:induction false} RelaxedLuiLoadsTheSame(value: nat)
    requires value < TWO64
    ensures Hi20IsZero(value) ==> LuiLoads(value) + SignExtend12(value) == SignExtend12(value)
    ensures Hi20FitsClui(value) ==> CluiLoads(value) == LuiLoads(value)
  {
    CluiFitsExactlyOneTo31(value);
  }

  /** `c.lui` for `value` is an instruction, and does what `lui` would: a zero immediate is reserved. */
  predicate CluiRight(value: nat) {
    Hi20Of(value) % 64 != 0 && CluiLoads(value) == LuiLoads(value)
  }

  /** The low-part instruction alone, on the zero register, does what the pair would. */
  predicate DeletionRight(value: nat) {
    LuiLoads(value) + SignExtend12(value) == SignExtend12(value)
  }

  lemma {:induction false} ZeroUpperPart(value: nat)
    requires value < TWO64
    ensures Hi20IsZero(value) <==> Rounded(value) % TWO32 < 0x1000
    ensures DeletionRight(value) <==> Hi20IsZero(value)
  {
    var sum := WrapU64(value + 0x800);
    assert sum % TWO32 == Rounded(value) % TWO32;
    assert sum == 0x1000 * (sum / 0x1000) + sum % 0x1000;
    assert sum == TWO32 * (sum / TWO32) + sum % TWO32;
    UpperOfPages(sum);
  }

  lemma {:induction false} UpperOfPages(sum: nat)
    ensures (sum / 0x1000) % 0x10_0000 == (sum % TWO32) / 0x1000
  {
    var a, b := sum / TWO32, sum % TWO32;
    assert sum == TWO32 * a + b;
    assert sum / 0x1000 == 0x10_0000 * a + b / 0x1000;
  }

  /** The instructions are written for the value at the end, `s` bytes below the one the scan decided
      on. A compressed `lui` is still right exactly when the upper part has not become zero; a deleted
      one exactly when it still is zero, that is, while the reduction does not leave the page. */
  lemma {:induction false} RelaxedLuiStaysRight(value: nat, s: nat)
    requires value < TWO64 && s <= value
    ensures Hi20FitsClui(value) ==> (CluiRight(value - s) <==> Rounded(value - s) >= 0x1000)
    ensures Hi20IsZero(value) ==> (DeletionRight(value - s) <==> (Rounded(value) - s) % TWO32 < 0x1000)
    ensures Hi20IsZero(value) && s < TWO32 - 0x1000 ==>
              (DeletionRight(value - s) <==> s <= Rounded(value) % TWO32)
  {
    ZeroUpperPart(value);
    ZeroUpperPart(value - s);
    if Hi20FitsClui(value) {
      CluiStaysRight(value, s);
    }
    if Hi20IsZero(value) && s < TWO32 - 0x1000 {
      SmallStepBack(Rounded(value), s);
    }
  }

  lemma {:induction false} CluiStaysRight(value: nat, s: nat)
    requires value < TWO64 && s <= value && Hi20FitsClui(value)
    ensures CluiRight(value - s) <==> Rounded(value - s) >= 0x1000
  {
    CluiFitsExactlyOneTo31(value);
    var sum := WrapU64(value + 0x800);
    assert sum == value + 0x800;
    assert Hi20Of(value - s) == (sum - s) / 0x1000 <= 31;
  }

  lemma {:induction false} SmallStepBack(sum: nat, s: nat)
    requires sum % TWO32 < 0x1000 && s < TWO32 - 0x1000
    ensures (sum - s) % TWO32 < 0x1000 <==> s <= sum % TWO32
  {
    var f := sum % TWO32;
    assert sum == TWO32 * (sum / TWO32) + f;
    assert sum - s == TWO32 * (sum / TWO32) + (f - s);
  }

  /** A `lui` that the scan compresses at 0x900 has upper part zero once the value is 0x700. */
  lemma {:induction false} CluiBecomesReserved()
    ensures Hi20FitsClui(0x900) && !Hi20IsZero(0x900) && Hi20Of(0x900 - 0x200) == 0 && !CluiRight(0x900 - 0x200)
  {
    RelaxedLuiStaysRight(0x900, 0x200);
  }

  /** The unrelaxed pair builds `value` exactly when it lies in the signed 32-bit range shifted down
      by the rounding of the low part; in particular a value whose upper part is a non-zero multiple
      of 2^20 passes the deletion test although no `lui` could have built it. */
  lemma {:induction false} LuiPairBuildsValue(value: nat)
    requires value < TWO64
    ensures WrapU64(LuiLoads(value) + SignExtend12(value)) == value <==>
            value + 0x800 < 0x8000_0000 || value + 0x800 >= TWO64 - 0x8000_0000
  {
    if value + 0x800 < TWO64 {
      LuiPairTotal(value);
      BlocksOf(value);
      hide Hi20Of, LuiLoads, SignExtend12;
      WrapBlocks(value, (Hi20Of(value) + 0x8_0000) / 0x10_0000);
    }
  }

  lemma {:induction false} LuiPairTotal(value: nat)
    requires value + 0x800 < TWO64
    ensures var blocks := (Hi20Of(value) + 0x8_0000) / 0x10_0000;
            LuiLoads(value) + SignExtend12(value) == value - TWO32 * blocks
  {
    var sum := value + 0x800;
    SmallMod(sum, TWO64);
    assert sum == 0x1000 * (sum / 0x1000) + sum % 0x1000;
    assert SignExtend12(value) == sum % 0x1000 - 0x800;
  }

  lemma {:induction false} BlocksOf(value: nat)
    requires value + 0x800 < TWO64
    ensures var blocks := (Hi20Of(value) + 0x8_0000) / 0x10_0000;
            && 0 <= blocks <= TWO32
            && (blocks == 0 <==> value + 0x800 < 0x8000_0000)
            && (blocks == TWO32 <==> value + 0x800 >= TWO64 - 0x8000_0000)
  {
    SmallMod(value + 0x800, TWO64);
  }

  lemma {:induction false} WrapBlocks(value: nat, blocks: nat)
    requires value < TWO64 && blocks <= TWO32
    ensures WrapU64(value - TWO32 * blocks) == value <==> blocks == 0 || blocks == TWO32
  {
    var total := value - TWO32 * blocks;
    assert total == TWO64 * (total / TWO64) + total % TWO64;
  }
}
