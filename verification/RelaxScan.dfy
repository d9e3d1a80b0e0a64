/** One relaxation pass over a RISC-V section: which bytes each relocation gives up, and how far
    the nearest candidate that stayed unrelaxed is from its boundary. */
module RelaxScan {
  import opened Arithmetic
  import opened RelaxDeltas
  import opened Wrappers

  datatype RelocType = Align | Call | CallPlt | Hi20 | Relax | Other

  datatype Relocation = Relocation(rawType: RelocType, offset: nat, addend: int, symbol: Option<nat>)
  {
    predicate IsCall() {
      rawType == Call || rawType == CallPlt
    }

    /** The input bytes this relocation may give up. */
    function Footprint(): nat {
      match rawType
      case Align => if addend > 0 then addend else 0
      case Call | CallPlt => 8
      case Hi20 => 4
      case Relax | Other => 0
    }
  }

  datatype SymbolInfo = SymbolInfo(outputAddress: nat, isInterposable: bool)

  /** The inputs of one pass. `resolve` is asked with the position of the `RELAX` entry and the
      symbol, so it may answer differently each time it is called. */
  datatype Scan = Scan(
    sectionAddress: nat,
    bytes: seq<byte>,
    rels: seq<Relocation>,
    resolve: (nat, nat) -> Option<SymbolInfo>)

  /** Footprints are disjoint and in order, and lie below 2^64. */
  predicate WellFormed(rels: seq<Relocation>) {
    && (forall k :: 0 <= k < |rels| ==> rels[k].offset + rels[k].Footprint() < TWO64)
    && (forall k :: 0 <= k < |rels| && rels[k].rawType == Align ==> rels[k].addend >= 0)
    && (forall j, k :: 0 <= j < k < |rels| && rels[j].Footprint() > 0 && rels[k].Footprint() > 0 ==>
          rels[j].offset + rels[j].Footprint() <= rels[k].offset)
  }

  /******* The arithmetic of the three relaxations *******/

  const JAL_MIN := -0x10_0000
  const JAL_MAX := 0x10_0000 - 1

  predicate DistanceFitsJal(distance: int) {
    JAL_MIN <= distance <= JAL_MAX
  }

  function CallMargin(distance: int): int {
    Abs(distance) - JAL_MAX
  }

  /** The upper part of an address once the sign-extended low 12 bits are accounted for. */
  function Hi20Of(value: nat): nat {
    WrapU64(value + 0x800) / 0x1000
  }

  predicate Hi20IsZero(value: nat) {
    Hi20Of(value) % 0x10_0000 == 0
  }

  /** Low six bits of the upper part, read as a signed number. */
  function SixBit(hi20: nat): int {
    if hi20 % 64 < 32 then hi20 % 64 else hi20 % 64 - 64
  }

  predicate Hi20FitsClui(value: nat) {
    SixBit(Hi20Of(value)) == Hi20Of(value) && Hi20Of(value) != 0
  }

  predicate RdValidForClui(rd: nat) {
    rd != 0 && rd != 2
  }

  function LuiMargin(value: nat): int {
    var hi20: int := Hi20Of(value);
    if hi20 > 31 then (hi20 - 31) * 0x1000
    else if hi20 < -32 then TWO64 - 1
    else 0x1000
  }

  function LuiWord(bytes: seq<byte>, off: nat): nat
    requires off + 4 <= |bytes|
  {
    (bytes[off] as int) + 0x100 * (bytes[off + 1] as int)
    + 0x1_0000 * (bytes[off + 2] as int) + 0x100_0000 * (bytes[off + 3] as int)
  }

  function RdOf(word: nat): nat {
    (word / 128) % 32
  }

  /** Bytes of an alignment sled to drop when it starts at address `p`. */
  function SledExcess(p: nat, addend: nat): Option<nat> {
    var alignment := NextPowerOfTwo(addend);
    var desired := NextMultipleOf(p, alignment);
    var actual := p + addend;
    if actual > desired then Some((actual - desired) % TWO32) else None
  }

  /******* What the pass decides for each relocation *******/

  datatype Decision = Keep | CutSled(bytes: nat) | CutJalr | CutLui | ShrinkLui
  {
    function Size(): nat {
      match this
      case Keep => 0
      case CutSled(bytes) => bytes
      case CutJalr => 4
      case CutLui => 4
      case ShrinkLui => 2
    }
  }

  datatype Outcome = Ineligible | Relaxed(decision: Decision) | Unrelaxed(margin: int)

  /** The symbol of relocation `k` when a `RELAX` entry with the same offset directly follows. */
  function RelaxableSymbol(rels: seq<Relocation>, k: nat): Option<nat>
    requires k < |rels|
  {
    if k + 1 < |rels| && rels[k + 1].rawType == Relax && rels[k + 1].offset == rels[k].offset
    then rels[k].symbol else None
  }

  /** What becomes of a call at `offset` whose `RELAX` entry is at position `at`. */
  function CallVerdict(scan: Scan, at: nat, offset: nat, sym: nat): (o: Outcome)
    ensures o.Relaxed? ==> o.decision == CutJalr
  {
    match scan.resolve(at, sym)
    case None => Ineligible
    case Some(info) =>
      if info.isInterposable then Ineligible
      else
        var distance := WrapI64(info.outputAddress - (scan.sectionAddress + offset));
        if DistanceFitsJal(distance) then Relaxed(CutJalr) else Unrelaxed(CallMargin(distance))
  }

  /** What becomes of a `lui` at `offset` whose `RELAX` entry is at position `at`. */
  function LuiVerdict(scan: Scan, at: nat, offset: nat, sym: nat, addend: int): (o: Outcome)
    ensures o.Relaxed? ==> o.decision == CutLui || o.decision == ShrinkLui
  {
    match scan.resolve(at, sym)
    case None => Ineligible
    case Some(info) =>
      if info.isInterposable || offset + 4 > |scan.bytes| then Ineligible
      else
        var value := WrapU64(info.outputAddress + addend);
        if Hi20IsZero(value) then Relaxed(CutLui)
        else if !RdValidForClui(RdOf(LuiWord(scan.bytes, offset))) then Ineligible
        else if Hi20FitsClui(value) then Relaxed(ShrinkLui)
        else Unrelaxed(LuiMargin(value))
  }

  function CallOutcome(scan: Scan, cuts: seq<Cut>, k: nat): Outcome
    requires k < |scan.rels|
  {
    var offset, sym := scan.rels[k].offset, RelaxableSymbol(scan.rels, k);
    if sym == None || HasCutAt(cuts, offset + 4) then Ineligible
    else CallVerdict(scan, k + 1, offset, sym.value)
  }

  function LuiOutcome(scan: Scan, cuts: seq<Cut>, k: nat): Outcome
    requires k < |scan.rels|
  {
    var offset, sym := scan.rels[k].offset, RelaxableSymbol(scan.rels, k);
    if sym == None || HasCutAt(cuts, offset) || HasCutAt(cuts, offset + 2) then Ineligible
    else LuiVerdict(scan, k + 1, offset, sym.value, scan.rels[k].addend)
  }

  function OutcomeOf(scan: Scan, cuts: seq<Cut>, k: nat): Outcome
    requires k < |scan.rels|
  {
    if scan.rels[k].IsCall() then CallOutcome(scan, cuts, k)
    else if scan.rels[k].rawType == Hi20 then LuiOutcome(scan, cuts, k)
    else Ineligible
  }

  /** The address of input offset `offset` after the earlier passes' cuts and `removed` new bytes. */
  function PositionOf(scan: Scan, cuts: seq<Cut>, offset: nat, removed: nat): nat {
    WrapU64(scan.sectionAddress + offset - DeletedBefore(cuts, offset) - removed)
  }

  function Decide(scan: Scan, cuts: seq<Cut>, k: nat, removed: nat): Decision
    requires k < |scan.rels|
  {
    var r := scan.rels[k];
    if r.rawType == Align then
      if r.addend <= 0 || HasCutAt(cuts, r.offset) then Keep
      else
        match SledExcess(PositionOf(scan, cuts, r.offset, removed), r.addend)
        case Some(bytes) => CutSled(bytes)
        case None => Keep
    else
      match OutcomeOf(scan, cuts, k)
      case Relaxed(decision) => decision
      case _ => Keep
  }

  function Removed(decisions: seq<Decision>): nat {
    if decisions == [] then 0
    else Removed(decisions[..|decisions| - 1]) + decisions[|decisions| - 1].Size()
  }

  /** The decisions for the first `n` relocations, each alignment seeing what was removed so far. */
  function Decisions(scan: Scan, cuts: seq<Cut>, n: nat): (ds: seq<Decision>)
    requires n <= |scan.rels|
    ensures |ds| == n
  {
    if n == 0 then []
    else
      var before := Decisions(scan, cuts, n - 1);
      before + [Decide(scan, cuts, n - 1, Removed(before))]
  }

  function CutFor(r: Relocation, d: Decision): seq<Cut> {
    match d
    case Keep => []
    case CutSled(bytes) => [Cut(r.offset, bytes)]
    case CutJalr => [Cut(r.offset + 4, 4)]
    case CutLui => [Cut(r.offset, 4)]
    case ShrinkLui => [Cut(r.offset + 2, 2)]
  }

  /** The cuts of a list of decisions, in relocation order. */
  function Flatten(rels: seq<Relocation>, ds: seq<Decision>): seq<Cut>
    requires |ds| <= |rels|
  {
    if ds == [] then []
    else Flatten(rels, ds[..|ds| - 1]) + CutFor(rels[|ds| - 1], ds[|ds| - 1])
  }

  /** Decision `d` is one relocation `r` can take. */
  predicate Admissible(r: Relocation, d: Decision) {
    match d
    case Keep => true
    case CutSled(bytes) => r.rawType == Align && r.addend > 0 && bytes <= r.addend
    case CutJalr => r.IsCall()
    case CutLui | ShrinkLui => r.rawType == Hi20
  }

  predicate AllAdmissible(rels: seq<Relocation>, ds: seq<Decision>) {
    |ds| <= |rels| && forall k :: 0 <= k < |ds| ==> Admissible(rels[k], ds[k])
  }

  lemma {:induction false} DecisionsPrefix(scan: Scan, cuts: seq<Cut>, m: nat, n: nat)
    requires m <= n <= |scan.rels|
    ensures Decisions(scan, cuts, n)[..m] == Decisions(scan, cuts, m)
  {
    if m < n {
      DecisionsPrefix(scan, cuts, m, n - 1);
      assert Decisions(scan, cuts, n)[..n - 1] == Decisions(scan, cuts, n - 1);
    }
  }

  lemma {:induction false} DecisionsSnoc(scan: Scan, cuts: seq<Cut>, n: nat)
    requires 0 < n <= |scan.rels|
    ensures Decisions(scan, cuts, n)[..n - 1] == Decisions(scan, cuts, n - 1)
    ensures Decisions(scan, cuts, n)[n - 1] ==
            Decide(scan, cuts, n - 1, Removed(Decisions(scan, cuts, n - 1)))
  {
  }

  lemma {:induction false} DecisionAt(scan: Scan, cuts: seq<Cut>, k: nat, n: nat)
    requires k < n <= |scan.rels|
    ensures Decisions(scan, cuts, n)[k] == Decide(scan, cuts, k, Removed(Decisions(scan, cuts, k)))
  {
    DecisionsPrefix(scan, cuts, k + 1, n);
    var upTo := Decisions(scan, cuts, k + 1);
    assert Decisions(scan, cuts, n)[..k + 1] == upTo;
    assert Decisions(scan, cuts, n)[k] == upTo[k];
    DecisionsSnoc(scan, cuts, k + 1);
  }

  lemma {:induction false} DecideIsAdmissible(scan: Scan, cuts: seq<Cut>, k: nat, removed: nat)
    requires k < |scan.rels|
    ensures Admissible(scan.rels[k], Decide(scan, cuts, k, removed))
  {
    var r := scan.rels[k];
    if r.rawType == Align && r.addend > 0 {
      var p := PositionOf(scan, cuts, r.offset, removed);
      var excess := p + r.addend - NextMultipleOf(p, NextPowerOfTwo(r.addend));
      if 0 < excess {
        assert excess % TWO32 <= excess;
      }
    }
  }

  lemma {:induction false} DecisionsAdmissible(scan: Scan, cuts: seq<Cut>, n: nat)
    requires n <= |scan.rels|
    ensures AllAdmissible(scan.rels, Decisions(scan, cuts, n))
  {
    forall k | 0 <= k < n
      ensures Admissible(scan.rels[k], Decisions(scan, cuts, n)[k])
    {
      DecisionAt(scan, cuts, k, n);
      DecideIsAdmissible(scan, cuts, k, Removed(Decisions(scan, cuts, k)));
    }
  }

  /******* Cuts and their owners *******/

  lemma {:induction false} FlattenMembers(rels: seq<Relocation>, ds: seq<Decision>, c: Cut)
    requires |ds| <= |rels|
    ensures c in Flatten(rels, ds) <==> exists k :: 0 <= k < |ds| && CutFor(rels[k], ds[k]) == [c]
  {
    if ds != [] {
      var init, n := ds[..|ds| - 1], |ds| - 1;
      FlattenMembers(rels, init, c);
      assert forall k :: 0 <= k < n ==> init[k] == ds[k];
      assert c in Flatten(rels, ds) <==> c in Flatten(rels, init) || CutFor(rels[n], ds[n]) == [c];
    }
  }

  /** An admissible decision cuts inside its own relocation's footprint. */
  lemma {:induction false} CutInFootprint(r: Relocation, d: Decision)
    requires Admissible(r, d) && d != Keep
    ensures |CutFor(r, d)| == 1
    ensures var c := CutFor(r, d)[0];
            && c.bytes == d.Size()
            && r.offset <= c.offset < r.offset + r.Footprint()
            && c.offset + c.bytes <= r.offset + r.Footprint()
  {
  }

  /** Cuts of the first relocations end before the footprint of the next one. */
  lemma {:induction false} CutsBeforeFootprint(rels: seq<Relocation>, ds: seq<Decision>, n: nat, c: Cut)
    requires WellFormed(rels) && AllAdmissible(rels, ds) && |ds| <= n < |rels|
    requires rels[n].Footprint() > 0 && c in Flatten(rels, ds)
    ensures c.offset < rels[n].offset && c.offset + c.bytes <= rels[n].offset
  {
    FlattenMembers(rels, ds, c);
    var k :| 0 <= k < |ds| && CutFor(rels[k], ds[k]) == [c];
    CutInFootprint(rels[k], ds[k]);
  }

  /** Admissible decisions give strictly ascending, pairwise disjoint cuts. */
  lemma {:induction false} FlattenIsSortedAndDisjoint(rels: seq<Relocation>, ds: seq<Decision>)
    requires WellFormed(rels) && AllAdmissible(rels, ds)
    ensures Sorted(Flatten(rels, ds)) && Disjoint(Flatten(rels, ds))
  {
    if ds != [] {
      var init, n := ds[..|ds| - 1], |ds| - 1;
      FlattenIsSortedAndDisjoint(rels, init);
      var head, last := Flatten(rels, init), CutFor(rels[n], ds[n]);
      if last != [] {
        CutInFootprint(rels[n], ds[n]);
        hide WellFormed, CutFor;
        forall i | 0 <= i < |head|
          ensures head[i].offset < last[0].offset && head[i].offset + head[i].bytes <= last[0].offset
        {
          CutsBeforeFootprint(rels, init, n, head[i]);
        }
        assert Flatten(rels, ds) == head + [last[0]];
        CutBehindAll(head, last[0]);
      }
    }
  }

  lemma {:induction false} CutBehindAll(cuts: seq<Cut>, last: Cut)
    requires Sorted(cuts) && Disjoint(cuts)
    requires forall i :: 0 <= i < |cuts| ==>
               cuts[i].offset < last.offset && cuts[i].offset + cuts[i].bytes <= last.offset
    ensures Sorted(cuts + [last]) && Disjoint(cuts + [last])
  {
  }

  /** A cut of one relocation never starts inside the footprint of another. */
  lemma {:induction false} CutAtBelongsTo(rels: seq<Relocation>, ds: seq<Decision>, k: nat, offset: nat)
    requires WellFormed(rels) && AllAdmissible(rels, ds) && k < |ds|
    requires rels[k].offset <= offset < rels[k].offset + rels[k].Footprint()
    ensures HasCutAt(Flatten(rels, ds), offset) <==>
            CutFor(rels[k], ds[k]) != [] && CutFor(rels[k], ds[k])[0].offset == offset
  {
    var cuts := Flatten(rels, ds);
    if HasCutAt(cuts, offset) {
      var i :| 0 <= i < |cuts| && cuts[i].offset == offset;
      FlattenMembers(rels, ds, cuts[i]);
      var j :| 0 <= j < |ds| && CutFor(rels[j], ds[j]) == [cuts[i]];
      CutInFootprint(rels[j], ds[j]);
      assert j == k;
    }
    if CutFor(rels[k], ds[k]) != [] {
      var c := CutFor(rels[k], ds[k])[0];
      assert CutFor(rels[k], ds[k]) == [c];
      FlattenMembers(rels, ds, c);
    }
  }

  lemma {:induction false} FootprintOrder(rels: seq<Relocation>, ds: seq<Decision>, k: nat, n: nat)
    requires WellFormed(rels) && AllAdmissible(rels, ds) && n < |ds| && ds[n] != Keep
    requires k < |rels| && rels[k].Footprint() > 0
    ensures |CutFor(rels[n], ds[n])| == 1
    ensures var c := CutFor(rels[n], ds[n])[0];
            && c.bytes == ds[n].Size()
            && (k < n ==> rels[k].offset + rels[k].Footprint() <= c.offset)
            && (k == n ==> rels[k].offset <= c.offset < rels[k].offset + rels[k].Footprint())
            && (n < k ==> c.offset < rels[k].offset)
  {
    CutInFootprint(rels[n], ds[n]);
  }

  /** Splits off the last decision. */
  lemma {:induction false} DeletedBeforeStep(rels: seq<Relocation>, ds: seq<Decision>, x: nat)
    requires 0 < |ds| <= |rels|
    ensures var n := |ds| - 1;
            DeletedBefore(Flatten(rels, ds), x)
            == DeletedBefore(Flatten(rels, ds[..n]), x)
               + if CutFor(rels[n], ds[n]) != [] && CutFor(rels[n], ds[n])[0].offset < x
                 then CutFor(rels[n], ds[n])[0].bytes else 0
  {
    hide DeletedBefore;
    var n := |ds| - 1;
    var head, last := Flatten(rels, ds[..n]), CutFor(rels[n], ds[n]);
    if last == [] {
      assert head + last == head;
    } else {
      DeletedBeforeAppend(head, last[0], x);
    }
  }

  lemma {:induction false} KeepCutsNothing(r: Relocation, d: Decision)
    ensures d == Keep ==> CutFor(r, d) == [] && d.Size() == 0
  {
  }

  lemma {:induction false} NothingDeleted(rels: seq<Relocation>, x: nat)
    ensures DeletedBefore(Flatten(rels, []), x) == 0 && Removed([]) == 0
  {
  }

  /** The bytes recorded before a footprint are those of the relocations before it. */
  lemma {:induction false} DeletedBeforeFootprint(rels: seq<Relocation>, ds: seq<Decision>, k: nat)
    requires WellFormed(rels) && AllAdmissible(rels, ds) && k < |rels| && rels[k].Footprint() > 0
    ensures DeletedBefore(Flatten(rels, ds), rels[k].offset) == Removed(ds[..Min(k, |ds|)])
  {
    hide WellFormed, DeletedBefore, Flatten, CutFor;
    if ds == [] {
      NothingDeleted(rels, rels[k].offset);
      NothingDeleted(rels, rels[k].offset + rels[k].Footprint());
    } else {
      var init, n := ds[..|ds| - 1], |ds| - 1;
      KeepCutsNothing(rels[n], ds[n]);
      DeletedBeforeFootprint(rels, init, k);
      DeletedBeforeStep(rels, ds, rels[k].offset);
      if ds[n] != Keep {
        FootprintOrder(rels, ds, k, n);
      }
      if n < k {
        assert ds[..Min(k, |ds|)] == ds && init[..Min(k, n)] == init;
      } else {
        assert init[..k] == ds[..k];
      }
    }
  }

  /** Likewise up to the end of a footprint, which counts its own relocation too. */
  lemma {:induction false} DeletedBeforeFootprintEnd(rels: seq<Relocation>, ds: seq<Decision>, k: nat)
    requires WellFormed(rels) && AllAdmissible(rels, ds) && k < |rels| && rels[k].Footprint() > 0
    ensures DeletedBefore(Flatten(rels, ds), rels[k].offset + rels[k].Footprint())
            == Removed(ds[..Min(k + 1, |ds|)])
  {
    hide WellFormed, DeletedBefore, Flatten, CutFor;
    if ds == [] {
      NothingDeleted(rels, rels[k].offset);
      NothingDeleted(rels, rels[k].offset + rels[k].Footprint());
    } else {
      var init, n := ds[..|ds| - 1], |ds| - 1;
      KeepCutsNothing(rels[n], ds[n]);
      DeletedBeforeFootprintEnd(rels, init, k);
      DeletedBeforeStep(rels, ds, rels[k].offset + rels[k].Footprint());
      if ds[n] != Keep {
        FootprintOrder(rels, ds, k, n);
      }
      if n <= k {
        assert ds[..Min(k + 1, |ds|)] == ds && init[..Min(k + 1, n)] == init;
      } else {
        assert init[..k + 1] == ds[..k + 1];
      }
    }
  }

  /** Two decision lists never spend more than the footprints when no relocation appears in both. */
  lemma {:induction false} RemovedFits(rels: seq<Relocation>, a: seq<Decision>, b: seq<Decision>, x: nat)
    requires WellFormed(rels) && AllAdmissible(rels, a) && AllAdmissible(rels, b) && |a| == |b|
    requires forall k :: 0 <= k < |a| ==> a[k] == Keep || b[k] == Keep
    requires forall k :: 0 <= k < |a| && rels[k].Footprint() > 0 ==>
                           rels[k].offset + rels[k].Footprint() <= x
    ensures Removed(a) + Removed(b) <= x
  {
    if a != [] {
      var n := |a| - 1;
      var r := rels[n];
      if r.Footprint() > 0 {
        RemovedFits(rels, a[..n], b[..n], r.offset);
      } else {
        RemovedFits(rels, a[..n], b[..n], x);
      }
      if a[n] != Keep { CutInFootprint(r, a[n]); }
      if b[n] != Keep { CutInFootprint(r, b[n]); }
    }
  }

  /** A relocation that an earlier pass cut is left alone by this one. */
  lemma {:induction false} CutAtMostOnce(scan: Scan, prior: seq<Decision>, k: nat, removed: nat)
    requires WellFormed(scan.rels) && AllAdmissible(scan.rels, prior) && |prior| == |scan.rels|
    requires k < |prior|
    ensures prior[k] == Keep || Decide(scan, Flatten(scan.rels, prior), k, removed) == Keep
  {
    if prior[k] != Keep {
      CutInFootprint(scan.rels[k], prior[k]);
      CutAtBelongsTo(scan.rels, prior, k, CutFor(scan.rels[k], prior[k])[0].offset);
    }
  }

  /** No position the pass computes wraps below zero: earlier and new deletions before a footprint
      together fit below its offset. */
  lemma {:induction false} PositionNeverWraps(scan: Scan, prior: seq<Decision>, k: nat)
    requires WellFormed(scan.rels) && AllAdmissible(scan.rels, prior) && |prior| == |scan.rels|
    requires k < |scan.rels| && scan.rels[k].Footprint() > 0
    ensures var cuts := Flatten(scan.rels, prior);
            DeletedBefore(cuts, scan.rels[k].offset) + Removed(Decisions(scan, cuts, k))
            <= scan.rels[k].offset
  {
    var rels, cuts := scan.rels, Flatten(scan.rels, prior);
    DeletedBeforeFootprint(rels, prior, k);
    DecisionsAdmissible(scan, cuts, k);
    forall j | 0 <= j < k
      ensures prior[..k][j] == Keep || Decisions(scan, cuts, k)[j] == Keep
    {
      DecisionAt(scan, cuts, j, k);
      CutAtMostOnce(scan, prior, j, Removed(Decisions(scan, cuts, j)));
    }
    RemovedFits(rels, prior[..k], Decisions(scan, cuts, k), rels[k].offset);
  }

  /******* The scan *******/

  function Outcomes(scan: Scan, cuts: seq<Cut>, n: nat): (os: seq<Outcome>)
    requires n <= |scan.rels|
    ensures |os| == n
    ensures forall k :: 0 <= k < n ==> os[k] == OutcomeOf(scan, cuts, k)
  {
    seq(n, k requires 0 <= k < n => OutcomeOf(scan, cuts, k))
  }

  /** `m` is the smallest margin among the candidates that were seen and left alone; it is absent
      exactly when there was none. */
  ghost predicate IsLeastMargin(os: seq<Outcome>, m: Option<int>) {
    && (m == None <==> forall k :: 0 <= k < |os| ==> !os[k].Unrelaxed?)
    && (m.Some? ==>
          && (exists k :: 0 <= k < |os| && os[k] == Unrelaxed(m.value))
          && (forall k :: 0 <= k < |os| && os[k].Unrelaxed? ==> m.value <= os[k].margin))
  }

  /** `map_or(margin, |m| m.min(margin))`. */
  function LeastMargin(m: Option<int>, margin: int): Option<int> {
    if m.Some? && m.value <= margin then m else Some(margin)
  }

  function Entries(existing: Option<seq<RelaxDelta>>): seq<RelaxDelta> {
    if existing.Some? then existing.value else []
  }

  /** A relocation whose `RELAX` entry, if any, has not been read yet. */
  predicate Pending(rels: seq<Relocation>, n: nat)
    requires n <= |rels|
  {
    n > 0 && (rels[n - 1].IsCall() || rels[n - 1].rawType == Hi20)
  }

  /** How many leading relocations have been decided once `n` entries were read. */
  function Settled(rels: seq<Relocation>, n: nat): nat
    requires n <= |rels|
  {
    if Pending(rels, n) then n - 1 else n
  }

  /** What the pairing state remembers: the call or `lui` read immediately before, if it has a symbol. */
  ghost predicate Remembers(
    rels: seq<Relocation>, n: nat,
    prevCall: Option<(nat, nat)>, prevHi20: Option<(nat, nat, int)>)
    requires n <= |rels|
  {
    && prevCall == (if Pending(rels, n) && rels[n - 1].IsCall() && rels[n - 1].symbol.Some?
                    then Some((rels[n - 1].offset, rels[n - 1].symbol.value)) else None)
    && prevHi20 == (if Pending(rels, n) && rels[n - 1].rawType == Hi20 && rels[n - 1].symbol.Some?
                    then Some((rels[n - 1].offset, rels[n - 1].symbol.value, rels[n - 1].addend)) else None)
  }

  /** The loop state after the first `n` relocations have been decided. */
  ghost predicate Decided(
    scan: Scan, cuts: seq<Cut>, n: nat, rawDeltas: seq<Cut>, removed: nat, margin: Option<int>)
    requires n <= |scan.rels|
  {
    && rawDeltas == Flatten(scan.rels, Decisions(scan, cuts, n))
    && removed == Removed(Decisions(scan, cuts, n))
    && IsLeastMargin(Outcomes(scan, cuts, n), margin)
  }

  lemma {:induction false} SledIsNotNegative(rels: seq<Relocation>, k: nat)
    requires WellFormed(rels) && k < |rels| && rels[k].rawType == Align
    ensures rels[k].addend >= 0
  {
  }

  lemma {:induction false} NothingDecided(scan: Scan, cuts: seq<Cut>)
    ensures Decided(scan, cuts, 0, [], 0, None)
  {
  }

  lemma {:induction false} DecidedMeans(
    scan: Scan, cuts: seq<Cut>, n: nat, rawDeltas: seq<Cut>, removed: nat, margin: Option<int>)
    requires n <= |scan.rels| && Decided(scan, cuts, n, rawDeltas, removed, margin)
    ensures rawDeltas == Flatten(scan.rels, Decisions(scan, cuts, n))
    ensures removed == Removed(Decisions(scan, cuts, n))
    ensures IsLeastMargin(Outcomes(scan, cuts, n), margin)
  {
  }

  lemma {:induction false} LeastMarginStep(os: seq<Outcome>, o: Outcome, m: Option<int>)
    requires IsLeastMargin(os, m)
    ensures IsLeastMargin(os + [o], if o.Unrelaxed? then LeastMargin(m, o.margin) else m)
  {
    var all := os + [o];
    assert all[|os|] == o;
    assert forall k :: 0 <= k < |os| ==> all[k] == os[k];
  }

  /** Deciding one more relocation appends its cut, adds its bytes and folds in its margin. */
  lemma {:induction false} Advance(
    scan: Scan, cuts: seq<Cut>, n: nat, rawDeltas: seq<Cut>, removed: nat, margin: Option<int>)
    requires n < |scan.rels| && Decided(scan, cuts, n, rawDeltas, removed, margin)
    ensures var d := Decide(scan, cuts, n, removed);
            Decided(scan, cuts, n + 1, rawDeltas + CutFor(scan.rels[n], d), removed + d.Size(),
              if OutcomeOf(scan, cuts, n).Unrelaxed?
              then LeastMargin(margin, OutcomeOf(scan, cuts, n).margin) else margin)
  {
    hide Decisions, Decide, OutcomeOf, IsLeastMargin;
    DecisionsSnoc(scan, cuts, n + 1);
    LeastMarginStep(Outcomes(scan, cuts, n), OutcomeOf(scan, cuts, n), margin);
    assert Outcomes(scan, cuts, n + 1) == Outcomes(scan, cuts, n) + [OutcomeOf(scan, cuts, n)];
  }

  /** A relocation that takes no part leaves the loop state as it was. */
  lemma {:induction false} AdvanceKept(
    scan: Scan, cuts: seq<Cut>, n: nat, rawDeltas: seq<Cut>, removed: nat, margin: Option<int>)
    requires n < |scan.rels| && Decided(scan, cuts, n, rawDeltas, removed, margin)
    requires Decide(scan, cuts, n, removed) == Keep && !OutcomeOf(scan, cuts, n).Unrelaxed?
    ensures Decided(scan, cuts, n + 1, rawDeltas, removed, margin)
  {
    Advance(scan, cuts, n, rawDeltas, removed, margin);
    assert rawDeltas + [] == rawDeltas;
  }

  /** A candidate left alone contributes its margin only. */
  lemma {:induction false} AdvanceUnrelaxed(
    scan: Scan, cuts: seq<Cut>, n: nat, rawDeltas: seq<Cut>, removed: nat, margin: Option<int>)
    requires n < |scan.rels| && Decided(scan, cuts, n, rawDeltas, removed, margin)
    requires scan.rels[n].rawType != Align && OutcomeOf(scan, cuts, n).Unrelaxed?
    ensures Decided(scan, cuts, n + 1, rawDeltas, removed,
              LeastMargin(margin, OutcomeOf(scan, cuts, n).margin))
  {
    Advance(scan, cuts, n, rawDeltas, removed, margin);
    assert rawDeltas + [] == rawDeltas;
  }

  /** The `R_RISCV_RELAX` arm: settles the call or `lui` read just before, when it pairs with it. */
  method ReadRelax(
    scan: Scan, deltas: seq<RelaxDelta>, i: nat,
    prevCall: Option<(nat, nat)>, prevHi20: Option<(nat, nat, int)>,
    before: seq<Cut>, removedBefore: nat, marginBefore: Option<int>)
    returns (rawDeltas: seq<Cut>, newCumulativeDelta: nat, minUnrelaxedMargin: Option<int>)
    requires i < |scan.rels| && scan.rels[i].rawType == Relax
    requires Remembers(scan.rels, i, prevCall, prevHi20)
    requires var n := if Pending(scan.rels, i) && RelaxableSymbol(scan.rels, i - 1) == None then i
                      else Settled(scan.rels, i);
             Decided(scan, CutsOf(deltas), n, before, removedBefore, marginBefore)
    ensures Decided(scan, CutsOf(deltas), i, rawDeltas, newCumulativeDelta, minUnrelaxedMargin)
  {
    // The proof works on the loop state as a whole; the definitions below stay folded.
    hide Decided, WrapU64, SledExcess, DeletedBefore, Flatten, Removed, Decisions, CallVerdict, LuiVerdict,
      WellFormed, WellRecorded, AllAdmissible, IsLeastMargin, Outcomes, HasCutAt, CumulativeBefore;
    ghost var cuts := CutsOf(deltas);
    rawDeltas, newCumulativeDelta, minUnrelaxedMargin := before, removedBefore, marginBefore;
    if prevCall.Some? && scan.rels[i].offset == prevCall.value.0 && !HasDeltaAt(deltas, prevCall.value.0 + 4) {
      var (callOffset, sym) := prevCall.value;
      match CallVerdict(scan, i, callOffset, sym) {
        case Relaxed(_) =>
          Advance(scan, cuts, i - 1, rawDeltas, newCumulativeDelta, minUnrelaxedMargin);
          rawDeltas := rawDeltas + [Cut(callOffset + 4, 4)];
          newCumulativeDelta := newCumulativeDelta + 4;
        case Unrelaxed(margin) =>
          AdvanceUnrelaxed(scan, cuts, i - 1, rawDeltas, newCumulativeDelta, minUnrelaxedMargin);
          minUnrelaxedMargin := LeastMargin(minUnrelaxedMargin, margin);
        case Ineligible =>
          AdvanceKept(scan, cuts, i - 1, rawDeltas, newCumulativeDelta, minUnrelaxedMargin);
      }
    } else if prevHi20.Some? && scan.rels[i].offset == prevHi20.value.0
         && !(HasDeltaAt(deltas, prevHi20.value.0) || HasDeltaAt(deltas, prevHi20.value.0 + 2)) {
      var (hi20Offset, sym, addend) := prevHi20.value;
      match LuiVerdict(scan, i, hi20Offset, sym, addend) {
        case Relaxed(decision) =>
          Advance(scan, cuts, i - 1, rawDeltas, newCumulativeDelta, minUnrelaxedMargin);
          if decision == CutLui {
            rawDeltas := rawDeltas + [Cut(hi20Offset, 4)];
            newCumulativeDelta := newCumulativeDelta + 4;
          } else {
            rawDeltas := rawDeltas + [Cut(hi20Offset + 2, 2)];
            newCumulativeDelta := newCumulativeDelta + 2;
          }
        case Unrelaxed(margin) =>
          AdvanceUnrelaxed(scan, cuts, i - 1, rawDeltas, newCumulativeDelta, minUnrelaxedMargin);
          minUnrelaxedMargin := LeastMargin(minUnrelaxedMargin, margin);
        case Ineligible =>
          AdvanceKept(scan, cuts, i - 1, rawDeltas, newCumulativeDelta, minUnrelaxedMargin);
      }
    } else if Pending(scan.rels, i) && RelaxableSymbol(scan.rels, i - 1) != None {
      AdvanceKept(scan, cuts, i - 1, rawDeltas, newCumulativeDelta, minUnrelaxedMargin);
    }
  }

  method CollectRelaxationDeltas(
    scan: Scan, existing: Option<seq<RelaxDelta>>, ghost prior: seq<Decision>)
    returns (rawDeltas: seq<Cut>, minUnrelaxedMargin: Option<int>)
    requires WellFormed(scan.rels)
    requires WellRecorded(Entries(existing))
    requires AllAdmissible(scan.rels, prior) && |prior| == |scan.rels|
    requires CutsOf(Entries(existing)) == Flatten(scan.rels, prior)
    ensures rawDeltas == Flatten(scan.rels, Decisions(scan, CutsOf(Entries(existing)), |scan.rels|))
    ensures IsLeastMargin(Outcomes(scan, CutsOf(Entries(existing)), |scan.rels|), minUnrelaxedMargin)
  {
    // The proof works on the loop state as a whole; the definitions below stay folded.
    hide Decided, WrapU64, SledExcess, DeletedBefore, Flatten, Removed, Decisions, CallVerdict, LuiVerdict,
      WellFormed, WellRecorded, AllAdmissible, IsLeastMargin, Outcomes, HasCutAt, CumulativeBefore;
    var rels, deltas := scan.rels, Entries(existing);
    ghost var cuts := CutsOf(deltas);
    rawDeltas, minUnrelaxedMargin := [], None;
    var prevCall: Option<(nat, nat)> := None;
    var prevHi20: Option<(nat, nat, int)> := None;
    var newCumulativeDelta: nat := 0;
    NothingDecided(scan, cuts);
    for i := 0 to |rels|
      invariant Remembers(rels, i, prevCall, prevHi20)
      invariant Decided(scan, cuts, Settled(rels, i), rawDeltas, newCumulativeDelta, minUnrelaxedMargin)
    {
      var rel := rels[i];
      if Pending(rels, i) && RelaxableSymbol(rels, i - 1) == None {
        AdvanceKept(scan, cuts, i - 1, rawDeltas, newCumulativeDelta, minUnrelaxedMargin);
      }
      match rel.rawType
      case Align =>
        SledIsNotNegative(rels, i);
        var inputOffset := rel.offset;
        if rel.addend == 0 || HasDeltaAt(deltas, inputOffset) {
          AdvanceKept(scan, cuts, i, rawDeltas, newCumulativeDelta, minUnrelaxedMargin);
        } else {
          DecidedMeans(scan, cuts, i, rawDeltas, newCumulativeDelta, minUnrelaxedMargin);
          var existingCum := CumulativeBefore(deltas, inputOffset);
          CumulativeBeforeIsDeletedBefore(deltas, inputOffset);
          PositionNeverWraps(scan, prior, i);
          var outputOffset: nat := inputOffset - existingCum - newCumulativeDelta;
          var p := WrapU64(scan.sectionAddress + outputOffset);
          assert p == PositionOf(scan, cuts, inputOffset, newCumulativeDelta);
          var excess := SledExcess(p, rel.addend);
          if excess.Some? {
            Advance(scan, cuts, i, rawDeltas, newCumulativeDelta, minUnrelaxedMargin);
            rawDeltas := rawDeltas + [Cut(inputOffset, excess.value)];
            newCumulativeDelta := newCumulativeDelta + excess.value;
          } else {
            AdvanceKept(scan, cuts, i, rawDeltas, newCumulativeDelta, minUnrelaxedMargin);
          }
        }
        prevCall, prevHi20 := None, None;
      case Call | CallPlt =>
        prevCall := if rel.symbol.Some? then Some((rel.offset, rel.symbol.value)) else None;
        prevHi20 := None;
      case Hi20 =>
        prevHi20 := if rel.symbol.Some? then Some((rel.offset, rel.symbol.value, rel.addend)) else None;
        prevCall := None;
      case Relax =>
        rawDeltas, newCumulativeDelta, minUnrelaxedMargin :=
          ReadRelax(scan, deltas, i, prevCall, prevHi20, rawDeltas, newCumulativeDelta, minUnrelaxedMargin);
        AdvanceKept(scan, cuts, i, rawDeltas, newCumulativeDelta, minUnrelaxedMargin);
        prevCall, prevHi20 := None, None;
      case Other =>
        AdvanceKept(scan, cuts, i, rawDeltas, newCumulativeDelta, minUnrelaxedMargin);
        prevCall, prevHi20 := None, None;
    }
    if Pending(rels, |rels|) {
      AdvanceKept(scan, cuts, |rels| - 1, rawDeltas, newCumulativeDelta, minUnrelaxedMargin);
    }
    DecidedMeans(scan, cuts, |rels|, rawDeltas, newCumulativeDelta, minUnrelaxedMargin);
  }
}
