/** Which relocations a pass relaxes, and which it leaves with a margin, said on the relocation list,
    the section's bytes, the symbol and the earlier cuts alone. */
module RelaxEligible {
  import opened Arithmetic
  import opened RelaxDeltas
  import opened RelaxScan
  import opened Wrappers

  /** A `RELAX` entry for the same place comes next, and the relocation names symbol `sym`. */
  predicate Paired(rels: seq<Relocation>, k: nat, sym: nat) {
    && k + 1 < |rels|
    && rels[k + 1].rawType == Relax
    && rels[k + 1].offset == rels[k].offset
    && rels[k].symbol == Some(sym)
  }

  /** None of the cuts starts at `offset`. */
  predicate Untouched(cuts: seq<Cut>, offset: nat) {
    forall c :: c in cuts ==> c.offset != offset
  }

  /** The symbol has an address, and no other definition can replace it at run time. */
  ghost predicate ResolvesTo(scan: Scan, k: nat, sym: nat, address: nat) {
    scan.resolve(k + 1, sym) == Some(SymbolInfo(address, false))
  }

  /** The distance is what remains of the difference in 64 bits, read as a signed number. */
  predicate IsDistance(d: int, from: int, to: int) {
    && -0x8000_0000_0000_0000 <= d < 0x8000_0000_0000_0000
    && (to - from - d) % 0x1_0000_0000_0000_0000 == 0
  }

  lemma {:induction false} DistanceIsUnique(d: int, from: int, to: int)
    ensures IsDistance(d, from, to) <==> d == WrapI64(to - from)
  {
  }

  /** Relocation `k` is a call that a pass may relax, to a symbol `d` bytes away. */
  ghost predicate CallCandidate(scan: Scan, cuts: seq<Cut>, k: nat, d: int) {
    && k < |scan.rels|
    && (scan.rels[k].rawType == Call || scan.rels[k].rawType == CallPlt)
    && Untouched(cuts, scan.rels[k].offset + 4)
    && exists sym: nat, address: nat :: Paired(scan.rels, k, sym) && ResolvesTo(scan, k, sym, address)
                              && IsDistance(d, scan.sectionAddress + scan.rels[k].offset, address)
  }

  lemma {:induction false} UntouchedIs(cuts: seq<Cut>, offset: nat)
    ensures Untouched(cuts, offset) <==> !HasCutAt(cuts, offset)
  {
    if HasCutAt(cuts, offset) {
      var i :| 0 <= i < |cuts| && cuts[i].offset == offset;
      assert cuts[i] in cuts;
    }
  }

  lemma {:induction false} CallOutcomeIs(scan: Scan, cuts: seq<Cut>, k: nat, d: int)
    requires CallCandidate(scan, cuts, k, d)
    ensures OutcomeOf(scan, cuts, k)
            == if -0x10_0000 <= d < 0x10_0000 then Relaxed(CutJalr)
               else Unrelaxed((if d < 0 then -d else d) - 0xF_FFFF)
  {
    var offset := scan.rels[k].offset;
    UntouchedIs(cuts, offset + 4);
    var sym: nat, address: nat :| Paired(scan.rels, k, sym) && ResolvesTo(scan, k, sym, address)
                        && IsDistance(d, scan.sectionAddress + offset, address);
    DistanceIsUnique(d, scan.sectionAddress + offset, address);
    hide HasCutAt, IsDistance;
  }

  lemma {:induction false} CallOutcomeMeans(scan: Scan, cuts: seq<Cut>, k: nat) returns (d: int)
    requires k < |scan.rels| && scan.rels[k].IsCall() && OutcomeOf(scan, cuts, k) != Ineligible
    ensures CallCandidate(scan, cuts, k, d)
  {
    var offset := scan.rels[k].offset;
    UntouchedIs(cuts, offset + 4);
    var sym := scan.rels[k].symbol.value;
    var address := scan.resolve(k + 1, sym).value.outputAddress;
    d := WrapI64(address - (scan.sectionAddress + offset));
    DistanceIsUnique(d, scan.sectionAddress + offset, address);
    hide HasCutAt, IsDistance;
    assert Paired(scan.rels, k, sym) && ResolvesTo(scan, k, sym, address);
  }

  /** A call loses its second instruction if and only if it is a call with a `RELAX` entry, that
      instruction has not been cut before, its symbol has an address and is not interposable, and the
      distance between the raw places lies in [-2^20, 2^20). */
  lemma {:induction false} CallsCutExactly(scan: Scan, cuts: seq<Cut>, k: nat, removed: nat)
    requires k < |scan.rels|
    ensures Decide(scan, cuts, k, removed) == CutJalr <==>
            exists d :: CallCandidate(scan, cuts, k, d) && -0x10_0000 <= d < 0x10_0000
  {
    hide CallCandidate, SledExcess, PositionOf, HasCutAt;
    if d :| CallCandidate(scan, cuts, k, d) && -0x10_0000 <= d < 0x10_0000 {
      CallOutcomeIs(scan, cuts, k, d);
      CandidateIsCall(scan, cuts, k, d);
    }
    if Decide(scan, cuts, k, removed) == CutJalr {
      JalrMeansCall(scan, cuts, k, removed);
      var d := CallOutcomeMeans(scan, cuts, k);
      CallOutcomeIs(scan, cuts, k, d);
    }
  }

  lemma {:induction false} CandidateIsCall(scan: Scan, cuts: seq<Cut>, k: nat, d: int)
    requires CallCandidate(scan, cuts, k, d)
    ensures scan.rels[k].IsCall() && scan.rels[k].rawType != Align
  {
  }

  lemma {:induction false} JalrMeansCall(scan: Scan, cuts: seq<Cut>, k: nat, removed: nat)
    requires k < |scan.rels| && Decide(scan, cuts, k, removed) == CutJalr
    ensures scan.rels[k].IsCall() && OutcomeOf(scan, cuts, k) == Relaxed(CutJalr)
  {
    hide SledExcess, PositionOf, HasCutAt, CallVerdict;
  }

  /** A call is left with a margin under the same conditions when the distance is out of range; the
      margin is its size less 2^20 - 1. */
  lemma {:induction false} CallMarginsExactly(scan: Scan, cuts: seq<Cut>, k: nat, margin: int)
    requires k < |scan.rels| && (scan.rels[k].rawType == Call || scan.rels[k].rawType == CallPlt)
    ensures OutcomeOf(scan, cuts, k) == Unrelaxed(margin) <==>
            exists d :: CallCandidate(scan, cuts, k, d) && !(-0x10_0000 <= d < 0x10_0000)
                        && margin == (if d < 0 then -d else d) - 0xF_FFFF
  {
    hide CallCandidate, OutcomeOf;
    if d :| CallCandidate(scan, cuts, k, d) && !(-0x10_0000 <= d < 0x10_0000)
            && margin == (if d < 0 then -d else d) - 0xF_FFFF {
      CallOutcomeIs(scan, cuts, k, d);
    }
    if OutcomeOf(scan, cuts, k) == Unrelaxed(margin) {
      var d := CallOutcomeMeans(scan, cuts, k);
      CallOutcomeIs(scan, cuts, k, d);
    }
  }

  /******* lui *******/

  /** Relocation `k` is the upper half of an address that a pass may relax; the address with its addend
      is `value`, in 64 bits. */
  ghost predicate LuiCandidate(scan: Scan, cuts: seq<Cut>, k: nat, value: nat) {
    && k < |scan.rels|
    && scan.rels[k].rawType == Hi20
    && Untouched(cuts, scan.rels[k].offset) && Untouched(cuts, scan.rels[k].offset + 2)
    && scan.rels[k].offset + 4 <= |scan.bytes|
    && exists sym: nat, address: nat :: Paired(scan.rels, k, sym) && ResolvesTo(scan, k, sym, address)
                              && value == (address + scan.rels[k].addend) % 0x1_0000_0000_0000_0000
  }

  /** The upper part: bits 12 to 63 of the value plus half a page, in 64 bits. */
  function UpperPart(value: nat): nat {
    (value + 0x800) % 0x1_0000_0000_0000_0000 / 4096
  }

  /** Bits 7 to 11 of the instruction: the top bit of its first byte and the low four of its second. */
  function TargetRegister(bytes: seq<byte>, offset: nat): nat
    requires offset + 4 <= |bytes|
  {
    bytes[offset] / 128 + 2 * (bytes[offset + 1] % 16)
  }

  lemma {:induction false} RegisterBits(bytes: seq<byte>, offset: nat)
    requires offset + 4 <= |bytes|
    ensures RdOf(LuiWord(bytes, offset)) == TargetRegister(bytes, offset)
  {
    RegisterOfBytes(bytes[offset], bytes[offset + 1], bytes[offset + 2], bytes[offset + 3]);
  }

  lemma {:induction false} RegisterOfBytes(b0: nat, b1: nat, b2: nat, b3: nat)
    requires b0 < 256 && b1 < 256
    ensures ((b0 + 0x100 * b1 + 0x1_0000 * b2 + 0x100_0000 * b3) / 128) % 32 == b0 / 128 + 2 * (b1 % 16)
  {
    var h, l := b0 / 128, b0 % 128;
    var u, v := b1 / 16, b1 % 16;
    var rest := u + 16 * b2 + 4096 * b3;
    assert b0 == 128 * h + l && b1 == 16 * u + v;
    FieldOf(rest, h + 2 * v, l);
  }

  lemma {:induction false} FieldOf(high: nat, field: nat, low: nat)
    requires field < 32 && low < 128
    ensures (128 * (32 * high + field) + low) / 128 % 32 == field
  {
    assert (128 * (32 * high + field) + low) / 128 == 32 * high + field;
  }

  /** What becomes of a candidate: deleted when bits 12 to 31 are zero; otherwise, unless its register is
      x0 or x2, compressed when the upper part is 1 to 31 and left with a margin when it is larger. */
  lemma {:induction false} LuiOutcomeIs(scan: Scan, cuts: seq<Cut>, k: nat, value: nat)
    requires LuiCandidate(scan, cuts, k, value)
    ensures var upper, rd := UpperPart(value), TargetRegister(scan.bytes, scan.rels[k].offset);
            OutcomeOf(scan, cuts, k)
            == if upper % 0x10_0000 == 0 then Relaxed(CutLui)
               else if rd == 0 || rd == 2 then Ineligible
               else if upper <= 31 then Relaxed(ShrinkLui)
               else Unrelaxed((upper - 31) * 4096)
  {
    var offset := scan.rels[k].offset;
    UntouchedIs(cuts, offset);
    UntouchedIs(cuts, offset + 2);
    var sym: nat, address: nat :| Paired(scan.rels, k, sym) && ResolvesTo(scan, k, sym, address)
                        && value == (address + scan.rels[k].addend) % 0x1_0000_0000_0000_0000;
    hide HasCutAt, LuiVerdict, UpperPart, TargetRegister;
    LuiVerdictIs(scan, k, offset, sym, scan.rels[k].addend, address);
  }

  lemma {:induction false} LuiVerdictIs(scan: Scan, k: nat, offset: nat, sym: nat, addend: int, address: nat)
    requires ResolvesTo(scan, k, sym, address) && offset + 4 <= |scan.bytes|
    ensures var value := (address + addend) % 0x1_0000_0000_0000_0000;
            var upper, rd := UpperPart(value), TargetRegister(scan.bytes, offset);
            LuiVerdict(scan, k + 1, offset, sym, addend)
            == if upper % 0x10_0000 == 0 then Relaxed(CutLui)
               else if rd == 0 || rd == 2 then Ineligible
               else if upper <= 31 then Relaxed(ShrinkLui)
               else Unrelaxed((upper - 31) * 4096)
  {
    hide RdOf, LuiWord, TargetRegister, Hi20Of, UpperPart, WrapU64, Hi20FitsClui, Hi20IsZero, LuiMargin;
    RegisterBits(scan.bytes, offset);
    WrapIs(address + addend);
    UpperPartIs(WrapU64(address + addend));
  }

  lemma {:induction false} WrapIs(x: int)
    ensures WrapU64(x) == x % 0x1_0000_0000_0000_0000
  {
  }

  lemma {:induction false} UpperPartIs(value: nat)
    ensures Hi20IsZero(value) <==> UpperPart(value) % 0x10_0000 == 0
    ensures Hi20FitsClui(value) <==> 1 <= UpperPart(value) <= 31
    ensures UpperPart(value) > 31 ==> LuiMargin(value) == (UpperPart(value) - 31) * 4096
  {
    SixBitsOf(value);
    assert Hi20Of(value) == UpperPart(value);
    hide Hi20Of, UpperPart, Hi20FitsClui;
  }

  lemma {:induction false} SixBitsOf(value: nat)
    ensures Hi20FitsClui(value) <==> 1 <= UpperPart(value) <= 31
  {
  }

  lemma {:induction false} LuiOutcomeMeans(scan: Scan, cuts: seq<Cut>, k: nat) returns (value: nat)
    requires k < |scan.rels| && scan.rels[k].rawType == Hi20 && OutcomeOf(scan, cuts, k) != Ineligible
    ensures LuiCandidate(scan, cuts, k, value)
  {
    var offset := scan.rels[k].offset;
    UntouchedIs(cuts, offset);
    UntouchedIs(cuts, offset + 2);
    hide HasCutAt, RdOf, LuiWord, Hi20IsZero, Hi20FitsClui, LuiMargin;
    var sym := scan.rels[k].symbol.value;
    var address := scan.resolve(k + 1, sym).value.outputAddress;
    value := (address + scan.rels[k].addend) % 0x1_0000_0000_0000_0000;
    assert Paired(scan.rels, k, sym) && ResolvesTo(scan, k, sym, address);
  }

  lemma {:induction false} LuiDecision(scan: Scan, cuts: seq<Cut>, k: nat, removed: nat, decision: Decision)
    requires k < |scan.rels| && (decision == CutLui || decision == ShrinkLui)
    ensures Decide(scan, cuts, k, removed) == decision <==>
            scan.rels[k].rawType == Hi20 && OutcomeOf(scan, cuts, k) == Relaxed(decision)
  {
    hide SledExcess, PositionOf, HasCutAt, CallVerdict, LuiVerdict;
  }

  /** A `lui` goes altogether if and only if it is a candidate with zero upper part, and loses half of it
      if and only if it is a candidate with upper part 1 to 31 whose register is neither x0 nor x2. */
  lemma {:induction false} LuisCutExactly(scan: Scan, cuts: seq<Cut>, k: nat, removed: nat)
    requires k < |scan.rels|
    ensures Decide(scan, cuts, k, removed) == CutLui <==>
            exists value :: LuiCandidate(scan, cuts, k, value) && UpperPart(value) % 0x10_0000 == 0
    ensures Decide(scan, cuts, k, removed) == ShrinkLui <==>
            exists value :: LuiCandidate(scan, cuts, k, value) && 1 <= UpperPart(value) <= 31
                            && TargetRegister(scan.bytes, scan.rels[k].offset) !in {0, 2}
  {
    hide LuiCandidate, OutcomeOf, UpperPart, TargetRegister, Decide;
    LuiDecision(scan, cuts, k, removed, CutLui);
    LuiDecision(scan, cuts, k, removed, ShrinkLui);
    forall value | LuiCandidate(scan, cuts, k, value)
      ensures scan.rels[k].rawType == Hi20 && scan.rels[k].offset + 4 <= |scan.bytes|
      ensures var upper, rd := UpperPart(value), TargetRegister(scan.bytes, scan.rels[k].offset);
              OutcomeOf(scan, cuts, k)
              == if upper % 0x10_0000 == 0 then Relaxed(CutLui)
                 else if rd == 0 || rd == 2 then Ineligible
                 else if upper <= 31 then Relaxed(ShrinkLui)
                 else Unrelaxed((upper - 31) * 4096)
    {
      CandidateIsHi20(scan, cuts, k, value);
      LuiOutcomeIs(scan, cuts, k, value);
    }
    if scan.rels[k].rawType == Hi20 && OutcomeOf(scan, cuts, k) != Ineligible {
      var value := LuiOutcomeMeans(scan, cuts, k);
    }
  }

  lemma {:induction false} CandidateIsHi20(scan: Scan, cuts: seq<Cut>, k: nat, value: nat)
    requires LuiCandidate(scan, cuts, k, value)
    ensures scan.rels[k].rawType == Hi20 && scan.rels[k].offset + 4 <= |scan.bytes|
  {
  }

  /** A `lui` is left with a margin if and only if it is a candidate whose upper part is above 31 and not
      a multiple of 2^20 and whose register is neither x0 nor x2. */
  lemma {:induction false} LuiMarginsExactly(scan: Scan, cuts: seq<Cut>, k: nat, margin: int)
    requires k < |scan.rels| && scan.rels[k].rawType == Hi20
    ensures OutcomeOf(scan, cuts, k) == Unrelaxed(margin) <==>
            exists value :: LuiCandidate(scan, cuts, k, value) && UpperPart(value) > 31
                            && UpperPart(value) % 0x10_0000 != 0
                            && TargetRegister(scan.bytes, scan.rels[k].offset) !in {0, 2}
                            && margin == (UpperPart(value) - 31) * 4096
  {
    hide LuiCandidate, OutcomeOf, UpperPart, TargetRegister;
    forall value | LuiCandidate(scan, cuts, k, value)
      ensures scan.rels[k].offset + 4 <= |scan.bytes|
      ensures var upper, rd := UpperPart(value), TargetRegister(scan.bytes, scan.rels[k].offset);
              OutcomeOf(scan, cuts, k)
              == if upper % 0x10_0000 == 0 then Relaxed(CutLui)
                 else if rd == 0 || rd == 2 then Ineligible
                 else if upper <= 31 then Relaxed(ShrinkLui)
                 else Unrelaxed((upper - 31) * 4096)
    {
      CandidateIsHi20(scan, cuts, k, value);
      LuiOutcomeIs(scan, cuts, k, value);
    }
    if OutcomeOf(scan, cuts, k) != Ineligible {
      var value := LuiOutcomeMeans(scan, cuts, k);
    }
  }

  /** Nothing else is ever left with a margin. */
  lemma {:induction false} OnlyCallsAndLuisHaveMargins(scan: Scan, cuts: seq<Cut>, k: nat)
    requires k < |scan.rels| && OutcomeOf(scan, cuts, k) != Ineligible
    ensures scan.rels[k].rawType == Call || scan.rels[k].rawType == CallPlt || scan.rels[k].rawType == Hi20
  {
    hide CallOutcome, LuiOutcome;
  }

  /******* Sleds *******/

  /** From address `p` of the sled, `padding` bytes reach the next multiple of the least power of two not
      below the sled's length. */
  ghost predicate IsPadding(padding: nat, p: nat, length: nat, alignment: nat) {
    && IsPow2(alignment) && length <= alignment && (forall k: nat :: Pow2(k) >= length ==> alignment <= Pow2(k))
    && padding < alignment && (p + padding) % alignment == 0
  }

  ghost predicate NeedsPadding(padding: nat, p: nat, length: nat) {
    exists alignment: nat :: IsPadding(padding, p, length, alignment)
  }

  /** The address at which the sled stands by then, in 64 bits. */
  function StandsAt(scan: Scan, cuts: seq<Cut>, offset: nat, removed: nat): nat {
    (scan.sectionAddress + offset - DeletedBefore(cuts, offset) - removed) % 0x1_0000_0000_0000_0000
  }

  /** A sled is cut if and only if it has bytes, was not cut before, and is longer than the padding it
      needs at the place where it then stands; exactly that padding is kept. */
  lemma {:induction false} SledsCutExactly(scan: Scan, cuts: seq<Cut>, k: nat, removed: nat, bytes: nat)
    requires k < |scan.rels| && scan.rels[k].addend < 0x1_0000_0000
    ensures Decide(scan, cuts, k, removed) == CutSled(bytes) <==>
            && scan.rels[k].rawType == Align
            && 0 < bytes <= scan.rels[k].addend
            && Untouched(cuts, scan.rels[k].offset)
            && NeedsPadding(scan.rels[k].addend - bytes, StandsAt(scan, cuts, scan.rels[k].offset, removed),
                            scan.rels[k].addend)
  {
    var r := scan.rels[k];
    UntouchedIs(cuts, r.offset);
    var p := PositionOf(scan, cuts, r.offset, removed);
    assert p == StandsAt(scan, cuts, r.offset, removed);
    SledDecision(scan, cuts, k, removed, bytes);
    hide Decide, PositionOf, StandsAt, DeletedBefore, Untouched, HasCutAt, NeedsPadding, SledExcess;
    if r.addend > 0 {
      SledExcessIs(p, r.addend, bytes);
    }
  }

  lemma {:induction false} SledDecision(scan: Scan, cuts: seq<Cut>, k: nat, removed: nat, bytes: nat)
    requires k < |scan.rels|
    ensures Decide(scan, cuts, k, removed) == CutSled(bytes) <==>
            var r := scan.rels[k];
            && r.rawType == Align && r.addend > 0 && !HasCutAt(cuts, r.offset)
            && SledExcess(PositionOf(scan, cuts, r.offset, removed), r.addend) == Some(bytes)
  {
    hide SledExcess, PositionOf, HasCutAt, CallVerdict, LuiVerdict;
  }

  lemma {:induction false} SledExcessIs(p: nat, length: nat, bytes: nat)
    requires 0 < length < 0x1_0000_0000
    ensures SledExcess(p, length) == Some(bytes) <==>
            0 < bytes <= length && NeedsPadding(length - bytes, p, length)
  {
    var a := NextPowerOfTwo(length);
    NextPowerOfTwoIsLeast(length);
    NextMultipleOfIsLeast(p, a);
    var padding := NextMultipleOf(p, a) - p;
    hide NextPowerOfTwo, NextMultipleOf;
    assert SledExcess(p, length) == if length > padding then Some(length - padding) else None;
    assert IsPadding(padding, p, length, a);
    hide IsPadding, SledExcess;
    forall other: nat, alignment: nat | IsPadding(other, p, length, alignment) ensures other == padding {
      PaddingIsUnique(p, length, padding, a, other, alignment);
    }
  }

  lemma {:induction false} PaddingIsUnique(p: nat, length: nat, x: nat, a: nat, y: nat, b: nat)
    requires IsPadding(x, p, length, a) && IsPadding(y, p, length, b)
    ensures x == y
  {
    assert a == b;
    SameRemainder(p, x, y, a);
  }

  lemma {:induction false} SameRemainder(p: nat, x: nat, y: nat, a: nat)
    requires x < a && y < a && (p + x) % a == 0 && (p + y) % a == 0
    ensures x == y
  {
    var m, n := (p + x) / a, (p + y) / a;
    assert p + x == a * m && p + y == a * n;
    assert y - x == (n - m) * a by { assert a * (n - m) == a * n - a * m; }
    if m < n {
      MulAtLeast(n - m, a);
    } else if n < m {
      MulAtLeast(m - n, a);
    }
  }

  /******* The cuts of a pass *******/

  /** Everything a pass returns, and nothing else: four bytes at the second instruction of a call it
      relaxes, four or the upper two of a `lui`, and the surplus of a sled at its start. */
  lemma {:induction false} CutsExactly(scan: Scan, cuts: seq<Cut>, c: Cut)
    ensures c in Flatten(scan.rels, Decisions(scan, cuts, |scan.rels|)) <==>
            exists k, removed :: 0 <= k < |scan.rels| && removed == Removed(Decisions(scan, cuts, k))
              && CutOf(scan, cuts, k, removed, c)
  {
    hide Decide, Removed, CutOf;
    var rels, ds := scan.rels, Decisions(scan, cuts, |scan.rels|);
    FlattenMembers(rels, ds, c);
    forall k | 0 <= k < |rels|
      ensures ds[k] == Decide(scan, cuts, k, Removed(Decisions(scan, cuts, k)))
      ensures CutFor(rels[k], ds[k]) == [c] <==> CutOf(scan, cuts, k, Removed(Decisions(scan, cuts, k)), c)
    {
      DecisionAt(scan, cuts, k, |rels|);
      CutOfDecision(scan, cuts, k, Removed(Decisions(scan, cuts, k)), c);
    }
  }

  ghost predicate CutOf(scan: Scan, cuts: seq<Cut>, k: nat, removed: nat, c: Cut)
    requires k < |scan.rels|
  {
    || (Decide(scan, cuts, k, removed) == CutJalr && c == Cut(scan.rels[k].offset + 4, 4))
    || (Decide(scan, cuts, k, removed) == CutLui && c == Cut(scan.rels[k].offset, 4))
    || (Decide(scan, cuts, k, removed) == ShrinkLui && c == Cut(scan.rels[k].offset + 2, 2))
    || (Decide(scan, cuts, k, removed) == CutSled(c.bytes) && c.offset == scan.rels[k].offset)
  }

  lemma {:induction false} CutOfDecision(scan: Scan, cuts: seq<Cut>, k: nat, removed: nat, c: Cut)
    requires k < |scan.rels|
    ensures CutFor(scan.rels[k], Decide(scan, cuts, k, removed)) == [c] <==> CutOf(scan, cuts, k, removed, c)
  {
    hide Decide;
  }
}
