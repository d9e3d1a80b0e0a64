/** PLT entries and branch thunks: the bytes written, and where executing them goes. Everything is a
    64-bit machine word, so every sum and difference wraps. */
module Materialise {
  import opened Wrappers

  function PageOf(address: bv64): bv64 {
    address & !0xFFF
  }

  /******* Bytes and words *******/

  /** The little-endian 32-bit word made of four bytes. */
  function Word(b0: bv8, b1: bv8, b2: bv8, b3: bv8): bv32 {
    (b0 as bv32) | ((b1 as bv32) << 8) | ((b2 as bv32) << 16) | ((b3 as bv32) << 24)
  }

  function WordAt(code: seq<bv8>, at: nat): bv32
    requires at + 4 <= |code|
  {
    Word(code[at], code[at + 1], code[at + 2], code[at + 3])
  }

  /** `to_le_bytes`. */
  function LeBytes(w: bv32): (r: seq<bv8>)
    ensures |r| == 4
  {
    [(w & 0xFF) as bv8, ((w >> 8) & 0xFF) as bv8, ((w >> 16) & 0xFF) as bv8, ((w >> 24) & 0xFF) as bv8]
  }

  function Or8(a: bv8, b: bv8): bv8 {
    a | b
  }

  function And8(a: bv8, b: bv8): bv8 {
    a & b
  }

  function Or32(a: bv32, b: bv32): bv32 {
    a | b
  }

  function And32(a: bv32, b: bv32): bv32 {
    a & b
  }

  lemma {:induction false} WordOr(a0: bv8, a1: bv8, a2: bv8, a3: bv8, mask: bv32)
    ensures var m := LeBytes(mask);
            Word(Or8(a0, m[0]), Or8(a1, m[1]), Or8(a2, m[2]), Or8(a3, m[3])) == Or32(Word(a0, a1, a2, a3), mask)
  {
  }

  lemma {:induction false} WordAnd(a0: bv8, a1: bv8, a2: bv8, a3: bv8, mask: bv32)
    ensures var m := LeBytes(mask);
            Word(And8(a0, m[0]), And8(a1, m[1]), And8(a2, m[2]), And8(a3, m[3])) == And32(Word(a0, a1, a2, a3), mask)
  {
  }

  /** Only the word at `at` differs. */
  ghost predicate SameElsewhere(before: seq<bv8>, after: seq<bv8>, at: nat) {
    && |after| == |before|
    && forall i :: 0 <= i < |after| && !(at <= i < at + 4) ==> after[i] == before[i]
  }

  lemma {:induction false} SameWordElsewhere(before: seq<bv8>, after: seq<bv8>, at: nat, k: nat)
    requires SameElsewhere(before, after, at) && k + 4 <= |before| && (k + 4 <= at || at + 4 <= k)
    ensures WordAt(after, k) == WordAt(before, k)
  {
    hide Word;
  }

  /** `or_from_slice` with the little-endian bytes of `mask`: the word at `at` is ORed with it. */
  method OrFromSlice(code: array<bv8>, at: nat, mask: bv32)
    requires at + 4 <= code.Length
    modifies code
    ensures SameElsewhere(old(code[..]), code[..], at)
    ensures WordAt(code[..], at) == Or32(WordAt(old(code[..]), at), mask)
  {
    hide Word, LeBytes, Or8, And8, Or32, And32;
    var bytes := LeBytes(mask);
    ghost var before := code[..];
    for i := 0 to 4
      invariant forall k :: 0 <= k < code.Length ==>
                  code[k] == if at <= k < at + i then Or8(before[k], bytes[k - at]) else before[k]
    {
      code[at + i] := Or8(code[at + i], bytes[i]);
    }
    WordOr(before[at], before[at + 1], before[at + 2], before[at + 3], mask);
  }

  method AndFromSlice(code: array<bv8>, at: nat, mask: bv32)
    requires at + 4 <= code.Length
    modifies code
    ensures SameElsewhere(old(code[..]), code[..], at)
    ensures WordAt(code[..], at) == And32(WordAt(old(code[..]), at), mask)
  {
    hide Word, LeBytes, Or8, And8, Or32, And32;
    var bytes := LeBytes(mask);
    ghost var before := code[..];
    for i := 0 to 4
      invariant forall k :: 0 <= k < code.Length ==>
                  code[k] == if at <= k < at + i then And8(before[k], bytes[k - at]) else before[k]
    {
      code[at + i] := And8(code[at + i], bytes[i]);
    }
    WordAnd(before[at], before[at + 1], before[at + 2], before[at + 3], mask);
  }

  /** `copy_from_slice(template)`. */
  method CopyTemplate(code: array<bv8>, template: seq<bv8>)
    requires code.Length == |template|
    modifies code
    ensures code[..] == template
  {
    forall i | 0 <= i < code.Length {
      code[i] := template[i];
    }
  }

  /** The low 20, 21 or 12 bits, sign-extended to 64. */
  function Extend20(x: bv64): bv64 {
    if x & 0x8_0000 == 0 then x & 0xF_FFFF else x | !(0xF_FFFF)
  }

  function Extend21(x: bv64): bv64 {
    if x & 0x10_0000 == 0 then x & 0x1F_FFFF else x | !(0x1F_FFFF)
  }

  function Extend12(x: bv64): bv64 {
    if x & 0x800 == 0 then x & 0xFFF else x | !(0xFFF)
  }

  /******* Pages *******/

  // The lemmas that combine facts treat the two operations as symbols and use only the laws below.

  function Add(a: bv64, b: bv64): bv64 {
    a + b
  }

  function Sub(a: bv64, b: bv64): bv64 {
    a - b
  }

  lemma {:induction false} AddIs(a: bv64, b: bv64)
    ensures Add(a, b) == a + b
  {
  }

  lemma {:induction false} SubIs(a: bv64, b: bv64)
    ensures Sub(a, b) == a - b
  {
  }

  lemma {:induction false} SubAfterAdd(a: bv64, b: bv64)
    ensures Sub(a + b, a) == b
  {
  }

  lemma {:induction false} AddAfterSub(a: bv64, b: bv64)
    ensures Add(a, b - a) == b
  {
  }

  lemma {:induction false} SumOfThree(a: bv64, b: bv64, c: bv64)
    ensures Add(a + b, c) == Add(a, b + c)
  {
  }

  lemma {:induction false} AddComm(a: bv64, b: bv64)
    ensures Add(a, b) == Add(b, a)
  {
  }

  lemma {:induction false} AddAssoc(a: bv64, b: bv64, c: bv64)
    ensures Add(Add(a, b), c) == Add(a, Add(b, c))
  {
    hide Add;
    AddIs(a, b);
    AddIs(b, c);
    SumOfThree(a, b, c);
  }

  /** Adding and subtracting undo each other, wrap-around included. */
  lemma {:induction false} AddInverse(a: bv64, b: bv64, c: bv64)
    ensures Add(a, b) == c <==> b == Sub(c, a)
    ensures Add(a, Sub(c, a)) == c
  {
    hide Add, Sub;
    AddIs(a, b);
    SubAfterAdd(a, b);
    SubIs(c, a);
    AddAfterSub(a, c);
  }

  lemma {:induction false} AddSwap(a: bv64, b: bv64, c: bv64)
    ensures Add(Add(a, b), c) == Add(Add(a, c), b)
  {
    hide Add;
    AddAssoc(a, b, c);
    AddAssoc(a, c, b);
    AddComm(b, c);
  }

  lemma {:induction false} AddInjective(a: bv64, b: bv64, c: bv64)
    ensures Add(a, c) == Add(b, c) <==> a == b
  {
    hide Add, Sub;
    AddComm(a, c);
    AddComm(b, c);
    AddInverse(c, a, Add(c, a));
    AddInverse(c, b, Add(c, b));
  }

  function LowOf(address: bv64): bv64 {
    address & 0xFFF
  }

  predicate Aligned(x: bv64) {
    x & 0xFFF == 0
  }

  /** A position inside a page. */
  predicate IsLow(x: bv64) {
    x & !0xFFF == 0
  }

  /** An address is its page plus its offset in the page, and those two share no bits. */
  lemma {:induction false} SplitPage(p: bv64)
    ensures Aligned(PageOf(p)) && IsLow(LowOf(p))
    ensures p == Add(PageOf(p), LowOf(p))
  {
    assert p == PageOf(p) | LowOf(p);
    AddIsOr(PageOf(p), LowOf(p));
  }

  lemma {:induction false} AddIsOr(page: bv64, low: bv64)
    requires Aligned(page) && IsLow(low)
    ensures Add(page, low) == page | low
  {
  }

  lemma {:induction false} PageOfOr(page: bv64, low: bv64)
    requires Aligned(page) && IsLow(low)
    ensures PageOf(page | low) == page
  {
  }

  lemma {:induction false} PageOfSum(page: bv64, low: bv64)
    requires Aligned(page) && IsLow(low)
    ensures PageOf(Add(page, low)) == page
  {
    hide PageOf, Add, Aligned, IsLow;
    AddIsOr(page, low);
    PageOfOr(page, low);
  }

  lemma {:induction false} AlignedSum(x: bv64, y: bv64)
    requires Aligned(x) && Aligned(y)
    ensures Aligned(Add(x, y)) && Aligned(Sub(x, y))
  {
  }

  /** Adding whole pages moves the page and nothing else. */
  lemma {:induction false} PagePlus(p: bv64, d: bv64)
    requires Aligned(d)
    ensures PageOf(Add(p, d)) == Add(PageOf(p), d)
  {
    hide PageOf, Add, Sub, Aligned, IsLow, LowOf;
    SplitPage(p);
    AlignedSum(PageOf(p), d);
    AddSwap(PageOf(p), LowOf(p), d);
    PageOfSum(Add(PageOf(p), d), LowOf(p));
  }

  lemma {:induction false} HalfUp(low: bv64)
    requires IsLow(low)
    ensures low & 0x800 == 0 ==> IsLow(Add(low, 0x800))
    ensures low & 0x800 != 0 ==> IsLow(Sub(low, 0x800))
  {
  }

  lemma {:induction false} HalfLow(low: bv64)
    ensures Add(0x1000, Sub(low, 0x800)) == Add(low, 0x800)
    ensures Add(0x1000, Sub(low, 0x1000)) == low
  {
  }

  /** How rounding up by half a page moves an address, by the top bit of its offset. */
  lemma {:induction false} HalfPageUp(page: bv64, low: bv64)
    ensures Add(Add(page, low), 0x800) == Add(page, Add(low, 0x800))
    ensures Add(Add(page, low), 0x800) == Add(Add(page, 0x1000), Sub(low, 0x800))
    ensures Add(Add(page, 0x1000), Sub(low, 0x1000)) == Add(page, low)
  {
    hide Add, Sub;
    HalfLow(low);
    AddAssoc(page, low, 0x800);
    AddAssoc(page, 0x1000, Sub(low, 0x800));
    AddAssoc(page, 0x1000, Sub(low, 0x1000));
  }

  lemma {:induction false} SignOfLow(g: bv64)
    ensures LowOf(g) & 0x800 == 0 ==> Extend12(g) == LowOf(g)
    ensures LowOf(g) & 0x800 != 0 ==> Extend12(g) == Sub(LowOf(g), 0x1000)
  {
  }

  /** Rounding to the nearest page and adding the sign-extended low part gives the address back. */
  lemma {:induction false} NearestPage(g: bv64)
    ensures Add(PageOf(Add(g, 0x800)), Extend12(g)) == g
  {
    hide PageOf, Add, Sub, Aligned, IsLow, LowOf, Extend12;
    SplitPage(g);
    var page, low := PageOf(g), LowOf(g);
    HalfUp(low);
    HalfPageUp(page, low);
    SignOfLow(g);
    if low & 0x800 == 0 {
      PageOfSum(page, Add(low, 0x800));
    } else {
      OnePageAligned();
      AlignedSum(page, 0x1000);
      PageOfSum(Add(page, 0x1000), Sub(low, 0x800));
    }
  }

  lemma {:induction false} OnePageAligned()
    ensures Aligned(0x1000)
  {
  }

  lemma {:induction false} ShiftAligned(x: bv64)
    ensures Aligned(x << 12)
  {
  }

  /******* LoongArch *******/

  const LOONGARCH_PLT: seq<bv8> := [
    0x0F, 0x00, 0x00, 0x1A,  // pcalau12i $t3, hi20
    0xEF, 0x01, 0xC0, 0x28,  // ld.d $t3, $t3, lo12
    0xED, 0x01, 0x00, 0x4C,  // jirl $t1, $t3, 0
    0x00, 0x00, 0x2A, 0x00]  // break

  /** The distance in bytes between the pages the first instruction has to bridge. */
  function LoongArchDistance(got: bv64, plt: bv64): bv64 {
    Sub(PageOf(Add(got, 0x800)), PageOf(plt))
  }

  /** The immediate of the first instruction, in place. */
  function PcalaHi20(d: bv64): bv32 {
    (((d >> 12) << 5) & 0xFFFF_FFFF) as bv32
  }

  /** The immediate of the second. */
  function PcalaLo12(got: bv64): bv32 {
    ((got & 0xFFF) << 10) as bv32
  }

  function LoongArchHiWord(d: bv64): bv32 {
    Or32(0x1A00_000F, PcalaHi20(d))
  }

  function LoongArchLoWord(got: bv64): bv32 {
    Or32(0x28C0_01EF, PcalaLo12(got))
  }

  lemma {:induction false} LoongArchTemplate()
    ensures WordAt(LOONGARCH_PLT, 0) == 0x1A00_000F && WordAt(LOONGARCH_PLT, 4) == 0x28C0_01EF
    ensures WordAt(LOONGARCH_PLT, 8) == 0x4C00_01ED && WordAt(LOONGARCH_PLT, 12) == 0x002A_0000
  {
  }

  method WriteLoongArchPltEntry(entry: array<bv8>, got: bv64, plt: bv64)
    requires entry.Length == 16
    modifies entry
    ensures WordAt(entry[..], 0) == LoongArchHiWord(LoongArchDistance(got, plt))
    ensures WordAt(entry[..], 4) == LoongArchLoWord(got)
    ensures WordAt(entry[..], 8) == 0x4C00_01ED && WordAt(entry[..], 12) == 0x002A_0000
    ensures LoongArchEnters(WordAt(entry[..], 0), WordAt(entry[..], 4), WordAt(entry[..], 8), plt) == Some(got)
            <==> LoongArchDistance(got, plt) < 0x8000_0000
  {
    LoongArchTemplate();
    hide Word, Or32, PcalaHi20, PcalaLo12, Sub, Add, PageOf, LoongArchEnters, LoongArchHiWord, LoongArchLoWord;
    CopyTemplate(entry, LOONGARCH_PLT);
    LoongArchWords(got, plt);
    OrFromSlice(entry, 0, PcalaHi20(Sub(PageOf(Add(got, 0x800)), PageOf(plt))));
    SameWordElsewhere(LOONGARCH_PLT, entry[..], 0, 4);
    SameWordElsewhere(LOONGARCH_PLT, entry[..], 0, 8);
    SameWordElsewhere(LOONGARCH_PLT, entry[..], 0, 12);
    ghost var first := entry[..];
    OrFromSlice(entry, 4, PcalaLo12(got));
    SameWordElsewhere(first, entry[..], 4, 0);
    SameWordElsewhere(first, entry[..], 4, 8);
    SameWordElsewhere(first, entry[..], 4, 12);
    LoongArchReachesGot(got, plt);
  }

  lemma {:induction false} LoongArchWords(got: bv64, plt: bv64)
    ensures LoongArchHiWord(LoongArchDistance(got, plt))
            == Or32(0x1A00_000F, PcalaHi20(Sub(PageOf(Add(got, 0x800)), PageOf(plt))))
    ensures LoongArchLoWord(got) == Or32(0x28C0_01EF, PcalaLo12(got))
  {
    hide Or32, PcalaHi20, PcalaLo12, Sub, Add, PageOf;
  }

  /** Where the two instructions load from: `pcalau12i rd, si20` puts the page of
      `pc + sext(si20 << 12)` in `rd`, `ld.d rd, rj, si12` loads from `rj + sext(si12)`. Nothing when
      the words do not decode to this pair over one register. */
  function LoongArchLoads(w0: bv32, w1: bv32, pc: bv64): Option<bv64> {
    if w0 >> 25 != 0x0D || w1 >> 22 != 0xA3 || w0 & 0x1F != (w1 >> 5) & 0x1F then None
    else
      var page := PageOf(Add(pc, Extend20((w0 as bv64) >> 5) << 12));
      Some(Add(page, Extend12((w1 as bv64) >> 10)))
  }

  /** `jirl rd, rj, 0` through the register that `ld.d` filled. */
  predicate LoongArchJumpsThrough(w1: bv32, w2: bv32) {
    w2 >> 26 == 0x13 && (w2 >> 10) & 0xFFFF == 0 && (w2 >> 5) & 0x1F == w1 & 0x1F
  }

  /** The slot whose contents the entry jumps to. */
  function LoongArchEnters(w0: bv32, w1: bv32, w2: bv32, pc: bv64): Option<bv64> {
    if LoongArchJumpsThrough(w1, w2) then LoongArchLoads(w0, w1, pc) else None
  }

  lemma {:induction false} LoongArchJump(got: bv64)
    ensures LoongArchJumpsThrough(LoongArchLoWord(got), 0x4C00_01ED)
  {
  }

  /** The entry jumps through exactly the GOT slot if and only if the page distance is below 2 GiB; the
      rounding by half a page makes up for the sign of the low part. */
  lemma {:induction false} LoongArchReachesGot(got: bv64, plt: bv64)
    ensures LoongArchEnters(LoongArchHiWord(LoongArchDistance(got, plt)), LoongArchLoWord(got), 0x4C00_01ED, plt)
            == Some(got)
            <==> LoongArchDistance(got, plt) < 0x8000_0000
  {
    hide LoongArchJumpsThrough, LoongArchLoads, LoongArchHiWord, LoongArchLoWord, LoongArchDistance;
    LoongArchJump(got);
    LoongArchLoadsGot(got, plt);
  }

  lemma {:induction false} LoongArchLoadsGot(got: bv64, plt: bv64)
    ensures LoongArchLoads(LoongArchHiWord(LoongArchDistance(got, plt)), LoongArchLoWord(got), plt) == Some(got)
            <==> LoongArchDistance(got, plt) < 0x8000_0000
  {
    hide PageOf, Extend12, Extend20, Add, Sub, Aligned, IsLow, LowOf, LoongArchHiWord, LoongArchLoWord, LoongArchLoads;
    var d := LoongArchDistance(got, plt);
    SplitPage(Add(got, 0x800));
    SplitPage(plt);
    AlignedSum(PageOf(Add(got, 0x800)), PageOf(plt));
    LoongArchHiField(d);
    LoongArchPair(d, got, plt);
    var e := LoongArchMeans(d);
    PagePlus(plt, e);
    NearestPage(got);
    AddInjective(Add(PageOf(plt), e), PageOf(Add(got, 0x800)), Extend12(got));
    AddInverse(PageOf(plt), e, PageOf(Add(got, 0x800)));
  }

  /** The byte distance the high word's field means to the processor. */
  function LoongArchMeans(d: bv64): (e: bv64)
    ensures Aligned(e)
  {
    var e := Extend20((LoongArchHiWord(d) as bv64) >> 5) << 12;
    ShiftAligned(Extend20((LoongArchHiWord(d) as bv64) >> 5));
    e
  }

  predicate LoongArchOpcodeKept(d: bv64) {
    LoongArchHiWord(d) >> 25 == 0x0D
  }

  lemma {:induction false} LoongArchPair(d: bv64, got: bv64, pc: bv64)
    ensures LoongArchLoads(LoongArchHiWord(d), LoongArchLoWord(got), pc)
            == if LoongArchOpcodeKept(d) then Some(Add(PageOf(Add(pc, LoongArchMeans(d))), Extend12(got))) else None
  {
    hide PageOf, Add;
    LoongArchLoField(got);
    LoongArchRegister(d);
    hide LoongArchHiWord, LoongArchLoWord, Extend12, Extend20;
  }

  lemma {:induction false} LoongArchRegister(d: bv64)
    ensures LoongArchHiWord(d) & 0x1F == 0xF
  {
  }

  lemma {:induction false} LoongArchLoField(got: bv64)
    ensures LoongArchLoWord(got) >> 22 == 0xA3 && (LoongArchLoWord(got) >> 5) & 0x1F == 0xF
    ensures Extend12((LoongArchLoWord(got) as bv64) >> 10) == Extend12(got)
  {
  }

  /** The high field holds the page distance exactly when that is below 2 GiB; beyond, either the
      opcode is spoilt or the sign-extended field means another distance. */
  lemma {:induction false} LoongArchHiField(d: bv64)
    requires Aligned(d)
    ensures LoongArchOpcodeKept(d) && LoongArchMeans(d) == d <==> d < 0x8000_0000
  {
  }

  /******* AArch64 *******/

  const AARCH64_PLT: seq<bv8> := [
    0x10, 0x00, 0x00, 0x90,  // adrp x16, page
    0x11, 0x02, 0x40, 0xF9,  // ldr x17, [x16, offset]
    0x20, 0x02, 0x1F, 0xD6,  // br x17
    0x1F, 0x20, 0x03, 0xD5]  // nop

  const AARCH64_THUNK: seq<bv8> := [
    0x10, 0x00, 0x00, 0x90,  // adrp x16, page
    0x10, 0x02, 0x00, 0x91,  // add x16, x16, offset
    0x00, 0x02, 0x1F, 0xD6]  // br x16

  lemma {:induction false} AArch64Templates()
    ensures WordAt(AARCH64_PLT, 0) == 0x9000_0010 && WordAt(AARCH64_PLT, 4) == 0xF940_0211
    ensures WordAt(AARCH64_PLT, 8) == 0xD61F_0220 && WordAt(AARCH64_PLT, 12) == 0xD503_201F
    ensures WordAt(AARCH64_THUNK, 0) == 0x9000_0010 && WordAt(AARCH64_THUNK, 4) == 0x9100_0210
    ensures WordAt(AARCH64_THUNK, 8) == 0xD61F_0200
  {
  }

  /** The `Adr` field: low two bits of the page count at bit 29, the others at bit 5. */
  function AdrField(pages: bv64): bv32 {
    ((((pages & 3) << 29) | (((pages >> 2) & 0x3FFF_FFFF) << 5)) & 0xFFFF_FFFF) as bv32
  }

  /** The `LdrRegister` field; the immediate counts in units of eight bytes. */
  function LdrField(offset: bv64): bv32 {
    ((((offset & 0xFFF) >> 3) << 10) & 0xFFFF_FFFF) as bv32
  }

  function AddField(target: bv64): bv32 {
    ((target & 0xFFF) << 10) as bv32
  }

  /** A byte offset in whole pages. */
  function Pages(offset: bv64): bv64 {
    offset >> 12
  }

  method WriteAArch64PltEntry(entry: array<bv8>, got: bv64, plt: bv64) returns (r: Result<(), string>)
    requires entry.Length == 16
    modifies entry
    ensures r.Ok? <==> Sub(got, PageOf(plt)) < 0x1_0000_0000
    ensures r.Ok? ==>
              var offset := Sub(got, PageOf(plt));
              && WordAt(entry[..], 0) == Or32(0x9000_0010, AdrField(Pages(offset)))
              && WordAt(entry[..], 4) == Or32(0xF940_0211, LdrField(offset))
              && WordAt(entry[..], 8) == 0xD61F_0220 && WordAt(entry[..], 12) == 0xD503_201F
    ensures r.Ok? ==>
              AArch64Enters(WordAt(entry[..], 0), WordAt(entry[..], 4), WordAt(entry[..], 8), plt) == Some(Down8(got))
  {
    AArch64Templates();
    hide Word, Or32, AdrField, LdrField, Sub, PageOf, Pages, AArch64Enters, Down8;
    CopyTemplate(entry, AARCH64_PLT);
    var offset := Sub(got, PageOf(plt));
    if !(offset < 0x1_0000_0000) {
      return Err("PLT is more than 4GiB away from GOT");
    }
    OrFromSlice(entry, 0, AdrField(Pages(offset)));
    SameWordElsewhere(AARCH64_PLT, entry[..], 0, 4);
    SameWordElsewhere(AARCH64_PLT, entry[..], 0, 8);
    SameWordElsewhere(AARCH64_PLT, entry[..], 0, 12);
    ghost var first := entry[..];
    OrFromSlice(entry, 4, LdrField(offset));
    SameWordElsewhere(first, entry[..], 4, 0);
    SameWordElsewhere(first, entry[..], 4, 8);
    SameWordElsewhere(first, entry[..], 4, 12);
    AArch64ReachesGot(got, plt);
    return Ok(());
  }

  /** `adrp x16, …` */
  predicate IsAdrp(w: bv32) {
    w & 0x9F00_001F == 0x9000_0010
  }

  /** The page count in an `adrp` word. */
  function AdrpPages(w: bv32): bv64 {
    ((w as bv64 >> 3) & 0x1F_FFFC) | ((w as bv64 >> 29) & 3)
  }

  /** The byte distance a signed 21-bit page count means. */
  function SignedDistance(pages: bv64): bv64 {
    Extend21(pages) << 12
  }

  /** The byte distance it means: its signed 21-bit page count. */
  function AdrpMeans(w: bv32): bv64 {
    SignedDistance(AdrpPages(w))
  }

  /** What `adrp x16` leaves in the register. */
  function AdrpResult(w: bv32, pc: bv64): Option<bv64> {
    if IsAdrp(w) then Some(Add(PageOf(pc), AdrpMeans(w))) else None
  }

  /** `ldr x17, [x16, …]` */
  predicate IsLdr(w: bv32) {
    w & 0xFFC0_03FF == 0xF940_0211
  }

  function LdrMeans(w: bv32): bv64 {
    ((w as bv64 >> 10) & 0xFFF) << 3
  }

  /** Where `adrp x16` and `ldr x17, [x16, imm]` load from. */
  function AArch64Loads(w0: bv32, w1: bv32, pc: bv64): Option<bv64> {
    match AdrpResult(w0, pc)
    case Some(x16) => if IsLdr(w1) then Some(Add(x16, LdrMeans(w1))) else None
    case None => None
  }

  /** The register `br` jumps to. */
  function BranchRegister(w: bv32): Option<bv32> {
    if w & 0xFFFF_FC1F == 0xD61F_0000 then Some((w >> 5) & 0x1F) else None
  }

  /** The slot whose contents the entry jumps to: `br x17` once `ldr` has filled x17. */
  function AArch64Enters(w0: bv32, w1: bv32, w2: bv32, pc: bv64): Option<bv64> {
    if BranchRegister(w2) == Some(17) then AArch64Loads(w0, w1, pc) else None
  }

  lemma {:induction false} Branches()
    ensures BranchRegister(0xD61F_0220) == Some(17) && BranchRegister(0xD61F_0200) == Some(16)
  {
  }

  function Down8(x: bv64): bv64 {
    x & !7
  }

  /** Whenever the writer accepts the distance, the entry jumps through the GOT slot rounded down to
      eight bytes: exactly the slot if and only if it is eight-byte aligned. */
  lemma {:induction false} AArch64ReachesGot(got: bv64, plt: bv64)
    requires Sub(got, PageOf(plt)) < 0x1_0000_0000
    ensures var offset := Sub(got, PageOf(plt));
            AArch64Enters(Or32(0x9000_0010, AdrField(Pages(offset))), Or32(0xF940_0211, LdrField(offset)), 0xD61F_0220,
                          plt)
            == Some(Down8(got))
    ensures Down8(got) == got <==> got & 7 == 0
  {
    hide PageOf, Sub, Or32, AdrField, LdrField, Pages, AArch64Loads, BranchRegister;
    Branches();
    AArch64LoadsGot(got, plt);
  }

  lemma {:induction false} AArch64LoadsGot(got: bv64, plt: bv64)
    requires Sub(got, PageOf(plt)) < 0x1_0000_0000
    ensures var offset := Sub(got, PageOf(plt));
            AArch64Loads(Or32(0x9000_0010, AdrField(Pages(offset))), Or32(0xF940_0211, LdrField(offset)), plt)
            == Some(Down8(got))
    ensures Down8(got) == got <==> got & 7 == 0
  {
    var offset := Sub(got, PageOf(plt));
    hide PageOf, Add, Sub, Or32, AdrField, LdrField, AdrpMeans, LdrMeans, Pages, IsAdrp, IsLdr, LowOf, Aligned, IsLow;
    AdrWordMeans(offset);
    LdrWordMeans(offset);
    SlotOf(got, plt);
  }

  /** Rounding the slot down to eight bytes, seen from the page the `adrp` starts at. */
  lemma {:induction false} SlotOf(got: bv64, plt: bv64)
    ensures var offset := Sub(got, PageOf(plt));
            Add(Add(PageOf(plt), PageOf(offset)), Down8(LowOf(offset))) == Down8(got)
  {
    hide PageOf, Add, Sub, LowOf, Aligned, IsLow, Down8;
    var page, offset := PageOf(plt), Sub(got, PageOf(plt));
    SplitPage(plt);
    SplitPage(offset);
    AddInverse(page, offset, got);
    AlignedSum(page, PageOf(offset));
    AddAssoc(page, PageOf(offset), LowOf(offset));
    RoundDown8(Add(page, PageOf(offset)), LowOf(offset));
  }

  lemma {:induction false} RoundDown8(page: bv64, low: bv64)
    requires Aligned(page) && IsLow(low)
    ensures Add(page, Down8(low)) == Down8(Add(page, low))
  {
    LowDown8(low);
    AddIsOr(page, low);
    AddIsOr(page, Down8(low));
    Down8Or(page, low);
    hide Add, Down8;
  }

  lemma {:induction false} LowDown8(low: bv64)
    requires low & !0xFFF == 0
    ensures Down8(low) & !0xFFF == 0
  {
  }

  lemma {:induction false} Down8Or(page: bv64, low: bv64)
    requires page & 0xFFF == 0
    ensures Down8(page | low) == page | Down8(low)
  {
  }

  function Keep21(x: bv64): bv64 {
    x & 0x1F_FFFF
  }

  lemma {:induction false} AdrFieldBits(pages: bv64)
    ensures IsAdrp(Or32(0x9000_0010, AdrField(Keep21(pages))))
    ensures AdrpPages(Or32(0x9000_0010, AdrField(Keep21(pages)))) == Keep21(pages)
  {
  }

  lemma {:induction false} ExtendLow21(x: bv64)
    ensures Extend21(x & 0x1F_FFFF) == Extend21(x)
  {
  }

  lemma {:induction false} Keep21Is(x: bv64)
    ensures Keep21(x) == x & 0x1F_FFFF
  {
  }

  lemma {:induction false} ExtendKeep21(x: bv64)
    ensures Extend21(Keep21(x)) == Extend21(x)
  {
    hide Extend21, Keep21;
    Keep21Is(x);
    ExtendLow21(x);
  }

  lemma {:induction false} AdrFieldMeans(pages: bv64)
    ensures IsAdrp(Or32(0x9000_0010, AdrField(Keep21(pages))))
    ensures AdrpMeans(Or32(0x9000_0010, AdrField(Keep21(pages)))) == SignedDistance(pages)
  {
    hide Extend21, Keep21, Or32, AdrField, AdrpPages, IsAdrp;
    AdrFieldBits(pages);
    ExtendKeep21(pages);
  }

  lemma {:induction false} PagesIs(x: bv64)
    ensures Pages(x) == x >> 12
  {
  }

  lemma {:induction false} ShortPages(x: bv64)
    requires x < 0x1_0000_0000
    ensures (x >> 12) & 0x1F_FFFF == x >> 12
  {
  }

  lemma {:induction false} ShortDistance(x: bv64)
    requires x < 0x1_0000_0000
    ensures Extend21(x >> 12) << 12 == x & !0xFFF
  {
  }

  lemma {:induction false} PagesFit(offset: bv64)
    requires offset < 0x1_0000_0000
    ensures Keep21(Pages(offset)) == Pages(offset)
  {
    hide Pages, Keep21;
    PagesIs(offset);
    Keep21Is(offset >> 12);
    ShortPages(offset);
  }

  lemma {:induction false} PagesMean(offset: bv64)
    requires offset < 0x1_0000_0000
    ensures SignedDistance(Pages(offset)) == PageOf(offset)
  {
    hide Extend21, Pages;
    PagesIs(offset);
    ShortDistance(offset);
  }

  lemma {:induction false} AdrWordMeans(offset: bv64)
    requires offset < 0x1_0000_0000
    ensures IsAdrp(Or32(0x9000_0010, AdrField(Pages(offset))))
    ensures AdrpMeans(Or32(0x9000_0010, AdrField(Pages(offset)))) == PageOf(offset)
  {
    hide SignedDistance, Keep21, Or32, AdrField, AdrpMeans, IsAdrp, Pages, PageOf;
    PagesFit(offset);
    PagesMean(offset);
    AdrFieldMeans(Pages(offset));
  }

  lemma {:induction false} LdrWordMeans(offset: bv64)
    ensures IsLdr(Or32(0xF940_0211, LdrField(offset)))
    ensures LdrMeans(Or32(0xF940_0211, LdrField(offset))) == Down8(LowOf(offset))
  {
  }

  /** The distance in bytes between two addresses' pages, as a signed word. */
  function PageDistance(target: bv64, thunk: bv64): bv64 {
    Sub(PageOf(target), PageOf(thunk))
  }

  /** `(page_diff / 4096) as u64 & 0x1FFFFF`, the division being signed and truncating. */
  function PageCount(diff: bv64): bv64 {
    (if diff & 0x8000_0000_0000_0000 == 0 then diff >> 12 else 0 - ((0 - diff) >> 12)) & 0x1F_FFFF
  }

  method WriteThunk(thunk: bv64, target: bv64, buf: array<bv8>)
    requires buf.Length == 12
    modifies buf
    ensures WordAt(buf[..], 0) == Or32(0x9000_0010, AdrField(PageCount(PageDistance(target, thunk))))
    ensures WordAt(buf[..], 4) == Or32(0x9100_0210, AddField(target))
    ensures WordAt(buf[..], 8) == 0xD61F_0200
    ensures ThunkJumps(WordAt(buf[..], 0), WordAt(buf[..], 4), WordAt(buf[..], 8), thunk) == Some(target)
            <==> WithinAdrp(PageDistance(target, thunk))
  {
    AArch64Templates();
    hide Word, Or32, AdrField, AddField, PageCount, PageDistance, ThunkJumps, WithinAdrp;
    CopyTemplate(buf, AARCH64_THUNK);
    OrFromSlice(buf, 0, AdrField(PageCount(PageDistance(target, thunk))));
    SameWordElsewhere(AARCH64_THUNK, buf[..], 0, 4);
    SameWordElsewhere(AARCH64_THUNK, buf[..], 0, 8);
    ghost var first := buf[..];
    OrFromSlice(buf, 4, AddField(target));
    SameWordElsewhere(first, buf[..], 4, 0);
    SameWordElsewhere(first, buf[..], 4, 8);
    ThunkReachesTarget(target, thunk);
  }

  /** `add x16, x16, …` */
  predicate IsAdd(w: bv32) {
    w & 0xFFC0_03FF == 0x9100_0210
  }

  function AddMeans(w: bv32): bv64 {
    (w as bv64 >> 10) & 0xFFF
  }

  /** Where a branch goes after `adrp x16` and `add x16, x16, imm`: nowhere known unless it is through
      x16. */
  function ThunkJumps(w0: bv32, w1: bv32, w2: bv32, pc: bv64): Option<bv64> {
    match AdrpResult(w0, pc)
    case Some(x16) => if IsAdd(w1) && BranchRegister(w2) == Some(16) then Some(Add(x16, AddMeans(w1))) else None
    case None => None
  }

  /** The signed page distance lies in [-2^20, 2^20). */
  predicate WithinAdrp(distance: bv64) {
    distance < 0x1_0000_0000 || distance >= 0xFFFF_FFFF_0000_0000
  }

  /** The thunk jumps to exactly its target if and only if the page distance fits. */
  lemma {:induction false} ThunkReachesTarget(target: bv64, thunk: bv64)
    ensures ThunkJumps(Or32(0x9000_0010, AdrField(PageCount(PageDistance(target, thunk)))),
                       Or32(0x9100_0210, AddField(target)), 0xD61F_0200, thunk) == Some(target)
            <==> WithinAdrp(PageDistance(target, thunk))
  {
    hide PageOf, Add, Sub, Or32, AdrField, AddField, IsAdrp, IsAdd, AdrpMeans, AddMeans, PageCount, LowOf, Aligned,
      IsLow, WithinAdrp, BranchRegister;
    Branches();
    var d := PageDistance(target, thunk);
    SplitPage(target);
    SplitPage(thunk);
    AlignedSum(PageOf(target), PageOf(thunk));
    AddWordMeans(target);
    ThunkField(d);
    var e := AdrpMeans(Or32(0x9000_0010, AdrField(PageCount(d))));
    AddInjective(Add(PageOf(thunk), e), PageOf(target), LowOf(target));
    AddInverse(PageOf(thunk), e, PageOf(target));
  }

  lemma {:induction false} AddWordMeans(target: bv64)
    ensures IsAdd(Or32(0x9100_0210, AddField(target)))
    ensures AddMeans(Or32(0x9100_0210, AddField(target))) == LowOf(target)
  {
  }

  /** The signed division of whole pages is exact, so the bits kept are bits of the distance. */
  lemma {:induction false} PageCountBits(d: bv64)
    requires d & 0xFFF == 0
    ensures PageCount(d) == Keep21(Pages(d))
  {
    hide PageCount, Keep21, Pages;
    if d & 0x8000_0000_0000_0000 != 0 {
      NegatedPages(d);
      PageCountDown(d);
    } else {
      PageCountUp(d);
      PagesIs(d);
      Keep21Is(d >> 12);
    }
  }

  lemma {:induction false} PageCountUp(d: bv64)
    requires d & 0x8000_0000_0000_0000 == 0
    ensures PageCount(d) == (d >> 12) & 0x1F_FFFF
  {
  }

  lemma {:induction false} PageCountDown(d: bv64)
    requires d & 0x8000_0000_0000_0000 != 0
    ensures PageCount(d) == Keep21(0 - Pages(0 - d))
  {
  }

  lemma {:induction false} NegatedPages(d: bv64)
    requires d & 0xFFF == 0
    ensures Keep21(0 - Pages(0 - d)) == Keep21(Pages(d))
  {
  }

  /** A signed 21-bit page count means the distance it was taken from when that fits, and only then. */
  lemma {:induction false} FitsAdrpForward(d: bv64)
    requires d & 0xFFF == 0 && d < 0x1_0000_0000
    ensures SignedDistance(Pages(d)) == d
  {
  }

  lemma {:induction false} FitsAdrpBackward(d: bv64)
    requires d & 0xFFF == 0 && d >= 0xFFFF_FFFF_0000_0000
    ensures SignedDistance(Pages(d)) == d
  {
  }

  lemma {:induction false} OnlyFitsAdrp(d: bv64)
    requires SignedDistance(Pages(d)) == d
    ensures d < 0x1_0000_0000 || d >= 0xFFFF_FFFF_0000_0000
  {
  }

  lemma {:induction false} ThunkField(d: bv64)
    requires Aligned(d)
    ensures IsAdrp(Or32(0x9000_0010, AdrField(PageCount(d))))
    ensures AdrpMeans(Or32(0x9000_0010, AdrField(PageCount(d)))) == d <==> WithinAdrp(d)
  {
    hide Or32, AdrField, IsAdrp, AdrpMeans, PageCount, Keep21, SignedDistance, Pages;
    PageCountBits(d);
    AdrFieldMeans(Pages(d));
    if d < 0x1_0000_0000 {
      FitsAdrpForward(d);
    } else if d >= 0xFFFF_FFFF_0000_0000 {
      FitsAdrpBackward(d);
    } else if SignedDistance(Pages(d)) == d {
      OnlyFitsAdrp(d);
    }
  }

  /******* RISC-V *******/

  const RISCV_PLT: seq<bv8> := [
    0x17, 0x0E, 0x00, 0x00,  // auipc t3, hi20
    0x03, 0x3E, 0x0E, 0x00,  // ld t3, lo12(t3)
    0x67, 0x03, 0x0E, 0x00,  // jalr t1, t3
    0x73, 0x00, 0x10, 0x00]  // ebreak

  lemma {:induction false} RiscVTemplate()
    ensures And32(WordAt(RISCV_PLT, 0), 0x0000_0FFF) == 0x0000_0E17
    ensures And32(WordAt(RISCV_PLT, 4), 0x000F_FFFF) == 0x000E_3E03
    ensures WordAt(RISCV_PLT, 8) == 0x000E_0367 && WordAt(RISCV_PLT, 12) == 0x0010_0073
  {
  }

  /** Bits 12 to 31 of the rounded value. */
  function UField(rounded: bv64): bv32 {
    (((rounded >> 12) & 0xF_FFFF) << 12) as bv32
  }

  function IField(value: bv64): bv32 {
    ((value << 20) & 0xFFFF_FFFF) as bv32
  }

  method WriteRiscVPltEntry(entry: array<bv8>, got: bv64, plt: bv64)
    requires entry.Length == 16
    modifies entry
    ensures WordAt(entry[..], 0) == Or32(0x0000_0E17, UField(Add(Sub(got, plt), 0x800)))
    ensures WordAt(entry[..], 4) == Or32(0x000E_3E03, IField(Sub(got, plt)))
    ensures WordAt(entry[..], 8) == 0x000E_0367 && WordAt(entry[..], 12) == 0x0010_0073
    ensures RiscVEnters(WordAt(entry[..], 0), WordAt(entry[..], 4), WordAt(entry[..], 8), plt) == Some(got)
            <==> Signed32(Add(Sub(got, plt), 0x800))
  {
    RiscVTemplate();
    hide Word, Or32, And32, UField, IField, Add, Sub, RiscVEnters, Signed32;
    CopyTemplate(entry, RISCV_PLT);
    var value := Sub(got, plt);
    AndFromSlice(entry, 0, 0x0000_0FFF);
    OnlyFirstWord(RISCV_PLT, entry[..]);
    ghost var first := entry[..];
    OrFromSlice(entry, 0, UField(Add(value, 0x800)));
    OnlyFirstWord(first, entry[..]);
    ghost var second := entry[..];
    AndFromSlice(entry, 4, 0x000F_FFFF);
    OnlySecondWord(second, entry[..]);
    ghost var third := entry[..];
    OrFromSlice(entry, 4, IField(value));
    OnlySecondWord(third, entry[..]);
    RiscVReachesGot(got, plt);
  }

  lemma {:induction false} OnlyFirstWord(before: seq<bv8>, after: seq<bv8>)
    requires |before| == 16 && SameElsewhere(before, after, 0)
    ensures WordAt(after, 4) == WordAt(before, 4) && WordAt(after, 8) == WordAt(before, 8)
    ensures WordAt(after, 12) == WordAt(before, 12)
  {
    hide Word;
    SameWordElsewhere(before, after, 0, 4);
    SameWordElsewhere(before, after, 0, 8);
    SameWordElsewhere(before, after, 0, 12);
  }

  lemma {:induction false} OnlySecondWord(before: seq<bv8>, after: seq<bv8>)
    requires |before| == 16 && SameElsewhere(before, after, 4)
    ensures WordAt(after, 0) == WordAt(before, 0) && WordAt(after, 8) == WordAt(before, 8)
    ensures WordAt(after, 12) == WordAt(before, 12)
  {
    hide Word;
    SameWordElsewhere(before, after, 4, 0);
    SameWordElsewhere(before, after, 4, 8);
    SameWordElsewhere(before, after, 4, 12);
  }

  /** `auipc t3, …` */
  predicate IsAuipc(w: bv32) {
    w & 0xFFF == 0xE17
  }

  /** `ld t3, …(t3)` */
  predicate IsLd(w: bv32) {
    w & 0xF_FFFF == 0xE_3E03
  }

  function AuipcBits(w: bv32): bv64 {
    w as bv64 >> 12
  }

  function AuipcMeans(w: bv32): bv64 {
    Shifted20(AuipcBits(w))
  }

  function LdMeans(w: bv32): bv64 {
    Extend12(w as bv64 >> 20)
  }

  /** Where `auipc t3` and `ld t3, imm(t3)` load from. */
  function RiscVLoads(w0: bv32, w1: bv32, pc: bv64): Option<bv64> {
    if IsAuipc(w0) && IsLd(w1) then Some(Add(Add(pc, AuipcMeans(w0)), LdMeans(w1))) else None
  }

  /** As a two's-complement word, a number in [-2^31, 2^31). */
  predicate Signed32(x: bv64) {
    x < 0x8000_0000 || x >= 0xFFFF_FFFF_8000_0000
  }

  /** `jalr rd, 0(rs)` through the register that `ld` filled. */
  predicate RiscVJumpsThrough(w1: bv32, w2: bv32) {
    w2 & 0x707F == 0x67 && w2 >> 20 == 0 && (w2 >> 15) & 0x1F == (w1 >> 7) & 0x1F
  }

  /** The slot whose contents the entry jumps to. */
  function RiscVEnters(w0: bv32, w1: bv32, w2: bv32, pc: bv64): Option<bv64> {
    if RiscVJumpsThrough(w1, w2) then RiscVLoads(w0, w1, pc) else None
  }

  lemma {:induction false} RiscVJump(value: bv64)
    ensures RiscVJumpsThrough(Or32(0x000E_3E03, IField(value)), 0x000E_0367)
  {
  }

  /** The entry jumps through exactly the GOT slot if and only if the distance, rounded by half a page,
      is a signed 32-bit number. */
  lemma {:induction false} RiscVReachesGot(got: bv64, plt: bv64)
    ensures var value := Sub(got, plt);
            RiscVEnters(
              Or32(0x0000_0E17, UField(Add(value, 0x800))), Or32(0x000E_3E03, IField(value)), 0x000E_0367, plt)
            == Some(got)
            <==> Signed32(Add(value, 0x800))
  {
    hide RiscVJumpsThrough, RiscVLoads, Or32, UField, IField, Add, Sub, Signed32;
    RiscVJump(Sub(got, plt));
    RiscVLoadsGot(got, plt);
  }

  lemma {:induction false} RiscVLoadsGot(got: bv64, plt: bv64)
    ensures var value := Sub(got, plt);
            RiscVLoads(Or32(0x0000_0E17, UField(Add(value, 0x800))), Or32(0x000E_3E03, IField(value)), plt) == Some(got)
            <==> Signed32(Add(value, 0x800))
  {
    hide Add, Sub, Or32, UField, IField, PageOf, Extend12, Extend20, AuipcMeans, LdMeans, UpperOf, Signed32, IsAuipc,
      IsLd;
    var value := Sub(got, plt);
    var upper, page := UpperOf(Add(value, 0x800)), PageOf(Add(value, 0x800));
    UFieldMeans(Add(value, 0x800));
    IFieldMeans(value);
    UpperIsPage(Add(value, 0x800));
    NearestPage(value);
    AddAssoc(plt, upper, Extend12(value));
    AddInverse(plt, Add(upper, Extend12(value)), got);
    AddInjective(upper, page, Extend12(value));
  }

  /** The low 20 bits, sign-extended and moved to the upper end of a word. */
  function Shifted20(x: bv64): bv64 {
    Extend20(x) << 12
  }

  /** Bits 12 to 31, sign-extended. */
  function UpperOf(x: bv64): bv64 {
    Shifted20(Pages(x))
  }

  function Keep20(x: bv64): bv64 {
    x & 0xF_FFFF
  }

  lemma {:induction false} Keep20Is(x: bv64)
    ensures Keep20(x) == x & 0xF_FFFF
  {
  }

  lemma {:induction false} UFieldOpcode(x: bv64)
    ensures IsAuipc(Or32(0x0000_0E17, UField(x)))
  {
  }

  lemma {:induction false} UFieldBits(x: bv64)
    ensures AuipcBits(Or32(0x0000_0E17, UField(x))) == (x >> 12) & 0xF_FFFF
  {
  }

  lemma {:induction false} ExtendLow20(x: bv64)
    ensures Extend20(x & 0xF_FFFF) == Extend20(x)
  {
  }

  lemma {:induction false} ExtendKeep20(x: bv64)
    ensures Extend20(Keep20(x)) == Extend20(x)
  {
    hide Extend20, Keep20;
    Keep20Is(x);
    ExtendLow20(x);
  }

  lemma {:induction false} ShiftedKeep20(x: bv64)
    ensures Shifted20(Keep20(x)) == Shifted20(x)
  {
    hide Extend20, Keep20;
    ExtendKeep20(x);
  }

  lemma {:induction false} UFieldKeeps(x: bv64)
    ensures AuipcBits(Or32(0x0000_0E17, UField(x))) == Keep20(Pages(x))
  {
    hide UField, Or32, AuipcBits, Pages, Keep20;
    UFieldBits(x);
    PagesIs(x);
    Keep20Is(x >> 12);
  }

  lemma {:induction false} UFieldMeans(x: bv64)
    ensures IsAuipc(Or32(0x0000_0E17, UField(x)))
    ensures AuipcMeans(Or32(0x0000_0E17, UField(x))) == UpperOf(x)
  {
    hide Shifted20, UField, Or32, AuipcBits, Pages, IsAuipc, Keep20;
    UFieldOpcode(x);
    UFieldKeeps(x);
    ShiftedKeep20(Pages(x));
  }

  lemma {:induction false} IFieldMeans(value: bv64)
    ensures IsLd(Or32(0x000E_3E03, IField(value)))
    ensures LdMeans(Or32(0x000E_3E03, IField(value))) == Extend12(value)
  {
  }

  lemma {:induction false} FitsAuipcForward(x: bv64)
    requires x < 0x8000_0000
    ensures Extend20(x >> 12) << 12 == x & !0xFFF
  {
  }

  lemma {:induction false} FitsAuipcBackward(x: bv64)
    requires x >= 0xFFFF_FFFF_8000_0000
    ensures Extend20(x >> 12) << 12 == x & !0xFFF
  {
  }

  lemma {:induction false} OnlyFitsAuipc(x: bv64)
    requires Extend20(x >> 12) << 12 == x & !0xFFF
    ensures x < 0x8000_0000 || x >= 0xFFFF_FFFF_8000_0000
  {
  }

  lemma {:induction false} UpperIsDefinition(x: bv64)
    ensures UpperOf(x) == Extend20(x >> 12) << 12 && PageOf(x) == x & !0xFFF
  {
    hide Extend20, Pages;
    PagesIs(x);
  }

  lemma {:induction false} UpperFits(x: bv64)
    requires x < 0x8000_0000 || x >= 0xFFFF_FFFF_8000_0000
    ensures UpperOf(x) == PageOf(x)
  {
    hide UpperOf, PageOf, Extend20;
    UpperIsDefinition(x);
    if x < 0x8000_0000 {
      FitsAuipcForward(x);
    } else {
      FitsAuipcBackward(x);
    }
  }

  lemma {:induction false} UpperOnlyFits(x: bv64)
    requires UpperOf(x) == PageOf(x)
    ensures x < 0x8000_0000 || x >= 0xFFFF_FFFF_8000_0000
  {
    hide UpperOf, PageOf, Extend20;
    UpperIsDefinition(x);
    OnlyFitsAuipc(x);
  }

  lemma {:induction false} UpperIsPage(x: bv64)
    ensures UpperOf(x) == PageOf(x) <==> Signed32(x)
  {
    hide UpperOf, PageOf;
    if Signed32(x) {
      UpperFits(x);
    } else if UpperOf(x) == PageOf(x) {
      UpperOnlyFits(x);
    }
  }
}
