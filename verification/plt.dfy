/** PLT entries of ahead-of-time compiled code and the two routines that
    read them: `mono_arch_patch_plt_entry`, which redirects the GOT slot an
    entry loads its target from, and `mono_arch_get_plt_info_offset`.

    An entry is five words: `adrp x16, page`, `add x16, x16, #lo12`,
    `ldr x16, [x16, #imm12*8]`, `br x16`, and a data word (the info
    offset). Field layouts follow the Arm Architecture Reference Manual for
    A-profile, section C6.2 (ADRP; ADD (immediate); LDR (immediate), unsigned
    offset). */
module Plt {
  import opened Words

  /** Why a PLT entry cannot be patched. Every case but `Unmapped` is a
      failed fatal assertion in the runtime. */
  datatype PltError =
    | Unmapped      // a word of the entry, or the slot, is not mapped memory
    | NotAdrp       // word 0: bits 28..24 are not 0b10000
    | NegativePage  // word 0: the 21-bit page displacement has bit 20 set
    | NotAddImm     // word 1: bits 23..22 are not zero
    | NotLdr        // word 2: bits 29..24 are not 0b111001
    | SlotNull      // the GOT slot holds zero

  datatype Result<+T> = Ok(value: T) | Err(error: PltError)

  /** `((ins >> 24) & 0x1f) == 0x10`. */
  predicate IsAdrp(ins: Word32)
  {
    (ins / 0x100_0000) % 0x20 == 0x10
  }

  /** `disp = (((ins >> 5) & 0x7ffff) << 2) | ((ins >> 29) & 0x3)`: the
      21-bit immhi:immlo page displacement, read as unsigned. */
  function AdrpImm(ins: Word32): (disp: nat)
    ensures disp < 0x20_0000
  {
    ((ins / 0x20) % 0x8_0000) * 4 + (ins / 0x2000_0000) % 4
  }

  /** `((ins >> 22) & 0x3) == 0`. */
  predicate IsAddImmUnshifted(ins: Word32)
  {
    (ins / 0x40_0000) % 4 == 0
  }

  /** `((ins >> 24) & 0x3f) == 0x39`. */
  predicate IsLdrUnsignedOffset(ins: Word32)
  {
    (ins / 0x100_0000) % 0x40 == 0x39
  }

  /** `(ins >> 10) & 0xfff`: the imm12 field of ADD and LDR. */
  function Imm12(ins: Word32): (imm: nat)
    ensures imm < 0x1000
  {
    (ins / 0x400) % 0x1000
  }

  /** `x & ~0xfff` on a 64-bit word: the start of its 4 KiB page. */
  function PageOf(x: Word64): (p: Word64)
    ensures p % 0x1000 == 0 && p <= x && x - p < 0x1000
  {
    x - x % 0x1000
  }

  /** The GOT slot address an entry loads from, computed with the page
      displacement widened to 64 bits before it is shifted. */
  function SlotAddress(code: Word64, disp: nat, lo12: nat, imm12: nat): Word64
  {
    AddLow(PageOf(Wrap(code + disp * 0x1000)), lo12, imm12)
  }

  /** Lines 56 and 61: the ADD immediate and eight times the LDR
      immediate added to the page address. */
  function AddLow(page: Word64, lo12: nat, imm12: nat): Word64
  {
    Wrap(Wrap(page + lo12) + imm12 * 8)
  }

  /** The same computation as line 51 performs it: `disp << 12` is
      evaluated in a 32-bit signed `int` and then sign-extended when added
      to the 64-bit code address. */
  function SlotAddressAsWritten(code: Word64, disp: nat, lo12: nat, imm12: nat): Word64
  {
    AddLow(PageOf(Wrap(code + WrapInt32(disp * 0x1000))), lo12, imm12)
  }

  /** The architectural result of ADRP at `pc` with a non-negative page
      displacement: the page of `pc` plus `disp` pages. */
  function AdrpResult(pc: Word64, disp: nat): Word64
  {
    Wrap(PageOf(pc) + disp * 0x1000)
  }

  /** Decodes the three address-forming instructions of the entry at
      `code` into the address of the GOT slot they load. */
  function DecodeSlot(m: Memory, code: Word64): (r: Result<Word64>)
    ensures r.Ok? <==>
      && code in m.text && Wrap(code + 4) in m.text && Wrap(code + 8) in m.text
      && IsAdrp(m.text[code]) && AdrpImm(m.text[code]) < 0x10_0000
      && IsAddImmUnshifted(m.text[Wrap(code + 4)])
      && IsLdrUnsignedOffset(m.text[Wrap(code + 8)])
    ensures r == Err(NotAdrp) <==> code in m.text && !IsAdrp(m.text[code])
    ensures r == Err(NegativePage) <==> code in m.text && IsAdrp(m.text[code]) && AdrpImm(m.text[code]) >= 0x10_0000
    ensures r.Ok? ==> r.value == AddLow(AdrpResult(code, AdrpImm(m.text[code])),
                                        Imm12(m.text[Wrap(code + 4)]), Imm12(m.text[Wrap(code + 8)]))
  {
    // Each word is checked as soon as it is loaded, as lines 45-59 do.
    match LoadInsn(m, code)
    case None => Err(Unmapped)
    case Some(adrp) =>
      if !IsAdrp(adrp) then Err(NotAdrp)
      else if AdrpImm(adrp) >= 0x10_0000 then Err(NegativePage)
      else match LoadInsn(m, Wrap(code + 4))
      case None => Err(Unmapped)
      case Some(add) =>
        if !IsAddImmUnshifted(add) then Err(NotAddImm)
        else match LoadInsn(m, Wrap(code + 8))
        case None => Err(Unmapped)
        case Some(ldr) =>
          if !IsLdrUnsignedOffset(ldr) then Err(NotLdr)
          else
            SlotAddressFromAdrp(code, AdrpImm(adrp), Imm12(add), Imm12(ldr));
            Ok(SlotAddress(code, AdrpImm(adrp), Imm12(add), Imm12(ldr)))
  }

  /** The widened slot address is the architectural ADRP result plus the
      low parts. */
  lemma SlotAddressFromAdrp(code: Word64, disp: nat, lo12: nat, imm12: nat)
    ensures SlotAddress(code, disp, lo12, imm12) == AddLow(AdrpResult(code, disp), lo12, imm12)
  {
    AdrpMatchesArchitecture(code, disp);
  }

  /** Adding whole pages does not change the offset within a page. */
  lemma PageOffsetShift(a: int, j: int)
    ensures (a + j * 0x1000) % 0x1000 == a % 0x1000
  {
    var r := a % 0x1000;
    assert a == (a / 0x1000) * 0x1000 + r;
    assert a + j * 0x1000 == (a / 0x1000 + j) * 0x1000 + r;
  }

  /** Clearing the page offset after adding whole pages is the same as
      adding them to the page of `pc`: the source's formula is ADRP. */
  lemma AdrpMatchesArchitecture(pc: Word64, disp: nat)
    ensures PageOf(Wrap(pc + disp * 0x1000)) == AdrpResult(pc, disp)
  {
    var k := disp * 0x1000;
    var q := (pc + k) / TWO64;
    var w := Wrap(pc + k);
    assert w == pc + k - q * TWO64;
    PageOffsetShift(pc, disp - q * 0x10_0000_0000_0000);
    assert w % 0x1000 == pc % 0x1000;
    assert PageOf(w) == PageOf(pc) + k - q * TWO64;
    WrapShift(PageOf(pc) + k, -q);
  }

  /** `mono_arch_patch_plt_entry`: the GOT slot read by the entry at `code`
      must hold a non-null value; it is overwritten with `addr`. Nothing
      else changes: no other data word and no instruction word. */
  function PatchPltEntry(m: Memory, code: Word64, addr: Word64): (r: Result<Memory>)
    ensures r.Ok? <==> DecodeSlot(m, code).Ok? && DecodeSlot(m, code).value in m.data
                         && m.data[DecodeSlot(m, code).value] != 0
    ensures r.Ok? ==> var slot := DecodeSlot(m, code).value;
      && r.value.text == m.text
      && r.value.data.Keys == m.data.Keys
      && r.value.data[slot] == addr
      && forall a :: a in m.data && a != slot ==> r.value.data[a] == m.data[a]
  {
    match DecodeSlot(m, code)
    case Err(e) => Err(e)
    case Ok(slot) =>
      match LoadWord(m, slot)
      case None => Err(Unmapped)
      case Some(current) =>
        if current == 0 then Err(SlotNull) else Ok(m.(data := m.data[slot := addr]))
  }

  /** `mono_arch_get_plt_info_offset`: the fifth word of the entry. */
  function PltInfoOffset(m: Memory, pltEntry: Word64): (r: Option<Word32>)
    ensures r.Some? <==> Wrap(pltEntry + 16) in m.text
    ensures r.Some? ==> r.value == m.text[Wrap(pltEntry + 16)]
  {
    LoadInsn(m, Wrap(pltEntry + 16))
  }

  // ---------------------------------------------------------------------
  // The entry the ahead-of-time compiler lays out, as the decoder expects it

  /** Number of 4 KiB pages from the page of `code` to the page of `slot`. */
  function PageDistance(code: Word64, slot: Word64): int
  {
    slot / 0x1000 - code / 0x1000
  }

  /** The five words of an entry at `code` that loads the GOT slot at
      `slot` into x16, branches to it, and carries `info`. The slot's
      offset within its page is split between the ADD immediate and
      `ldrIdx` words of LDR offset. */
  function PltEntryWords(code: Word64, slot: Word64, ldrIdx: nat, info: Word32): (ws: seq<Word32>)
    requires 0 <= PageDistance(code, slot) < 0x10_0000
    requires 8 * ldrIdx <= slot % 0x1000
    ensures |ws| == 5
  {
    var p := PageDistance(code, slot);
    [ 0x9000_0010 + (p % 4) * 0x2000_0000 + (p / 4) * 0x20,   // adrp x16, page
      0x9100_0210 + (slot % 0x1000 - 8 * ldrIdx) * 0x400,     // add x16, x16, #lo12
      0xF940_0210 + ldrIdx * 0x400,                           // ldr x16, [x16, #ldrIdx*8]
      0xD61F_0200,                                           // br x16
      info ]
  }

  /** The address of word `i` of code starting at `code`. */
  function WordAddr(code: nat, i: nat): nat
  {
    code + 4 * i
  }

  /** Memory `m` with the words `ws` written from `code` on. */
  function LayOut(m: Memory, code: nat, ws: seq<Word32>): (m': Memory)
    requires code + 4 * |ws| <= TWO64
    ensures m'.data == m.data
    ensures forall i :: 0 <= i < |ws| ==> WordAddr(code, i) in m'.text && m'.text[WordAddr(code, i)] == ws[i]
    decreases |ws|
  {
    if ws == [] then m
    else
      var rest := LayOut(m, code + 4, ws[1..]);
      assert forall i :: 1 <= i < |ws| ==> WordAddr(code, i) == WordAddr(code + 4, i - 1) != code;
      rest.(text := rest.text[code := ws[0]])
  }

  lemma EntryFields(code: Word64, slot: Word64, ldrIdx: nat, info: Word32)
    requires 0 <= PageDistance(code, slot) < 0x10_0000
    requires 8 * ldrIdx <= slot % 0x1000
    ensures var ws := PltEntryWords(code, slot, ldrIdx, info);
      && IsAdrp(ws[0]) && AdrpImm(ws[0]) == PageDistance(code, slot)
      && IsAddImmUnshifted(ws[1]) && Imm12(ws[1]) == slot % 0x1000 - 8 * ldrIdx
      && IsLdrUnsignedOffset(ws[2]) && Imm12(ws[2]) == ldrIdx
  {
    AdrpFields(PageDistance(code, slot));
    AddFields(slot % 0x1000 - 8 * ldrIdx);
    LdrFields(ldrIdx);
  }

  /** The ADRP word of an entry carries its page displacement. */
  lemma AdrpFields(p: nat)
    requires p < 0x10_0000
    ensures var w: Word32 := 0x9000_0010 + (p % 4) * 0x2000_0000 + (p / 4) * 0x20;
      IsAdrp(w) && AdrpImm(w) == p
  {
    var w := 0x9000_0010 + (p % 4) * 0x2000_0000 + (p / 4) * 0x20;
    assert w / 0x100_0000 == 0x90 + (p % 4) * 0x20;
    assert w / 0x20 == 0x480_0000 + (p % 4) * 0x100_0000 + p / 4;
    assert w / 0x2000_0000 == 4 + p % 4;
  }

  /** The ADD word of an entry carries the slot's offset in its page. */
  lemma AddFields(lo12: nat)
    requires lo12 < 0x1000
    ensures var w: Word32 := 0x9100_0210 + lo12 * 0x400;
      IsAddImmUnshifted(w) && Imm12(w) == lo12
  {
    var w := 0x9100_0210 + lo12 * 0x400;
    assert w / 0x400 == 0x24_4000 + lo12;
  }

  /** The LDR word of an entry carries its word offset. */
  lemma LdrFields(j: nat)
    requires j < 0x1000
    ensures var w: Word32 := 0xF940_0210 + j * 0x400;
      IsLdrUnsignedOffset(w) && Imm12(w) == j
  {
    var w := 0xF940_0210 + j * 0x400;
    assert w / 0x100_0000 == 0xF9;
    assert w / 0x400 == 0x3E_5000 + j;
  }

  /** Adding the page distance to the page of `code` gives the page of
      `slot`. */
  lemma PageDistanceSpans(code: Word64, slot: Word64)
    ensures PageOf(code) + PageDistance(code, slot) * 0x1000 == PageOf(slot)
  {
    assert PageOf(code) == (code / 0x1000) * 0x1000;
    assert PageOf(slot) == (slot / 0x1000) * 0x1000;
  }

  /** Decoding reads back the slot from any memory holding the entry's
      first three words. */
  lemma DecodeEntryWords(m: Memory, code: Word64, slot: Word64, ldrIdx: nat, info: Word32)
    requires 0 <= PageDistance(code, slot) < 0x10_0000
    requires 8 * ldrIdx <= slot % 0x1000
    requires code + 20 <= TWO64
    requires var ws := PltEntryWords(code, slot, ldrIdx, info);
      && code in m.text && code + 4 in m.text && code + 8 in m.text
      && m.text[code] == ws[0] && m.text[code + 4] == ws[1] && m.text[code + 8] == ws[2]
    ensures DecodeSlot(m, code) == Ok(slot)
  {
    EntryFields(code, slot, ldrIdx, info);
    WrapId(code + 4);
    WrapId(code + 8);
    var p := PageDistance(code, slot);
    assert AdrpImm(m.text[code]) == p;
    assert Imm12(m.text[Wrap(code + 4)]) == slot % 0x1000 - 8 * ldrIdx;
    assert Imm12(m.text[Wrap(code + 8)]) == ldrIdx;
    PageDistanceSpans(code, slot);
    WrapEqual(PageOf(code) + p * 0x1000, PageOf(slot));
    WrapId(PageOf(slot));
    assert AdrpResult(code, p) == PageOf(slot);
    assert DecodeSlot(m, code).Ok?;
    SlotFromParts(slot, ldrIdx);
  }

  /** A word is its page plus its offset within the page, however that
      offset is split between the ADD and the LDR. */
  lemma SlotFromParts(slot: Word64, ldrIdx: nat)
    requires 8 * ldrIdx <= slot % 0x1000
    ensures AddLow(PageOf(slot), slot % 0x1000 - 8 * ldrIdx, ldrIdx) == slot
  {
    var lo12 := slot % 0x1000 - 8 * ldrIdx;
    AddLowFlat(PageOf(slot), lo12, ldrIdx);
    WrapEqual(PageOf(slot) + (lo12 + ldrIdx * 8), slot);
    WrapId(slot);
  }

  /** The info offset of a laid-out entry is the info word laid out. */
  lemma InfoOfLaidOutEntry(m: Memory, code: Word64, ws: seq<Word32>)
    requires |ws| == 5 && code + 20 <= TWO64
    ensures PltInfoOffset(LayOut(m, code, ws), code) == Some(ws[4])
  {
    var m' := LayOut(m, code, ws);
    assert WordAddr(code, 4) == code + 16;
    assert m'.text[code + 16] == ws[4];
  }

  /** Round trip: decoding an entry laid out for `slot` yields `slot`, and
      its info word is the one laid out. */
  lemma DecodeLaidOutEntry(m: Memory, code: Word64, slot: Word64, ldrIdx: nat, info: Word32)
    requires 0 <= PageDistance(code, slot) < 0x10_0000
    requires 8 * ldrIdx <= slot % 0x1000
    requires code + 20 <= TWO64
    ensures var m' := LayOut(m, code, PltEntryWords(code, slot, ldrIdx, info));
      && DecodeSlot(m', code) == Ok(slot)
      && PltInfoOffset(m', code) == Some(info)
  {
    var ws := PltEntryWords(code, slot, ldrIdx, info);
    var m' := LayOut(m, code, ws);
    assert WordAddr(code, 0) == code && WordAddr(code, 1) == code + 4 && WordAddr(code, 2) == code + 8;
    assert m'.text[code] == ws[0] && m'.text[code + 4] == ws[1] && m'.text[code + 8] == ws[2];
    DecodeEntryWords(m', code, slot, ldrIdx, info);
    InfoOfLaidOutEntry(m, code, ws);
  }

  /** The as-written computation agrees with the widened one for every
      displacement below 2^19 pages (2 GiB). */
  lemma AsWrittenAgreesBelow2GiB(code: Word64, disp: nat, lo12: nat, imm12: nat)
    requires disp < 0x8_0000
    ensures SlotAddressAsWritten(code, disp, lo12, imm12) == SlotAddress(code, disp, lo12, imm12)
  {
    assert WrapInt32(disp * 0x1000) == disp * 0x1000;
  }

  /** The as-written computation goes wrong at 2^19 pages: with the code at
      address 0 and the GOT 2 GiB above it, the 32-bit `disp << 12`
      overflows to -2^31 and the slot address lands 2 GiB below zero. */
  lemma AsWrittenOverflowsAt2GiB()
    ensures SlotAddress(0, 0x8_0000, 0, 0) == 0x8000_0000
    ensures SlotAddressAsWritten(0, 0x8_0000, 0, 0) == TWO64 - 0x8000_0000
  {
    IntendedAt2GiB();
    AsWrittenAt2GiB();
  }

  /** The widened computation: 2^19 pages from page 0 is 2 GiB. */
  lemma IntendedAt2GiB()
    ensures SlotAddress(0, 0x8_0000, 0, 0) == 0x8000_0000
  {
    assert Wrap(0 + 0x8_0000 * 0x1000) == 0x8000_0000;
    assert PageOf(0x8000_0000) == 0x8000_0000;
    AddLowFlat(0x8000_0000, 0, 0);
  }

  /** The 32-bit computation: `0x8_0000 << 12` is -2^31, which the 64-bit
      addition turns into 2^64 - 2^31. */
  lemma AsWrittenAt2GiB()
    ensures SlotAddressAsWritten(0, 0x8_0000, 0, 0) == TWO64 - 0x8000_0000
  {
    assert WrapInt32(0x8_0000 * 0x1000) == -0x8000_0000;
    WrapShift(-0x8000_0000, 1);
    assert PageOf(TWO64 - 0x8000_0000) == TWO64 - 0x8000_0000;
    AddLowFlat(TWO64 - 0x8000_0000, 0, 0);
  }

  /** Moving a word by 4 GiB moves its page by 4 GiB. */
  lemma PageOfShift(a: Word64)
    ensures PageOf(Wrap(a - TWO32)) == Wrap(PageOf(a) - TWO32)
  {
    var q := (a - TWO32) / TWO64;
    var w := Wrap(a - TWO32);
    assert w == a - TWO32 - q * TWO64;
    PageOffsetShift(a, -0x10_0000 - q * 0x10_0000_0000_0000);
    assert w % 0x1000 == a % 0x1000;
    assert PageOf(w) == PageOf(a) - TWO32 - q * TWO64;
    WrapShift(PageOf(a) - TWO32, -q);
  }

  /** Offsetting a page by a constant before or after adding the low
      parts gives the same wrapped sum. */
  lemma OffsetCommutes(pg: Word64, lo12: nat, imm12: nat)
    ensures AddLow(Wrap(pg - TWO32), lo12, imm12) == Wrap(AddLow(pg, lo12, imm12) - TWO32)
  {
    var d := lo12 + imm12 * 8;
    AddLowFlat(Wrap(pg - TWO32), lo12, imm12);
    WrapAdd(pg - TWO32, d);
    AddLowFlat(pg, lo12, imm12);
    WrapSub(pg + d, TWO32);
    WrapEqual(pg - TWO32 + d, pg + d - TWO32);
  }

  /** The two wrapped additions of the low parts wrap only once. */
  lemma AddLowFlat(page: Word64, lo12: nat, imm12: nat)
    ensures AddLow(page, lo12, imm12) == Wrap(page + (lo12 + imm12 * 8))
  {
    WrapAdd(page + lo12, imm12 * 8);
    assert page + lo12 + imm12 * 8 == page + (lo12 + imm12 * 8);
  }

  /** A shifted displacement between 2^31 and 2^32 wraps to a negative
      `int`, 2^32 below its value, so the address it is added to moves
      4 GiB back. */
  lemma ShiftOverflows(code: Word64, disp: nat)
    requires 0x8_0000 <= disp < 0x10_0000
    ensures WrapInt32(disp * 0x1000) == disp * 0x1000 - TWO32
    ensures Wrap(code + WrapInt32(disp * 0x1000)) == Wrap(Wrap(code + disp * 0x1000) - TWO32)
  {
    var x := disp * 0x1000;
    assert 0x8000_0000 <= x < TWO32;
    assert x % TWO32 == x;
    WrapAdd(code + x, -TWO32);
  }

  /** Between 2^19 and 2^20 pages, the displacements the decoder accepts
      but a 32-bit `int` cannot hold once shifted, the as-written slot
      address is always exactly 4 GiB below the intended one. */
  lemma AsWrittenOff4GiB(code: Word64, disp: nat, lo12: nat, imm12: nat)
    requires 0x8_0000 <= disp < 0x10_0000
    ensures SlotAddressAsWritten(code, disp, lo12, imm12) == Wrap(SlotAddress(code, disp, lo12, imm12) - TWO32)
  {
    ShiftOverflows(code, disp);
    var a := Wrap(code + disp * 0x1000);
    PageOfShift(a);
    assert PageOf(Wrap(code + WrapInt32(disp * 0x1000))) == Wrap(PageOf(a) - TWO32);
    OffsetCommutes(PageOf(a), lo12, imm12);
  }
}
