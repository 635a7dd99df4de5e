/** The A64 branch-with-link instruction as the trampoline code reads and
    rewrites it (Arm Architecture Reference Manual for A-profile, section
    C6.2, "BL"): `1 00101 imm26`, target = address of the BL + 4 * sext(imm26). */
module A64 {
  import opened Words

  /** The test of `mono_arch_get_call_target`: bit 31 is set and bits
      28..26 are 0b101. Bits 30 and 29 are not examined. */
  predicate LooksLikeBL(ins: Word32)
  {
    (ins / 0x8000_0000) % 2 == 1 && (ins / 0x400_0000) % 8 == 5
  }

  /** An exact BL: bits 31..26 are 0b100101. */
  predicate IsBL(ins: Word32)
  {
    ins / 0x400_0000 == 0x25
  }

  /** The word displacement held in the low 26 bits, sign-extended from
      bit 25 (`disp | 0xfc000000` when bit 25 is set). */
  function BranchDisp(ins: Word32): (d: int)
    ensures -0x200_0000 <= d < 0x200_0000
    ensures (d - ins) % 0x400_0000 == 0
  {
    var imm := ins % 0x400_0000;
    if imm / 0x200_0000 != 0 then imm - 0x400_0000 else imm
  }

  /** `target` is reachable from a BL placed at `site`: the signed byte
      distance is a multiple of 4 in [-2^27, 2^27). */
  predicate InBranchRange(site: Word64, target: Word64)
  {
    var d := Signed(Wrap(target - site));
    -0x800_0000 <= d < 0x800_0000 && d % 4 == 0
  }

  /** The branch target of a BL at `site` holding `ins`. */
  function BranchTarget(site: Word64, ins: Word32): Word64
  {
    Wrap(site + 4 * BranchDisp(ins))
  }

  /** `mono_arch_get_call_target`: `code` points just past a call; the word
      before it must look like a BL, and its target is returned. A failed
      check (a fatal assertion in the runtime) is None, and so is an
      unmapped call site. */
  function DecodeCallTarget(m: Memory, code: Word64): (r: Option<Word64>)
    ensures r.Some? <==> Wrap(code - 4) in m.text && LooksLikeBL(m.text[Wrap(code - 4)])
    ensures r.Some? ==> InBranchRange(Wrap(code - 4), r.value)
    ensures r.Some? ==> Signed(Wrap(r.value - Wrap(code - 4))) == 4 * BranchDisp(m.text[Wrap(code - 4)])
  {
    var site := Wrap(code - 4);
    match LoadInsn(m, site)
    case None => None
    case Some(ins) =>
      if LooksLikeBL(ins) then
        BranchTargetInRange(site, ins);
        Some(BranchTarget(site, ins))
      else None
  }

  /** The signed distance from a BL to its target is four times its
      displacement, which is in reach. */
  lemma BranchTargetInRange(site: Word64, ins: Word32)
    ensures Signed(Wrap(BranchTarget(site, ins) - site)) == 4 * BranchDisp(ins)
    ensures InBranchRange(site, BranchTarget(site, ins))
  {
    var e := 4 * BranchDisp(ins);
    WrapDistance(site, e);
    assert e % 4 == 0;
  }

  /** The signed distance from `site` to `site + e`, taken modulo 2^64,
      is `e` for any `e` in the signed 64-bit range. */
  lemma WrapDistance(site: Word64, e: int)
    requires -TWO63 <= e < TWO63
    ensures Signed(Wrap(Wrap(site + e) - site)) == e
  {
    WrapSub(site + e, site);
    assert site + e - site == e;
    SignedWrap(e);
  }

  /** The BL that branches from `site` to `target`, or None when the target
      is misaligned or out of reach. */
  function EncodeBL(site: Word64, target: Word64): (r: Option<Word32>)
    ensures r.Some? <==> InBranchRange(site, target)
    ensures r.Some? ==> IsBL(r.value) && LooksLikeBL(r.value)
  {
    if InBranchRange(site, target) then
      Some(0x9400_0000 + (Signed(Wrap(target - site)) / 4) % 0x400_0000)
    else None
  }

  /** An encoded BL branches where it was asked to. */
  lemma EncodeBLTarget(site: Word64, target: Word64)
    requires InBranchRange(site, target)
    ensures BranchTarget(site, EncodeBL(site, target).value) == target
  {
    var t := Wrap(target - site);
    var d := Signed(t);
    var ins := EncodeBL(site, target).value;
    assert ins == 0x9400_0000 + (d / 4) % 0x400_0000;
    EncodedDisp(d / 4);
    assert BranchTarget(site, ins) == Wrap(site + d);
    SignedBack(site, target);
  }

  /** Adding the signed distance to `target` back to `site` reaches it. */
  lemma SignedBack(site: Word64, target: Word64)
    ensures Wrap(site + Signed(Wrap(target - site))) == target
  {
    var t := Wrap(target - site);
    var d := Signed(t);
    assert Wrap(d) == t;
    WrapAdd(d, site);
    WrapEqual(d + site, site + d);
    WrapAdd(target - site, site);
    WrapEqual(target - site + site, target);
    WrapId(target);
  }

  /** The low 26 bits of a BL hold its word displacement. */
  lemma EncodedDisp(w: int)
    requires -0x200_0000 <= w < 0x200_0000
    ensures BranchDisp(0x9400_0000 + w % 0x400_0000) == w
  {
    var ins := 0x9400_0000 + w % 0x400_0000;
    assert ins % 0x400_0000 == w % 0x400_0000;
  }

  /** `mono_arch_patch_callsite`: the BL just before `codePtr` is rewritten
      to branch to `addr`. A store to an unmapped call site faults (None).
      A target out of reach is also None: the BL encoding cannot express
      it, and the model refuses it rather than truncating it. */
  function PatchCallsite(m: Memory, codePtr: Word64, addr: Word64): (r: Option<Memory>)
    ensures r.Some? <==> Wrap(codePtr - 4) in m.text && InBranchRange(Wrap(codePtr - 4), addr)
    ensures r.Some? ==> r.value.data == m.data && r.value.text.Keys == m.text.Keys
    ensures r.Some? ==> Wrap(codePtr - 4) in r.value.text && IsBL(r.value.text[Wrap(codePtr - 4)])
    ensures r.Some? ==> forall a :: a in m.text && a != Wrap(codePtr - 4) ==> a in r.value.text && r.value.text[a] == m.text[a]
  {
    var site := Wrap(codePtr - 4);
    if site !in m.text then None
    else match EncodeBL(site, addr)
    case None => None
    case Some(ins) => Some(m.(text := m.text[site := ins]))
  }

  /** Decoding a call site after patching it yields exactly the new target. */
  lemma PatchThenDecode(m: Memory, codePtr: Word64, addr: Word64)
    requires Wrap(codePtr - 4) in m.text && InBranchRange(Wrap(codePtr - 4), addr)
    ensures DecodeCallTarget(PatchCallsite(m, codePtr, addr).value, codePtr) == Some(addr)
  {
    EncodeBLTarget(Wrap(codePtr - 4), addr);
  }

  /** Re-encoding the decoded target of an exact BL gives back the same word. */
  lemma DecodeThenEncode(site: Word64, ins: Word32)
    requires IsBL(ins)
    ensures EncodeBL(site, BranchTarget(site, ins)) == Some(ins)
  {
    BranchTargetInRange(site, ins);
    var d := BranchDisp(ins);
    assert (4 * d) / 4 == d;
    DispRoundTrip(ins);
  }

  /** An exact BL is its opcode plus its displacement modulo 2^26. */
  lemma DispRoundTrip(ins: Word32)
    requires IsBL(ins)
    ensures 0x9400_0000 + BranchDisp(ins) % 0x400_0000 == ins
  {
    var d := BranchDisp(ins);
    var k := (d - ins) / 0x400_0000;
    assert d == ins + k * 0x400_0000;
    assert d % 0x400_0000 == ins % 0x400_0000;
  }
}
