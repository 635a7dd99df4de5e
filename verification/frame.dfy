/** Stack-frame arithmetic shared by the generic and the debugger-event
    trampolines: `ALIGN_TO`, the frame layouts, and the splitting of a
    stack adjustment into `sub`/`add` immediates of at most 256. */
module Frame {
  import opened Words
  import opened Abi

  /** `(x & (2^k - 1)) == 0`: the `k` low bits of `x` are zero, so `x` is a
      multiple of 2^k. */
  predicate Aligned(x: nat, k: nat)
  {
    k == 0 || (x % 2 == 0 && Aligned(x / 2, k - 1))
  }

  /** `x & ~(2^k - 1)`: `x` with its `k` low bits cleared, defined bit by
      bit. The result is the largest multiple of 2^k not above `x`. */
  function ClearLowBits(x: nat, k: nat): (r: nat)
    ensures Aligned(r, k)
    ensures r <= x < r + Pow2(k)
  {
    if k == 0 then x
    else
      var h := ClearLowBits(x / 2, k - 1);
      assert (2 * h) / 2 == h;
      2 * h
  }

  /** `ALIGN_TO (val, align)` for `align == 2^k`: the sum is formed in
      `guint64`, so it wraps. When it does not wrap, the result is the
      least multiple of `align` not below `v`. */
  function AlignTo(v: Word64, k: nat): (r: nat)
    ensures v + Pow2(k) <= TWO64 ==> Aligned(r, k) && v <= r < v + Pow2(k)
  {
    ClearLowBits(Wrap(v + Pow2(k) - 1), k)
  }

  /** A region of a frame, in bytes from the frame base. */
  datatype Area = Area(offset: nat, size: nat)
  {
    function End(): nat { offset + size }
  }

  /** Areas that follow each other without gap or overlap, from offset 0. */
  predicate BackToBack(areas: seq<Area>)
  {
    && (|areas| > 0 ==> areas[0].offset == 0)
    && forall i :: 0 < i < |areas| ==> areas[i].offset == areas[i - 1].End()
  }

  /** Every area ends before any later one starts. */
  predicate Disjoint(areas: seq<Area>)
  {
    forall i, j :: 0 <= i < j < |areas| ==> areas[i].End() <= areas[j].offset
  }

  lemma {:induction false} BackToBackDisjoint(areas: seq<Area>)
    requires BackToBack(areas)
    ensures Disjoint(areas)
    ensures forall i :: 0 <= i < |areas| ==> areas[i].End() <= Last(areas)
  {
    if |areas| > 1 {
      var init := areas[..|areas| - 1];
      BackToBackDisjoint(init);
      assert Last(init) == areas[|areas| - 2].End();
    }
  }

  /** The end of the last area (0 when there is none). */
  function Last(areas: seq<Area>): nat
  {
    if areas == [] then 0 else areas[|areas| - 1].End()
  }

  /** The layout of `mono_arch_create_generic_trampoline`'s frame. */
  datatype GenericFrame = GenericFrame(
    gregsOffset: nat, fregsOffset: nat, argOffset: nat,
    resOffset: nat, lmfOffset: nat, frameSize: nat)
  {
    /** Frame block (saved fp, lr), 32 saved general registers, 8 saved
        floating-point argument registers, the trampoline argument, the
        handler's result and the LMF, in that order. */
    function Areas(p: Platform): seq<Area>
    {
      [Area(0, 16), Area(gregsOffset, NUM_GREGS * 8), Area(fregsOffset, NUM_FREGS * 8),
       Area(argOffset, 8), Area(resOffset, 8), Area(lmfOffset, p.lmfSize)]
    }
  }

  const NUM_FREGS: nat := 8

  /** Lines 116-138: each area is placed at the running offset, and the
      total is aligned up to the platform's frame alignment, so the frame
      holds the LMF with less than one alignment to spare.
      `GenericFrameFits` states that the areas do not overlap. */
  function GenericFrameLayout(p: Platform): (f: GenericFrame)
    requires p.Valid()
    ensures 16 == f.gregsOffset < f.fregsOffset < f.argOffset < f.resOffset < f.lmfOffset
    ensures f.fregsOffset == 272 && f.argOffset == 336 && f.resOffset == 344 && f.lmfOffset == 352
    ensures f.lmfOffset + p.lmfSize <= f.frameSize < f.lmfOffset + p.lmfSize + p.Alignment()
  {
    var gregs := 2 * 8;
    var fregs := gregs + NUM_GREGS * 8;
    var arg := fregs + NUM_FREGS * 8;
    var res := arg + 8;
    var lmf := res + 8;
    AlignmentSmall(p);
    GenericFrame(gregs, fregs, arg, res, lmf, AlignTo(lmf + p.lmfSize, p.alignLog2))
  }

  /** The areas of the generic frame do not overlap and all fit in the
      frame, whose size is a multiple of the frame alignment. */
  lemma GenericFrameFits(p: Platform)
    requires p.Valid()
    ensures var f := GenericFrameLayout(p);
      && Disjoint(f.Areas(p))
      && (forall a :: a in f.Areas(p) ==> a.End() <= f.frameSize)
      && Aligned(f.frameSize, p.alignLog2)
  {
    var f := GenericFrameLayout(p);
    AlignmentSmall(p);
    BackToBackDisjoint(f.Areas(p));
  }

  lemma AlignmentSmall(p: Platform)
    requires p.Valid()
    ensures 8 <= p.Alignment() <= 0x1000
  {
    PowMonotone(3, p.alignLog2);
    PowMonotone(p.alignLog2, 12);
  }

  lemma {:induction false} PowMonotone(a: nat, b: nat)
    requires a <= b
    ensures Pow2(a) <= Pow2(b)
  {
    if a < b {
      PowMonotone(a, b - 1);
    }
  }

  /** The layout of `mono_arch_create_sdb_trampoline`'s frame. */
  datatype SdbFrame = SdbFrame(ctxOffset: nat, frameSize: nat)

  /** Lines 530-537: a frame block followed by one MonoContext, aligned. */
  function SdbFrameLayout(p: Platform): (f: SdbFrame)
    requires p.Valid()
    ensures f.ctxOffset == 16
    ensures f.ctxOffset + p.contextSize <= f.frameSize < f.ctxOffset + p.contextSize + p.Alignment()
    ensures Aligned(f.frameSize, p.alignLog2)
  {
    AlignmentSmall(p);
    SdbFrame(16, AlignTo(16 + p.contextSize, p.alignLog2))
  }

  // ---------------------------------------------------------------------
  // Immediate splitting

  function Sum(s: seq<nat>): nat
  {
    if s == [] then 0 else s[0] + Sum(s[1..])
  }

  /** The immediates emitted by `while (imm > 256) { ...256...; imm -= 256; }`
      followed by one more instruction with the remainder. They add up to
      `imm`; `ChunksShape` states their sizes. */
  function Chunks(imm: nat): (cs: seq<nat>)
    ensures Sum(cs) == imm
  {
    if imm > 256 then [256] + Chunks(imm - 256) else [imm]
  }

  /** There is at least one immediate, every one is at most 256, all but
      the last are exactly 256, and there are ceil(imm / 256) of them (one
      for imm = 0). */
  lemma {:induction false} ChunksShape(imm: nat)
    ensures var cs := Chunks(imm);
      && |cs| == (if imm == 0 then 1 else (imm - 1) / 256 + 1)
      && (forall i :: 0 <= i < |cs| ==> cs[i] <= 256)
      && (forall i :: 0 <= i < |cs| - 1 ==> cs[i] == 256)
  {
    if imm > 256 {
      ChunksShape(imm - 256);
      var rest := Chunks(imm - 256);
      assert Chunks(imm) == [256] + rest;
      assert forall i :: 1 <= i < |rest| + 1 ==> ([256] + rest)[i] == rest[i - 1];
    }
  }

  /** The stack pointer after `sub sp, sp, #c` for each chunk `c`. */
  function SubChunks(sp: Word64, cs: seq<nat>): Word64
    decreases |cs|
  {
    if cs == [] then sp else SubChunks(Wrap(sp - cs[0]), cs[1..])
  }

  /** A register after `add x, x, #c` for each chunk `c`. */
  function AddChunks(x: Word64, cs: seq<nat>): Word64
    decreases |cs|
  {
    if cs == [] then x else AddChunks(Wrap(x + cs[0]), cs[1..])
  }

  lemma {:induction false} SubChunksSubtractsSum(sp: Word64, cs: seq<nat>)
    ensures SubChunks(sp, cs) == Wrap(sp - Sum(cs))
    decreases |cs|
  {
    if cs != [] {
      SubChunksSubtractsSum(Wrap(sp - cs[0]), cs[1..]);
      var rest: int := Sum(cs[1..]);
      WrapAdd(sp - cs[0], -rest);
    }
  }

  lemma {:induction false} AddChunksAddsSum(x: Word64, cs: seq<nat>)
    ensures AddChunks(x, cs) == Wrap(x + Sum(cs))
    decreases |cs|
  {
    if cs != [] {
      AddChunksAddsSum(Wrap(x + cs[0]), cs[1..]);
      WrapAdd(x + cs[0], Sum(cs[1..]));
    }
  }

  /** Subtracting a list of immediates and adding them back returns to
      the start, modulo 2^64. */
  lemma SubThenAdd(sp: Word64, cs: seq<nat>)
    ensures var fp := SubChunks(sp, cs);
      && fp == Wrap(sp - Sum(cs))
      && AddChunks(fp, cs) == Wrap(fp + Sum(cs)) == sp
  {
    SubChunksSubtractsSum(sp, cs);
    AddChunksAddsSum(SubChunks(sp, cs), cs);
    SubThenAddWord(sp, Sum(cs));
  }

  /** Subtracting `n` and adding it back, both modulo 2^64. */
  lemma SubThenAddWord(x: Word64, n: int)
    ensures Wrap(Wrap(x - n) + n) == x
  {
    WrapAdd(x - n, n);
    assert x - n + n == x;
  }

  /** Lines 141-146 then 167-173: after the frame is allocated with the
      split immediates and fp is set to sp, adding the same immediates to
      fp recomputes the caller's stack pointer, which is fp + frame_size. */
  lemma CallerSpRecomputed(sp: Word64, frameSize: nat)
    ensures var fp := SubChunks(sp, Chunks(frameSize));
      && fp == Wrap(sp - frameSize)
      && AddChunks(fp, Chunks(frameSize)) == Wrap(fp + frameSize)
      && AddChunks(fp, Chunks(frameSize)) == sp
  {
    SubThenAdd(sp, Chunks(frameSize));
  }

  /** The frame base is `sp` minus the frame size; the address `off` bytes
      above it is `sp - frameSize + off`; and the caller's sp is
      recomputed from the base both ways the trampolines do it, by adding
      the split immediates and by adding the frame size once the frame is
      popped. */
  lemma FrameAddresses(sp: Word64, frameSize: nat, off: nat)
    ensures var base := SubChunks(sp, Chunks(frameSize));
      && base == Wrap(sp - frameSize)
      && Wrap(base + off) == Wrap(sp - frameSize + off)
      && AddChunks(base, Chunks(frameSize)) == sp
      && Wrap(base + frameSize) == sp
  {
    var base := SubChunks(sp, Chunks(frameSize));
    CallerSpRecomputed(sp, frameSize);
    assert base == Wrap(sp - frameSize);
    WrapAdd(sp - frameSize, off);
    assert Wrap(base + off) == Wrap(Wrap(sp - frameSize) + off);
  }
}
