/** Register numbers of the A64 calling convention the trampolines use, and
    the layout constants they take from runtime headers that are not part
    of this model. */
module Abi {
  import opened Words

  const R0: nat := 0
  const RGCTX_REG: nat := 15   // MONO_ARCH_RGCTX_REG
  const IP0: nat := 16
  const IP1: nat := 17
  const FP: nat := 29
  const LR: nat := 30
  const SP: nat := 31
  const NUM_GREGS: nat := 32

  /** A general-register file x0..x30 plus the stack pointer at index 31. */
  type Regs = s: seq<Word64> | |s| == NUM_GREGS witness seq(32, i => 0)

  /** Sizes and offsets defined by headers outside this model, with the
      assumptions the trampolines rely on. */
  datatype Platform = Platform(
    lmfSize: nat,             // sizeof (MonoLMF)
    contextSize: nat,         // sizeof (MonoContext)
    alignLog2: nat,           // MONO_ARCH_FRAME_ALIGNMENT == 2^alignLog2
    vtableRgctxOffset: nat,   // offset of runtime_generic_context in MonoVTable
    mrgctxSize: nat)          // MONO_SIZEOF_METHOD_RUNTIME_GENERIC_CONTEXT
  {
    /** Positive, word-multiple structure sizes; a power-of-two alignment
        of at least a word; everything small enough that no `int` in the
        generators overflows. */
    predicate Valid()
    {
      && 0 < lmfSize < 0x1_0000 && lmfSize % 8 == 0
      && 0 < contextSize < 0x1_0000 && contextSize % 8 == 0
      && 3 <= alignLog2 <= 12
      && vtableRgctxOffset < 0x1_0000 && vtableRgctxOffset % 8 == 0
      && mrgctxSize < 0x1_0000 && mrgctxSize % 8 == 0
    }

    function Alignment(): nat
    {
      Pow2(alignLog2)
    }
  }
}
