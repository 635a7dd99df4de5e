/** Where a lazily fetched generic-context slot lives: the decomposition of
    `mono_arch_create_rgctx_lazy_fetch_trampoline`'s slot number into an
    (is-mrgctx, depth, index) location inside the array-of-arrays.

    Each array of the chain reserves element 0 for the link to the next
    array, so the array at depth `d` holds `ArraySize(d) - 1` slots.
    `mono_class_rgctx_get_array_size` is a parameter: any function whose
    values are all at least 2. */
module RgctxSlot {
  import opened Words
  import opened Abi

  /** `mono_class_rgctx_get_array_size (depth, is_mrgctx)`. */
  type ArraySizes = (nat, bool) -> nat

  ghost predicate ValidSizes(sizes: ArraySizes)
  {
    forall d: nat, m: bool :: sizes(d, m) >= 2
  }

  /** `MONO_RGCTX_SLOT_IS_MRGCTX`: bit 31 of the slot number. */
  predicate SlotIsMrgctx(slot: Word32)
  {
    slot >= 0x8000_0000
  }

  /** `MONO_RGCTX_SLOT_INDEX`: the low 31 bits of the slot number. */
  function SlotIndex(slot: Word32): nat
  {
    slot % 0x8000_0000
  }

  /** `MONO_RGCTX_SLOT_MAKE_RGCTX` / `MONO_RGCTX_SLOT_MAKE_MRGCTX`. */
  function MakeSlot(isMrgctx: bool, index: nat): (slot: Word32)
    requires index < 0x8000_0000
    ensures SlotIsMrgctx(slot) == isMrgctx && SlotIndex(slot) == index
  {
    if isMrgctx then 0x8000_0000 + index else index
  }

  /** The slot's position counted across all levels: for a method context
      the words of the MonoMethodRuntimeGenericContext header come first. */
  function LinearIndex(slot: Word32, p: Platform): nat
  {
    SlotIndex(slot) + (if SlotIsMrgctx(slot) then p.mrgctxSize / 8 else 0)
  }

  /** Line 393 as the C code evaluates it: `index` is an `int`, so the
      header words are added in 32-bit two's complement. */
  function LinearIndexAsWritten(slot: Word32, p: Platform): int
  {
    WrapInt32(SlotIndex(slot) + (if SlotIsMrgctx(slot) then p.mrgctxSize / 8 else 0))
  }

  /** The `int` of line 393 holds the linear index exactly when that index
      is below 2^31; above it, which only an mrgctx slot within the header
      size of 2^31 reaches, the `int` is negative. */
  lemma LinearIndexAsWrittenAgrees(slot: Word32, p: Platform)
    requires p.Valid()
    ensures LinearIndex(slot, p) < 0x8000_0000 <==> LinearIndexAsWritten(slot, p) == LinearIndex(slot, p)
    ensures LinearIndex(slot, p) >= 0x8000_0000 ==> LinearIndexAsWritten(slot, p) < 0
  {
    var x := LinearIndex(slot, p);
    assert x < 0x8000_0000 + 0x2000;
    if x >= 0x8000_0000 {
      assert x % TWO32 == x;
    }
  }

  /** The highest mrgctx slot with an eight-word header: the linear index
      is 2^31 + 7, and the `int` of line 393 holds -(2^31 - 7). */
  lemma LinearIndexWrapsAtTop()
    ensures LinearIndex(0xFFFF_FFFF, Platform(8, 8, 4, 0, 64)) == 0x8000_0007
    ensures LinearIndexAsWritten(0xFFFF_FFFF, Platform(8, 8, 4, 0, 64)) == -0x7FFF_FFF9
  {
    assert SlotIndex(0xFFFF_FFFF) == 0x7FFF_FFFF;
  }

  /** Slots held by the arrays at depths 0 .. depth-1. */
  function Capacity(sizes: ArraySizes, isMrgctx: bool, depth: nat): nat
    requires ValidSizes(sizes)
  {
    if depth == 0 then 0 else Capacity(sizes, isMrgctx, depth - 1) + sizes(depth - 1, isMrgctx) - 1
  }

  /** A slot's place: the context kind, the array's depth, and the index
      within that array (not counting the link element). */
  datatype Location = Location(isMrgctx: bool, depth: nat, index: nat)
  {
    predicate FitsIn(sizes: ArraySizes)
    {
      index < sizes(depth, isMrgctx) - 1
    }
  }

  /** Lines 390-400. The loop ends at the first depth whose array has room
      for the remaining index; the linear index is the capacity of all
      shallower arrays plus the final index. */
  method Decompose(slot: Word32, sizes: ArraySizes, p: Platform) returns (loc: Location)
    requires ValidSizes(sizes)
    ensures loc.isMrgctx == SlotIsMrgctx(slot)
    ensures loc.FitsIn(sizes)
    ensures LinearIndex(slot, p) == Capacity(sizes, loc.isMrgctx, loc.depth) + loc.index
  {
    var isMrgctx := SlotIsMrgctx(slot);
    var index: nat := SlotIndex(slot);
    if isMrgctx {
      index := index + p.mrgctxSize / 8;
    }
    var depth: nat := 0;
    while index >= sizes(depth, isMrgctx) - 1
      invariant LinearIndex(slot, p) == Capacity(sizes, isMrgctx, depth) + index
      decreases index
    {
      index := index - (sizes(depth, isMrgctx) - 1);
      depth := depth + 1;
    }
    loc := Location(isMrgctx, depth, index);
  }

  lemma {:induction false} CapacityGrows(sizes: ArraySizes, isMrgctx: bool, d1: nat, d2: nat)
    requires ValidSizes(sizes)
    requires d1 < d2
    ensures Capacity(sizes, isMrgctx, d1) + sizes(d1, isMrgctx) - 1 <= Capacity(sizes, isMrgctx, d2)
  {
    if d1 + 1 < d2 {
      CapacityGrows(sizes, isMrgctx, d1, d2 - 1);
    }
  }

  /** A linear index has exactly one location: the decomposition is the
      only (depth, index) pair that fits and adds up. */
  lemma LocationUnique(sizes: ArraySizes, a: Location, b: Location)
    requires ValidSizes(sizes)
    requires a.isMrgctx == b.isMrgctx && a.FitsIn(sizes) && b.FitsIn(sizes)
    requires Capacity(sizes, a.isMrgctx, a.depth) + a.index == Capacity(sizes, b.isMrgctx, b.depth) + b.index
    ensures a == b
  {
    if a.depth < b.depth {
      CapacityGrows(sizes, a.isMrgctx, a.depth, b.depth);
    } else if b.depth < a.depth {
      CapacityGrows(sizes, a.isMrgctx, b.depth, a.depth);
    }
  }
}
