/** Machine words, 64-bit wrap-around and the abstract memory that the
    trampolines read and patch.

    Words are mathematical integers kept in range by subset types. Every
    place where the C code relies on unsigned 64-bit wrap-around (pointer
    arithmetic, `guint64` sums) goes through `Wrap`; the one place where it
    relies on a signed 32-bit `int` is modelled by `WrapInt32`. */
module Words {

  const TWO32: int := 0x1_0000_0000
  const TWO63: int := 0x8000_0000_0000_0000
  const TWO64: int := 0x1_0000_0000_0000_0000

  type Word32 = x: int | 0 <= x < TWO32
  type Word64 = x: int | 0 <= x < TWO64

  /** Reduction modulo 2^64: the value a `guint64` (or a pointer) holds. */
  function Wrap(x: int): Word64
  {
    x % TWO64
  }

  /** Equal integers wrap to the same word. */
  lemma WrapEqual(x: int, y: int)
    requires x == y
    ensures Wrap(x) == Wrap(y)
  {
  }

  /** A value already in range is its own word. */
  lemma WrapId(x: int)
    requires 0 <= x < TWO64
    ensures Wrap(x) == x
  {
  }

  /** The two's-complement reading of a 64-bit word. */
  function Signed(w: Word64): (s: int)
    ensures -TWO63 <= s < TWO63
    ensures Wrap(s) == w
  {
    if w >= TWO63 then w - TWO64 else w
  }

  /** What a C `int` (32-bit, two's complement) holds after an arithmetic
      result `x` is stored in it. */
  function WrapInt32(x: int): (r: int)
    ensures -0x8000_0000 <= r < 0x8000_0000
    ensures (r - x) % TWO32 == 0
  {
    var m := x % TWO32;
    if m >= 0x8000_0000 then m - TWO32 else m
  }

  /** A value in the signed 64-bit range survives a round trip through its
      wrapped word. */
  lemma SignedWrap(x: int)
    requires -TWO63 <= x < TWO63
    ensures Signed(Wrap(x)) == x
  {
  }

  function Pow2(k: nat): (r: nat)
    ensures r >= 1
  {
    if k == 0 then 1 else 2 * Pow2(k - 1)
  }

  /** Adding a multiple of 2^64 does not change the wrapped value. */
  lemma WrapShift(x: int, q: int)
    ensures Wrap(x + q * TWO64) == Wrap(x)
  {
  }

  /** Wrapping an intermediate result does not change a wrapped sum. */
  lemma WrapAdd(x: int, y: int)
    ensures Wrap(Wrap(x) + y) == Wrap(x + y)
  {
    var q := x / TWO64;
    assert x == q * TWO64 + Wrap(x);
    WrapShift(Wrap(x) + y, q);
  }

  /** Wrapping an intermediate result does not change a wrapped difference. */
  lemma WrapSub(x: int, c: int)
    ensures Wrap(Wrap(x) - c) == Wrap(x - c)
  {
    WrapAdd(x, -c);
  }

  /** The memory the trampolines touch, as two independent cell maps:
      32-bit instruction words of generated code, indexed by their
      address, and 64-bit data words (GOT slots, generic-context arrays,
      the thread's LMF slot), indexed by their address. A missing key is
      unmapped memory. */
  datatype Memory = Memory(text: map<Word64, Word32>, data: map<Word64, Word64>)

  /** Reads the instruction word at `a`; None when unmapped. */
  function LoadInsn(m: Memory, a: Word64): (r: Option<Word32>)
    ensures r.Some? <==> a in m.text
    ensures r.Some? ==> r.value == m.text[a]
  {
    if a in m.text then Some(m.text[a]) else None
  }

  /** Reads the data word at `a`; None when unmapped. */
  function LoadWord(m: Memory, a: Word64): (r: Option<Word64>)
    ensures r.Some? <==> a in m.data
    ensures r.Some? ==> r.value == m.data[a]
  {
    if a in m.data then Some(m.data[a]) else None
  }

  datatype Option<+T> = None | Some(value: T)
}
