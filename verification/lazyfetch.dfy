/** The fast path emitted by `mono_arch_create_rgctx_lazy_fetch_trampoline`
    (lines 408-448), as an abstract instruction list, and what it does to
    memory: a pointer chase through the generic-context arrays that either
    returns the slot's value or falls through to the slow path.

    The reference definition is `Follow`, a walk along a list of offsets:
    from a base pointer, load the word at base + offset, leave for the slow
    path if it is null, and continue from it. `FastPathFollows` proves that
    the emitted instructions perform exactly that walk. */
module LazyFetch {
  import opened Words
  import opened Abi
  import opened RgctxSlot

  /** The instructions of the fast path. All loads target ip1; every
      `CbzSlow` is patched to the slow path that follows the fast path. */
  datatype FetchOp =
    | MovFromR0                 // mov ip1, r0
    | LoadFromR0(offset: nat)   // ldr ip1, [r0, #offset]
    | Load(offset: nat)         // ldr ip1, [ip1, #offset]
    | CbzSlow                   // cbz ip1, slowpath
    | ReturnIp1                 // mov r0, ip1; br lr

  /** `[ldr ip1, [ip1, #o]; cbz ip1, slowpath]` for each offset `o`. */
  function Pairs(offsets: seq<nat>): (ops: seq<FetchOp>)
    ensures |ops| == 2 * |offsets|
    ensures forall i :: 0 <= i < |ops| ==> ops[i] != ReturnIp1
  {
    if offsets == [] then [] else [Load(offsets[0]), CbzSlow] + Pairs(offsets[1..])
  }

  /** Offset of the link to the next array at level `i`: the first link of a
      method context sits after its header, every other link is element 0. */
  function LinkOffset(isMrgctx: bool, i: nat, p: Platform): nat
  {
    if isMrgctx && i == 0 then p.mrgctxSize else 0
  }

  /** Link offsets of levels 0 .. depth-1. */
  function LinkOffsets(isMrgctx: bool, depth: nat, p: Platform): (offs: seq<nat>)
    ensures |offs| == depth
    ensures forall i :: 0 <= i < depth ==> offs[i] == LinkOffset(isMrgctx, i, p)
  {
    if depth == 0 then [] else LinkOffsets(isMrgctx, depth - 1, p) + [LinkOffset(isMrgctx, depth - 1, p)]
  }

  /** Offset of the slot within its array: element 0 is the link. */
  function SlotOffset(loc: Location): nat
  {
    8 * (loc.index + 1)
  }

  /** Lines 411-444: the fast path for `loc`. A class context starts from
      the vtable's runtime_generic_context field and checks it for null; a
      method context starts from r0 itself. */
  function FastPath(loc: Location, p: Platform): (ops: seq<FetchOp>)
    ensures |ops| == 2 * loc.depth + (if loc.isMrgctx then 4 else 5)
    ensures ops[|ops| - 1] == ReturnIp1 && ops[|ops| - 2] == CbzSlow
    ensures forall i :: 0 <= i < |ops| - 1 ==> ops[i] != ReturnIp1
  {
    (if loc.isMrgctx then [MovFromR0] else [LoadFromR0(p.vtableRgctxOffset), CbzSlow])
    + Pairs(LinkOffsets(loc.isMrgctx, loc.depth, p))
    + [Load(SlotOffset(loc)), CbzSlow, ReturnIp1]
  }

  /** The number of null checks, i.e. of jumps patched to the slow path. */
  function NullJumps(ops: seq<FetchOp>): nat
  {
    if ops == [] then 0 else (if ops[0] == CbzSlow then 1 else 0) + NullJumps(ops[1..])
  }

  lemma {:induction false} NullJumpsAppend(a: seq<FetchOp>, b: seq<FetchOp>)
    ensures NullJumps(a + b) == NullJumps(a) + NullJumps(b)
  {
    if a != [] {
      assert (a + b)[0] == a[0];
      assert (a + b)[1..] == a[1..] + b;
      NullJumpsAppend(a[1..], b);
    } else {
      assert a + b == b;
    }
  }

  lemma {:induction false} NullJumpsPairs(offsets: seq<nat>)
    ensures NullJumps(Pairs(offsets)) == |offsets|
  {
    if offsets != [] {
      NullJumpsPairs(offsets[1..]);
      NullJumpsAppend([Load(offsets[0]), CbzSlow], Pairs(offsets[1..]));
    }
  }

  /** Line 446: the fast path has one null check per level, one for the slot,
      and one more for a class context's vtable field, so the `depth + 2`
      entries reserved for the jumps always suffice. */
  lemma NullJumpsBound(loc: Location, p: Platform)
    ensures NullJumps(FastPath(loc, p)) == loc.depth + (if loc.isMrgctx then 1 else 2)
    ensures NullJumps(FastPath(loc, p)) <= loc.depth + 2
  {
    var head: seq<FetchOp> := if loc.isMrgctx then [MovFromR0] else [LoadFromR0(p.vtableRgctxOffset), CbzSlow];
    var mid := Pairs(LinkOffsets(loc.isMrgctx, loc.depth, p));
    var tail := [Load(SlotOffset(loc)), CbzSlow, ReturnIp1];
    assert FastPath(loc, p) == head + mid + tail;
    NullJumpsAppend(head + mid, tail);
    NullJumpsAppend(head, mid);
    NullJumpsPairs(LinkOffsets(loc.isMrgctx, loc.depth, p));
    NullJumpsAppend([Load(SlotOffset(loc))], [CbzSlow, ReturnIp1]);
    NullJumpsAppend([CbzSlow], [ReturnIp1]);
    NullJumpsSingle(Load(SlotOffset(loc)));
    NullJumpsSingle(CbzSlow);
    NullJumpsSingle(ReturnIp1);
    if loc.isMrgctx {
      NullJumpsSingle(MovFromR0);
    } else {
      NullJumpsAppend([LoadFromR0(p.vtableRgctxOffset)], [CbzSlow]);
      NullJumpsSingle(LoadFromR0(p.vtableRgctxOffset));
    }
  }

  lemma NullJumpsSingle(op: FetchOp)
    ensures NullJumps([op]) == if op == CbzSlow then 1 else 0
  {
    assert [op][1..] == [];
  }

  // ---------------------------------------------------------------------
  // Execution

  /** Where a walk ends: with a value, on the slow path (a null was found),
      or on a load from unmapped memory. */
  datatype Outcome = Hit(value: Word64) | SlowPath | Fault

  /** The outcome, r0 when control leaves the fast path, and every address
      loaded from, in order. */
  datatype Run = Run(outcome: Outcome, r0: Word64, loads: seq<Word64>)

  /** The fast-path instructions executed from the top, with `ip1` and `r0`
      as given. Running off the end reaches the slow path. */
  function Exec(ops: seq<FetchOp>, ip1: Word64, r0: Word64, m: Memory): (r: Run)
    decreases |ops|, 1
    ensures r.outcome.Hit? ==> r.r0 == r.outcome.value
    ensures !r.outcome.Hit? ==> r.r0 == r0
    ensures r.outcome.Fault? ==> r.loads != [] && r.loads[|r.loads| - 1] !in m.data
  {
    if ops == [] then Run(SlowPath, r0, [])
    else match ops[0]
      case MovFromR0 => Exec(ops[1..], r0, r0, m)
      case LoadFromR0(offset) => LoadThen(ops[1..], Wrap(r0 + offset), r0, m)
      case Load(offset) => LoadThen(ops[1..], Wrap(ip1 + offset), r0, m)
      case CbzSlow => if ip1 == 0 then Run(SlowPath, r0, []) else Exec(ops[1..], ip1, r0, m)
      case ReturnIp1 => Run(Hit(ip1), ip1, [])
  }

  function LoadThen(rest: seq<FetchOp>, a: Word64, r0: Word64, m: Memory): (r: Run)
    decreases |rest| + 1, 0
    ensures r.outcome.Hit? ==> r.r0 == r.outcome.value
    ensures !r.outcome.Hit? ==> r.r0 == r0
    ensures r.outcome.Fault? ==> r.loads != [] && r.loads[|r.loads| - 1] !in m.data
  {
    match LoadWord(m, a)
    case None => Run(Fault, r0, [a])
    case Some(v) =>
      var run := Exec(rest, v, r0, m);
      run.(loads := [a] + run.loads)
  }

  /** The reference walk: from `base`, for each offset load the word at
      base + offset; a null ends on the slow path, an unmapped word faults,
      and the last word loaded is the result. */
  function Follow(m: Memory, base: Word64, offsets: seq<nat>): (w: Walk)
    decreases |offsets|
    ensures |w.loads| <= |offsets| && (offsets != [] <==> w.loads != [])
    ensures w.outcome.Hit? ==> |w.loads| == |offsets|
  {
    if offsets == [] then Walk(Hit(base), [])
    else
      var a := Wrap(base + offsets[0]);
      match LoadWord(m, a)
      case None => Walk(Fault, [a])
      case Some(v) =>
        if v == 0 then Walk(SlowPath, [a])
        else
          var walk := Follow(m, v, offsets[1..]);
          walk.(loads := [a] + walk.loads)
  }

  /** The outcome of a reference walk and the addresses it loaded from. */
  datatype Walk = Walk(outcome: Outcome, loads: seq<Word64>)

  /** The offsets of the whole chase for `loc`: the vtable field (class
      contexts only), one link per level, then the slot. */
  function ChainOffsets(loc: Location, p: Platform): seq<nat>
  {
    (if loc.isMrgctx then [] else [p.vtableRgctxOffset])
    + LinkOffsets(loc.isMrgctx, loc.depth, p) + [SlotOffset(loc)]
  }

  lemma {:induction false} PairsExec(offsets: seq<nat>, ip1: Word64, r0: Word64, m: Memory)
    decreases |offsets|
    ensures var e := Exec(Pairs(offsets) + [ReturnIp1], ip1, r0, m);
      var f := Follow(m, ip1, offsets);
      && e.outcome == f.outcome && e.loads == f.loads
      && e.r0 == (if f.outcome.Hit? then f.outcome.value else r0)
  {
    if offsets != [] {
      var rest := Pairs(offsets[1..]) + [ReturnIp1];
      var ops := Pairs(offsets) + [ReturnIp1];
      assert ops == [Load(offsets[0])] + ([CbzSlow] + rest);
      assert ops[0] == Load(offsets[0]) && ops[1..] == [CbzSlow] + rest;
      assert ([CbzSlow] + rest)[0] == CbzSlow && ([CbzSlow] + rest)[1..] == rest;
      var a := Wrap(ip1 + offsets[0]);
      assert Exec(ops, ip1, r0, m) == LoadThen([CbzSlow] + rest, a, r0, m);
      if a in m.data {
        var v := m.data[a];
        assert LoadThen([CbzSlow] + rest, a, r0, m)
            == var run := Exec([CbzSlow] + rest, v, r0, m); run.(loads := [a] + run.loads);
        if v != 0 {
          assert Exec([CbzSlow] + rest, v, r0, m) == Exec(rest, v, r0, m);
          PairsExec(offsets[1..], v, r0, m);
        }
      }
    }
  }

  lemma PairsAppend(offsets: seq<nat>, last: nat)
    ensures Pairs(offsets) + [Load(last), CbzSlow, ReturnIp1] == Pairs(offsets + [last]) + [ReturnIp1]
  {
    PairsConcat(offsets, [last]);
  }

  lemma {:induction false} PairsConcat(a: seq<nat>, b: seq<nat>)
    ensures Pairs(a + b) == Pairs(a) + Pairs(b)
  {
    if a != [] {
      assert (a + b)[0] == a[0];
      assert (a + b)[1..] == a[1..] + b;
      PairsConcat(a[1..], b);
    } else {
      assert a + b == b;
    }
  }

  /** The emitted fast path performs exactly the reference walk from r0
      along `ChainOffsets`: same outcome, same loads in the same order. On
      the slow path r0 still holds the caller's vtable or mrgctx; on a hit
      it holds the fetched value. */
  lemma FastPathFollows(loc: Location, p: Platform, ip1: Word64, r0: Word64, m: Memory)
    ensures var e := Exec(FastPath(loc, p), ip1, r0, m);
      var f := Follow(m, r0, ChainOffsets(loc, p));
      && e.outcome == f.outcome && e.loads == f.loads
      && e.r0 == (if f.outcome.Hit? then f.outcome.value else r0)
  {
    var offs := LinkOffsets(loc.isMrgctx, loc.depth, p) + [SlotOffset(loc)];
    PairsAppend(LinkOffsets(loc.isMrgctx, loc.depth, p), SlotOffset(loc));
    var body := Pairs(offs) + [ReturnIp1];
    if loc.isMrgctx {
      assert FastPath(loc, p) == [MovFromR0] + body;
      assert ChainOffsets(loc, p) == offs;
      MovThenExec(body, ip1, r0, m);
      PairsExec(offs, r0, r0, m);
    } else {
      assert FastPath(loc, p) == [LoadFromR0(p.vtableRgctxOffset), CbzSlow] + body;
      assert ChainOffsets(loc, p) == [p.vtableRgctxOffset] + offs;
      VtableThenExec(p.vtableRgctxOffset, offs, ip1, r0, m);
    }
  }

  /** `mov ip1, r0` followed by `body` runs `body` from ip1 = r0. */
  lemma MovThenExec(body: seq<FetchOp>, ip1: Word64, r0: Word64, m: Memory)
    ensures Exec([MovFromR0] + body, ip1, r0, m) == Exec(body, r0, r0, m)
  {
    assert ([MovFromR0] + body)[0] == MovFromR0 && ([MovFromR0] + body)[1..] == body;
  }

  /** A null-checked load from r0 followed by the pairs for `offs` walks
      `[o] + offs` from r0. */
  lemma VtableThenExec(o: nat, offs: seq<nat>, ip1: Word64, r0: Word64, m: Memory)
    ensures var e := Exec([LoadFromR0(o), CbzSlow] + (Pairs(offs) + [ReturnIp1]), ip1, r0, m);
      var f := Follow(m, r0, [o] + offs);
      && e.outcome == f.outcome && e.loads == f.loads
      && e.r0 == (if f.outcome.Hit? then f.outcome.value else r0)
  {
    var body := Pairs(offs) + [ReturnIp1];
    var ops := [LoadFromR0(o), CbzSlow] + body;
    assert ops[0] == LoadFromR0(o) && ops[1..] == [CbzSlow] + body;
    assert ([CbzSlow] + body)[0] == CbzSlow && ([CbzSlow] + body)[1..] == body;
    assert ([o] + offs)[0] == o && ([o] + offs)[1..] == offs;
    var a := Wrap(r0 + o);
    assert Exec(ops, ip1, r0, m) == LoadThen([CbzSlow] + body, a, r0, m);
    if a in m.data {
      var v := m.data[a];
      if v != 0 {
        assert Exec([CbzSlow] + body, v, r0, m) == Exec(body, v, r0, m);
        PairsExec(offs, v, r0, m);
      }
    }
  }

  // ---------------------------------------------------------------------
  // Properties of the reference walk

  /** `loads` is the chain of addresses the walk forms: the first is base +
      offsets[0], and each later one is the word loaded at the previous one
      plus the next offset; every word loaded before the last was mapped
      and non-null. */
  ghost predicate Chained(m: Memory, base: Word64, offsets: seq<nat>, loads: seq<Word64>)
  {
    && 0 < |loads| <= |offsets|
    && loads[0] == Wrap(base + offsets[0])
    && (forall j :: 0 <= j < |loads| - 1 ==> loads[j] in m.data && m.data[loads[j]] != 0)
    && (forall j :: 0 < j < |loads| ==> loads[j] == Wrap(m.data[loads[j - 1]] + offsets[j]))
  }

  /** Null-chase correctness: a walk along a non-empty offset list loads a
      chain of addresses and ends
      - on the slow path exactly when the last word read is null,
      - with a fault exactly when the last address is unmapped,
      - with a hit exactly when every offset was used and the last word is
        non-null, the value being that word.
      Nothing past the first null or unmapped word is read. */
  lemma {:induction false} FollowChain(m: Memory, base: Word64, offsets: seq<nat>)
    requires offsets != []
    decreases |offsets|
    ensures var f := Follow(m, base, offsets);
      var last := f.loads[|f.loads| - 1];
      && Chained(m, base, offsets, f.loads)
      && (f.outcome.SlowPath? <==> last in m.data && m.data[last] == 0)
      && (f.outcome.Fault? <==> last !in m.data)
      && (f.outcome.Hit? <==> |f.loads| == |offsets| && last in m.data && m.data[last] != 0)
      && (f.outcome.Hit? ==> f.outcome.value == m.data[last])
  {
    var a := Wrap(base + offsets[0]);
    var f := Follow(m, base, offsets);
    if a in m.data && m.data[a] != 0 && |offsets| > 1 {
      var v := m.data[a];
      FollowChain(m, v, offsets[1..]);
      var rest := Follow(m, v, offsets[1..]);
      assert f.outcome == rest.outcome && f.loads == [a] + rest.loads;
      ChainedCons(m, base, offsets, rest.loads);
    } else if a in m.data && m.data[a] != 0 {
      assert offsets[1..] == [];
      assert f == Walk(Hit(m.data[a]), [a]);
    } else if a in m.data {
      assert f == Walk(SlowPath, [a]);
    } else {
      assert f == Walk(Fault, [a]);
    }
  }

  lemma ChainedCons(m: Memory, base: Word64, offsets: seq<nat>, rest: seq<Word64>)
    requires |offsets| > 1
    requires Wrap(base + offsets[0]) in m.data && m.data[Wrap(base + offsets[0])] != 0
    requires Chained(m, m.data[Wrap(base + offsets[0])], offsets[1..], rest)
    ensures Chained(m, base, offsets, [Wrap(base + offsets[0])] + rest)
  {
    var loads := [Wrap(base + offsets[0])] + rest;
    assert forall j :: 0 < j < |loads| ==> loads[j] == rest[j - 1];
  }

  /** A null met at step `i` of the chain sends the walk to the slow path
      after exactly `i + 1` loads. */
  lemma NullAtStep(m: Memory, base: Word64, offsets: seq<nat>, i: nat)
    requires offsets != []
    requires i < |Follow(m, base, offsets).loads|
    requires var r := Follow(m, base, offsets).loads; r[i] in m.data && m.data[r[i]] == 0
    ensures Follow(m, base, offsets).outcome == SlowPath
    ensures |Follow(m, base, offsets).loads| == i + 1
  {
    FollowChain(m, base, offsets);
  }

  /** The slot's location within the chase: the first link of a method
      context uses the header offset, the others offset 0, and the slot
      is read at (index + 1) words into the last array. */
  lemma ChainOffsetsShape(loc: Location, p: Platform)
    ensures var offs := ChainOffsets(loc, p);
      var lead := if loc.isMrgctx then 0 else 1;
      && |offs| == lead + loc.depth + 1
      && (!loc.isMrgctx ==> offs[0] == p.vtableRgctxOffset)
      && offs[lead..lead + loc.depth] == LinkOffsets(loc.isMrgctx, loc.depth, p)
      && offs[|offs| - 1] == 8 * (loc.index + 1)
  {
  }

  // ---------------------------------------------------------------------
  // The generator

  /** What `mono_arch_create_rgctx_lazy_fetch_trampoline` produces: the
      slot's location, the reserved code size, the fast path, the number
      of entries reserved for null jumps, and the argument its slow path
      passes to the lazy-fetch specific trampoline. */
  datatype LazyFetchTrampoline = LazyFetchTrampoline(
    loc: Location, bufSize: nat, fastPath: seq<FetchOp>, jumpSlots: nat, slowPathArg: Word32)

  /** Lines 390-462. The slot is decomposed, the fast path for its location
      is emitted with a null jump per check, and every null jump, like
      running off the fast path, reaches a slow path that hands the slot
      number, with r0 untouched, to the lazy-fetch handler. */
  method CreateRgctxLazyFetch(slot: Word32, sizes: ArraySizes, p: Platform) returns (t: LazyFetchTrampoline)
    requires ValidSizes(sizes)
    ensures t.loc.isMrgctx == SlotIsMrgctx(slot) && t.loc.FitsIn(sizes)
    ensures LinearIndex(slot, p) == Capacity(sizes, t.loc.isMrgctx, t.loc.depth) + t.loc.index
    ensures t.bufSize == 64 + 16 * t.loc.depth && t.jumpSlots == t.loc.depth + 2
    ensures NullJumps(t.fastPath) <= t.jumpSlots
    ensures t.slowPathArg == slot
    ensures forall m: Memory, ip1: Word64, r0: Word64 ::
      var e := Exec(t.fastPath, ip1, r0, m);
      var f := Follow(m, r0, ChainOffsets(t.loc, p));
      && e.outcome == f.outcome && e.loads == f.loads
      && e.r0 == (if f.outcome.Hit? then f.outcome.value else r0)
  {
    var loc := Decompose(slot, sizes, p);
    var ops := FastPath(loc, p);
    NullJumpsBound(loc, p);
    forall m: Memory, ip1: Word64, r0: Word64
      ensures var e := Exec(ops, ip1, r0, m);
        var f := Follow(m, r0, ChainOffsets(loc, p));
        && e.outcome == f.outcome && e.loads == f.loads
        && e.r0 == (if f.outcome.Hit? then f.outcome.value else r0)
    {
      FastPathFollows(loc, p, ip1, r0, m);
    }
    t := LazyFetchTrampoline(loc, 64 + 16 * loc.depth, ops, loc.depth + 2, slot);
  }
}
