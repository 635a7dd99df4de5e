/** The run-time behaviour of the generic trampoline emitted by
    `mono_arch_create_generic_trampoline`: it builds a frame, saves the
    caller's registers, pushes an LMF (the record that lets the runtime
    walk from native code back into managed frames) on the thread's LMF
    list, calls the C handler for its trampoline kind, pops the LMF, asks
    whether an exception is pending, and then either resumes at the
    handler's result or throws from the caller's frame.

    The run is a single function from an entry state to a trace of the
    observable steps. The callees whose code is not part of this model —
    `mono_get_lmf_addr`, the per-kind handler, the interruption
    checkpoint, and the throw-exception variable — are parameters. */
module GenericTrampoline {
  import opened Words
  import opened Abi
  import opened Frame

  /** The trampoline kinds the emitted code distinguishes: JUMP, which
      never returns to its caller, RGCTX_LAZY_FETCH, which returns a value,
      and every other kind, which branches to the handler's result. */
  datatype Kind = Jump | RgctxLazyFetch | OtherKind(id: nat)

  /** The eight argument floating-point registers, saved as 64-bit words. */
  type FRegs = s: seq<Word64> | |s| == NUM_FREGS witness seq(8, i => 0)

  /** Machine state on entry: registers (x30 holds the return address into
      the caller, x17 the trampoline argument), argument float registers,
      and memory. */
  datatype Entry = Entry(regs: Regs, fregs: FRegs, mem: Memory)

  /** The four arguments of the C handler: the address of the saved
      register array, the caller's return address, the trampoline
      argument, and the trampoline address (always 0 here). */
  datatype HandlerArgs = HandlerArgs(regsAddr: Word64, caller: Word64, arg: Word64, trampAddr: Word64)

  /** What the handler gives back: its return value, the saved register
      array as it left it (handlers may rewrite argument registers), and
      memory. */
  datatype HandlerResult = HandlerResult(value: Word64, gregs: Regs, mem: Memory)

  /** The fields of the pushed LMF that this trampoline fills in. */
  datatype LmfRecord = LmfRecord(previous: Word64, lmfAddr: Word64, pc: Word64, callerFp: Word64, callerSp: Word64)

  /** The callees, as parameters:
      - `lmfAddr`: what `mono_get_lmf_addr` returns, the address of the
        thread's slot holding the head of the LMF list;
      - `handler`: the C function for the trampoline kind;
      - `checkpoint`: `mono_thread_force_interruption_checkpoint_noraise`,
        which returns a pending exception or 0;
      - `throwVar`: the address of the variable holding the
        throw-exception trampoline. */
  datatype Env = Env(
    lmfAddr: Word64,
    handler: (HandlerArgs, Regs, Memory) -> HandlerResult,
    checkpoint: Memory -> Word64,
    throwVar: Word64)

  /** How the trampoline leaves.
      - `Resume`: the normal path. It returns to the caller (`toCaller`) or
        branches to `pc`, with x0..x8 in `args`, the rgctx register, ip1
        (holding the handler's result), the caller's lr, sp and fp, and
        the argument float registers.
      - `Throw`: the frame is popped and control branches to the
        throw-exception trampoline `pc`, with the exception in x0 and the
        caller's lr as the throw site. */
  datatype Exit =
    | Resume(toCaller: bool, pc: Word64, args: seq<Word64>, rgctx: Word64, ip1: Word64,
             lr: Word64, sp: Word64, fp: Word64, fregs: FRegs)
    | Throw(pc: Word64, exception: Word64, lr: Word64, sp: Word64, fp: Word64)

  /** The state once the prologue has run (lines 141-218): the frame is
      built, the registers are saved, the LMF is pushed and the handler's
      arguments are in place. */
  datatype Prologue = Prologue(
    frameBase: Word64,        // fp (and sp) once the frame is built
    saved: Regs,              // the saved register array handed to the handler
    lmfPtr: Word64,           // address of the pushed LMF
    lmf: LmfRecord,
    memAtCall: Memory,        // memory when the handler is called
    args: HandlerArgs)

  /** The observable steps of one run. */
  datatype Trace = Trace(
    pro: Prologue,
    result: HandlerResult,
    memAtCheck: Memory,       // memory after the LMF pop, when the checkpoint runs
    exception: Word64,        // what the checkpoint returned
    exit: Exit)

  /** The registers a kind restores and whose saved values are the ones
      the handler can rewrite: x0..x8. */
  function ArgRegs(gregs: Regs): (r: seq<Word64>)
    ensures |r| == 9 && forall i :: 0 <= i < 9 ==> r[i] == gregs[i]
  {
    gregs[..9]
  }

  /** Lines 141-218. The frame is allocated below the caller's stack
      pointer; every register but fp and sp is saved; the LMF records the
      caller's fp, sp and (except for JUMP) return address and links to the
      previous head of the thread's list, and becomes the new head without
      any other word changing; then the handler's arguments are set up. */
  function Enter(kind: Kind, hasArg: bool, p: Platform, env: Env, e: Entry): (s: Prologue)
    requires p.Valid()
    requires env.lmfAddr in e.mem.data
    ensures s.frameBase == Wrap(e.regs[SP] - GenericFrameLayout(p).frameSize)
    ensures forall i :: 0 <= i < NUM_GREGS && i != FP && i != SP ==> s.saved[i] == e.regs[i]
    ensures s.lmfPtr == Wrap(s.frameBase + GenericFrameLayout(p).lmfOffset)
    ensures s.lmf.previous == e.mem.data[env.lmfAddr] && s.lmf.lmfAddr == env.lmfAddr
    ensures s.lmf.callerSp == e.regs[SP] && s.lmf.callerFp == e.regs[FP]
    ensures s.lmf.pc == (if kind == Jump then 0 else e.regs[LR])
    ensures s.memAtCall.text == e.mem.text && s.memAtCall.data.Keys == e.mem.data.Keys
    ensures s.memAtCall.data[env.lmfAddr] == s.lmfPtr
    ensures forall a :: a in e.mem.data && a != env.lmfAddr ==> s.memAtCall.data[a] == e.mem.data[a]
    ensures s.args.regsAddr == Wrap(s.frameBase + GenericFrameLayout(p).gregsOffset)
    ensures s.args.caller == (if kind == Jump then 0 else e.regs[LR])
    ensures s.args.arg == (if hasArg then e.regs[R0] else e.regs[IP1])
    ensures s.args.trampAddr == 0
  {
    var f := GenericFrameLayout(p);
    var sp := e.regs[SP];
    // Lines 141-146: allocate the frame, then store fp and lr at its base.
    var base := SubChunks(sp, Chunks(f.frameSize));
    FrameAddresses(sp, f.frameSize, f.lmfOffset);
    // Lines 167-173: the caller's sp is recomputed from fp.
    var callerSp := AddChunks(base, Chunks(f.frameSize));
    // Lines 151-153: every register but fp and sp.
    // The array slots of fp and sp are never written; 0 stands in for
    // whatever the stack held there.
    var saved: Regs := e.regs[FP := 0][SP := 0];
    var lmfPtr := Wrap(base + f.lmfOffset);
    // Lines 160-180 fill the record; lines 182-200 link it in.
    var lmf := LmfRecord(e.mem.data[env.lmfAddr], env.lmfAddr,
      if kind == Jump then 0 else e.regs[LR], e.regs[FP], callerSp);
    var memAtCall := PushLmf(env.lmfAddr, lmfPtr, e.mem);
    // Lines 202-218.
    var args := HandlerArgs(
      Wrap(base + f.gregsOffset),
      if kind == Jump then 0 else saved[LR],
      if hasArg then saved[R0] else saved[IP1],
      0);
    Prologue(base, saved, lmfPtr, lmf, memAtCall, args)
  }

  /** Lines 182-200: the LMF at `lmfPtr` becomes the head of the list
      whose head is stored at `lmfAddr`; no other word changes. */
  function PushLmf(lmfAddr: Word64, lmfPtr: Word64, m: Memory): (r: Memory)
    requires lmfAddr in m.data
    ensures r.text == m.text && r.data.Keys == m.data.Keys
    ensures r.data[lmfAddr] == lmfPtr
    ensures forall a :: a in m.data && a != lmfAddr ==> r.data[a] == m.data[a]
  {
    m.(data := m.data[lmfAddr := lmfPtr])
  }

  /** Popping an LMF that was just pushed, when nothing ran in between,
      gives back the memory as it was before the push. */
  lemma PopUndoesPush(lmf: LmfRecord, lmfPtr: Word64, m: Memory)
    requires lmf.lmfAddr in m.data && lmf.previous == m.data[lmf.lmfAddr]
    ensures PopLmf(lmf, PushLmf(lmf.lmfAddr, lmfPtr, m)) == m
  {
    var r := PopLmf(lmf, PushLmf(lmf.lmfAddr, lmfPtr, m));
    assert r.data == m.data;
  }

  /** Lines 231-241: the thread's LMF head is set back to the record's
      previous LMF; no other word changes. The store faults when the slot
      is unmapped, so `Run` tests for it first. */
  function PopLmf(lmf: LmfRecord, m: Memory): (r: Memory)
    requires lmf.lmfAddr in m.data
    ensures r.text == m.text && r.data.Keys == m.data.Keys
    ensures r.data[lmf.lmfAddr] == lmf.previous
    ensures forall a :: a in m.data && a != lmf.lmfAddr ==> r.data[a] == m.data[a]
  {
    m.(data := m.data[lmf.lmfAddr := lmf.previous])
  }

  /** Lines 243-300: the fork after the handler. A pending exception pops
      the frame and branches to the throw-exception trampoline read from
      `throwVar`, faulting when that is unmapped; otherwise the argument
      registers are restored as the handler left them, and only the
      lazy-fetch kind returns to its caller, with the result in x0, while
      every other kind branches to the result. Either way the caller's lr,
      sp and fp are back. */
  function Leave(kind: Kind, p: Platform, env: Env, e: Entry, base: Word64,
                 res: HandlerResult, exc: Word64, m: Memory): (r: Option<Exit>)
    requires p.Valid()
    requires base == Wrap(e.regs[SP] - GenericFrameLayout(p).frameSize)
    ensures r.None? <==> exc != 0 && env.throwVar !in m.data
    ensures r.Some? ==> (r.value.Throw? <==> exc != 0)
    ensures r.Some? && r.value.Throw? ==> var x := r.value;
      && x.pc == m.data[env.throwVar] && x.exception == exc
      && x.lr == e.regs[LR] && x.sp == e.regs[SP] && x.fp == e.regs[FP]
    ensures r.Some? && r.value.Resume? ==> var x := r.value;
      && (x.toCaller <==> kind == RgctxLazyFetch)
      && x.pc == (if x.toCaller then e.regs[LR] else res.value)
      && x.ip1 == res.value
      && |x.args| == 9
      && x.args[0] == (if x.toCaller then res.value else res.gregs[R0])
      && (forall i :: 1 <= i < 9 ==> x.args[i] == res.gregs[i])
      && x.rgctx == res.gregs[RGCTX_REG]
      && x.lr == e.regs[LR] && x.sp == e.regs[SP] && x.fp == e.regs[FP]
      && x.fregs == e.fregs
  {
    var f := GenericFrameLayout(p);
    // Lines 272 and 286: destroying the frame reloads fp and lr from its
    // base and sets sp to fp + frame_size.
    var callerSp := Wrap(base + f.frameSize);
    SubThenAddWord(e.regs[SP], f.frameSize);
    assert callerSp == e.regs[SP];
    if exc != 0 then
      match LoadWord(m, env.throwVar)
      case None => None
      case Some(thrower) => Some(Throw(thrower, exc, e.regs[LR], callerSp, e.regs[FP]))
    else
      var toCaller := kind == RgctxLazyFetch;
      var regArgs := ArgRegs(res.gregs);
      Some(Resume(
        toCaller,
        if toCaller then e.regs[LR] else res.value,
        if toCaller then regArgs[0 := res.value] else regArgs,
        res.gregs[RGCTX_REG],
        res.value,
        e.regs[LR], callerSp, e.regs[FP], e.fregs))
  }

  /** Lines 115-303. One run of the generic trampoline for `kind`, where
      `hasArg` says whether the kind takes its argument in x0 rather than
      in ip1. `None` is a fault: the thread's LMF slot is unmapped on entry
      or once the handler has returned, or the throw-exception variable is
      unmapped when an exception is pending.
      The handler runs with the trampoline's LMF at the head of the
      thread's list, and the checkpoint runs after the head is put back. */
  function Run(kind: Kind, hasArg: bool, p: Platform, env: Env, e: Entry): (r: Option<Trace>)
    requires p.Valid()
    ensures r.Some? <==> (env.lmfAddr in e.mem.data &&
      var s := Enter(kind, hasArg, p, env, e);
      var res := env.handler(s.args, s.saved, s.memAtCall);
      env.lmfAddr in res.mem.data &&
      var m := PopLmf(s.lmf, res.mem);
      env.checkpoint(m) == 0 || env.throwVar in m.data)
    ensures r.Some? ==> var t := r.value;
      && t.pro == Enter(kind, hasArg, p, env, e)
      && t.pro.memAtCall.data[env.lmfAddr] == t.pro.lmfPtr
      && t.result == env.handler(t.pro.args, t.pro.saved, t.pro.memAtCall)
      && env.lmfAddr in t.result.mem.data
      && t.memAtCheck == PopLmf(t.pro.lmf, t.result.mem)
      && t.memAtCheck.data[env.lmfAddr] == e.mem.data[env.lmfAddr]
      && t.exception == env.checkpoint(t.memAtCheck)
      && (t.exception != 0 <==> t.exit.Throw?)
  {
    if env.lmfAddr !in e.mem.data then None
    else
      var s := Enter(kind, hasArg, p, env, e);
      var res := env.handler(s.args, s.saved, s.memAtCall);
      if env.lmfAddr !in res.mem.data then None
      else
        var m := PopLmf(s.lmf, res.mem);
        var exc := env.checkpoint(m);
        match Leave(kind, p, env, e, s.frameBase, res, exc, m)
        case None => None
        case Some(x) => Some(Trace(s, res, m, exc, x))
  }

  /** A JUMP trampoline never returns to its caller: it records no caller
      pc, passes no caller to its handler, and either branches to the
      handler's result or throws. */
  lemma JumpNeverReturns(hasArg: bool, p: Platform, env: Env, e: Entry)
    requires p.Valid()
    requires Run(Jump, hasArg, p, env, e).Some?
    ensures var t := Run(Jump, hasArg, p, env, e).value;
      && t.pro.lmf.pc == 0 && t.pro.args.caller == 0
      && (t.exit.Resume? ==> !t.exit.toCaller && t.exit.pc == t.result.value)
  {
  }

  /** Whichever way a run leaves, the caller's frame is as it was: lr, sp
      and fp hold their entry values and the thread's LMF head holds what
      it held on entry. */
  lemma CallerFrameRestored(kind: Kind, hasArg: bool, p: Platform, env: Env, e: Entry)
    requires p.Valid()
    requires Run(kind, hasArg, p, env, e).Some?
    ensures var t := Run(kind, hasArg, p, env, e).value;
      && t.exit.lr == e.regs[LR] && t.exit.sp == e.regs[SP] && t.exit.fp == e.regs[FP]
      && env.lmfAddr in t.memAtCheck.data && t.memAtCheck.data[env.lmfAddr] == e.mem.data[env.lmfAddr]
  {
  }
}
