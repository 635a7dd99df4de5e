/** The run-time behaviour of the soft-debugger trampolines emitted by
    `mono_arch_create_sdb_trampoline`: they capture the caller's register
    state in a context on the stack, hand it to the debugger agent's
    single-step or breakpoint function, and resume wherever, and with
    whatever registers, the agent left in the context. */
module SdbTrampoline {
  import opened Words
  import opened Abi
  import opened Frame

  /** The part of a `MonoContext` these trampolines fill in: the general
      registers (sp at index 31) and the pc. Float registers are not
      captured. */
  datatype Context = Context(regs: Regs, pc: Word64)

  /** What the agent leaves behind: the context, possibly rewritten, and
      memory. */
  datatype AgentResult = AgentResult(ctx: Context, mem: Memory)

  /** The two agent entry points, `debugger_agent_single_step_from_context`
      and `debugger_agent_breakpoint_from_context`; their code is not part
      of this model. */
  datatype Agent = Agent(
    singleStep: (Context, Memory) -> AgentResult,
    breakpoint: (Context, Memory) -> AgentResult)

  /** The scratch registers ip0 and ip1, which tearing down the frame may
      use as temporaries; their values on exit are not specified. */
  predicate Scratch(i: nat)
  {
    i == IP0 || i == IP1
  }

  /** The two words `stp fp, lr, [sp]` stores at the base of the new
      frame (line 548): the caller's fp and the return address. */
  datatype FrameBlock = FrameBlock(fp: Word64, lr: Word64)

  /** Lines 553-569: the context built on the stack from the live
      registers `live`. The register array is stored from every register
      but fp and sp; the caller's fp is then copied from the frame block,
      the caller's sp (recomputed from fp) is stored in the sp slot, and
      the return address in the frame block becomes the pc. */
  function Capture(live: Regs, block: FrameBlock, callerSp: Word64): (c: Context)
    ensures c.regs[FP] == block.fp && c.regs[SP] == callerSp && c.pc == block.lr
    ensures forall i :: 0 <= i < NUM_GREGS && i != FP && i != SP ==> c.regs[i] == live[i]
  {
    Context(live[FP := block.fp][SP := callerSp], block.lr)
  }

  /** Capturing after the frame is set up gives back the entry state: the
      live registers differ from the entry ones only in fp and sp, the
      frame block holds the entry fp and lr, and the recomputed sp is the
      entry sp. */
  lemma CaptureIsEntry(regs: Regs, base: Word64, callerSp: Word64)
    requires callerSp == regs[SP]
    ensures Capture(regs[SP := base][FP := base], FrameBlock(regs[FP], regs[LR]), callerSp) == Context(regs, regs[LR])
  {
    var c := Capture(regs[SP := base][FP := base], FrameBlock(regs[FP], regs[LR]), callerSp);
    assert forall i :: 0 <= i < NUM_GREGS ==> c.regs[i] == regs[i];
  }

  /** The context captured once the frame of `frameSize` bytes is set up
      below `regs[SP]` is the entry state. */
  lemma CaptureInFrame(regs: Regs, frameSize: nat)
    ensures var base := SubChunks(regs[SP], Chunks(frameSize));
      Capture(regs[SP := base][FP := base], FrameBlock(regs[FP], regs[LR]), AddChunks(base, Chunks(frameSize)))
        == Context(regs, regs[LR])
  {
    var base := SubChunks(regs[SP], Chunks(frameSize));
    FrameAddresses(regs[SP], frameSize, 0);
    CaptureIsEntry(regs, base, AddChunks(base, Chunks(frameSize)));
  }

  /** One run: the captured context and its address, what the agent did,
      and the pc and registers the trampoline returns with. */
  datatype Trace = Trace(captured: Context, ctxAddr: Word64, result: AgentResult, pc: Word64, regs: Regs)

  /** Lines 586-597: the registers on the way out of context `c` when the
      caller's stack pointer is `sp`. fp and the pc go to the frame block,
      every other register but sp is reloaded from the context, and tearing
      down the frame reloads fp and lr from the block and pops it. */
  function ResumeRegs(c: Context, sp: Word64): (out: Regs)
    ensures out[LR] == c.pc && out[SP] == sp
    ensures forall i :: 0 <= i < NUM_GREGS && i != LR && i != SP && !Scratch(i) ==> out[i] == c.regs[i]
  {
    c.regs[IP0 := 0][IP1 := 0][LR := c.pc][SP := sp]
  }

  /** Lines 519-597. `regs` and `mem` are the state on entry, with lr
      holding the address to resume at. The context handed to the agent
      is assembled as lines 551-569 do it, and is the entry state itself,
      with pc = lr. On the
      way out every register but fp and sp is reloaded from the context,
      fp is the context's fp, lr and the resume address are the context's
      pc, and sp is the caller's, whatever the agent wrote there. */
  function Run(singleStep: bool, p: Platform, agent: Agent, regs: Regs, mem: Memory): (t: Trace)
    requires p.Valid()
    ensures t.captured == Context(regs, regs[LR])
    ensures t.ctxAddr == Wrap(regs[SP] - SdbFrameLayout(p).frameSize + SdbFrameLayout(p).ctxOffset)
    ensures t.result == (if singleStep then agent.singleStep else agent.breakpoint)(t.captured, mem)
    ensures t.pc == t.result.ctx.pc && t.regs[LR] == t.result.ctx.pc
    ensures t.regs[SP] == regs[SP]
    ensures forall i :: 0 <= i < NUM_GREGS && i != LR && i != SP && !Scratch(i) ==> t.regs[i] == t.result.ctx.regs[i]
  {
    var f := SdbFrameLayout(p);
    var sp := regs[SP];
    // Lines 541-549: allocate the frame, store fp and lr at its base, and
    // point fp at it.
    var base := SubChunks(sp, Chunks(f.frameSize));
    FrameAddresses(sp, f.frameSize, f.ctxOffset);
    var block := FrameBlock(regs[FP], regs[LR]);
    var live := regs[SP := base][FP := base];
    // Lines 558-565: the caller's sp recomputed from fp.
    var callerSp := AddChunks(base, Chunks(f.frameSize));
    var captured := Capture(live, block, callerSp);
    CaptureInFrame(regs, f.frameSize);
    var ctxAddr := Wrap(base + f.ctxOffset);
    assert ctxAddr == Wrap(regs[SP] - SdbFrameLayout(p).frameSize + SdbFrameLayout(p).ctxOffset);
    // Lines 571-584.
    var res := (if singleStep then agent.singleStep else agent.breakpoint)(captured, mem);
    // Lines 586-597, with sp = fp + frame_size once the frame is popped.
    Trace(captured, ctxAddr, res, res.ctx.pc, ResumeRegs(res.ctx, Wrap(base + f.frameSize)))
  }

  /** An agent that leaves the context alone makes the trampoline
      transparent: it resumes at the caller's return address with every
      register but the scratch ones as they were on entry. */
  lemma UntouchedContextResumes(singleStep: bool, p: Platform, agent: Agent, regs: Regs, mem: Memory)
    requires p.Valid()
    requires var c := Context(regs, regs[LR]);
      (if singleStep then agent.singleStep else agent.breakpoint)(c, mem).ctx == c
    ensures var t := Run(singleStep, p, agent, regs, mem);
      && t.pc == regs[LR]
      && forall i :: 0 <= i < NUM_GREGS && !Scratch(i) ==> t.regs[i] == regs[i]
  {
    var t := Run(singleStep, p, agent, regs, mem);
    assert t.result.ctx == Context(regs, regs[LR]);
    forall i | 0 <= i < NUM_GREGS && !Scratch(i)
      ensures t.regs[i] == regs[i]
    {
      if i != LR && i != SP {
        assert t.regs[i] == t.result.ctx.regs[i];
      }
    }
  }
}
