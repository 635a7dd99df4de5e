# ARM64 trampolines of the Mono runtime, modelled in Dafny

This project models the checkable logic of Mono's ARM64 trampoline generator, `src/mono/mono/mini/tramp-arm64.c`.

Trampolines are small machine-code stubs. They sit between JIT-compiled managed code and the runtime's C handlers. The generator is mostly a sequence of calls to an instruction emitter. Under those calls lie self-contained pieces of integer and bit-field logic, plus two small pointer-walking protocols. The model states and proves what each piece does:

- **Instruction decoders** (`A64`, `Plt`). These cover:
  - the BL decoder of `mono_arch_get_call_target` and the BL patcher behind `mono_arch_patch_callsite`;
  - the ADRP / ADD / LDR decoder and GOT-slot patcher of `mono_arch_patch_plt_entry`;
  - `mono_arch_get_plt_info_offset`.

  Memory is two cell maps: 32-bit instruction words and 64-bit data words, each keyed by address. A missing key is unmapped memory, and a failed `g_assert` is an error result.
- **Frame layout** (`Frame`). This covers:
  - `ALIGN_TO`;
  - the offset accumulation of the generic and soft-debugger trampolines;
  - the loop that splits a stack adjustment into immediates of at most 256;
  - recomputing the caller's stack pointer from fp.
- **RGCTX slot decomposition** (`RgctxSlot`). The lazy-fetch generator turns a slot number into a location: an mrgctx flag, a depth and an index. It does this by subtracting the capacity of each level of the generic-context array chain.
- **Lazy-fetch fast path** (`LazyFetch`). The emitted fast path is modelled as a list of abstract operations, with an interpreter over memory. It is proved equal to a reference walk along the chain of arrays. The walk goes to the slow path at the first null and reads nothing beyond it.
- **Generic trampoline** (`GenericTrampoline`). One run is modelled as a function from the entry state to a trace:
  - the frame and saved registers;
  - the LMF push: the LMF (Last Managed Frame) is the record on the thread's list that lets the runtime walk from native code back into managed frames;
  - the handler's arguments;
  - the LMF pop, and the exception checkpoint that follows it;
  - the exit: return to the caller, branch to the handler's result, or throw from the caller's frame.
- **Soft-debugger trampoline** (`SdbTrampoline`). It captures the caller's context, hands it to the debugger agent, and resumes from the context the agent leaves behind.

The C handlers, `mono_get_lmf_addr`, the interruption checkpoint and the debugger agent are not part of this model. They are function parameters. Layout constants that come from other headers are fields of `Abi.Platform`, with the assumptions the generator relies on. These are `sizeof (MonoLMF)`, `sizeof (MonoContext)`, `MONO_ARCH_FRAME_ALIGNMENT`, the offset of `runtime_generic_context` in `MonoVTable`, and `MONO_SIZEOF_METHOD_RUNTIME_GENERIC_CONTEXT`. `mono_class_rgctx_get_array_size` is a function parameter whose values are all at least 2.

Pointer arithmetic wraps modulo 2^64 explicitly (`Words.Wrap`). Three computations are done in a 32-bit signed `int` that can overflow. The page shift of the PLT decoder at line 51 is modelled as written (`Words.WrapInt32`); see Findings. The slot index plus the mrgctx header at line 393 is modelled as written by `RgctxSlot.LinearIndexAsWritten`, while the decomposition uses the unbounded index; see the `RgctxSlot.LinearIndex` and `RgctxSlot.Decompose` lines of Left out. The lazy-fetch code size `buf_size = 64 + 16 * depth` at line 402 is kept unbounded; see the `LazyFetch.CreateRgctxLazyFetch` line of Left out.

## Model

| member | source | states |
|---|---|---|
| A64.BranchDisp | src/mono/mono/mini/tramp-arm64.c:80-83 | the low 26 bits sign-extended: the result lies in [-2^25, 2^25) and agrees with the word modulo 2^26 |
| A64.DecodeCallTarget | src/mono/mono/mini/tramp-arm64.c:67-86 | succeeds exactly when the word before `code` is mapped and has bit 31 set and bits 28..26 equal to 0b101 (so CBZ-like words with those bits pass too); the target is then that word's address plus 4 times the sign-extended 26-bit field, read as a signed 64-bit distance, which puts it within ±128 MiB and word-aligned relative to the site |
| A64.BranchTargetInRange | src/mono/mono/mini/tramp-arm64.c:73-85 | the signed distance from a BL to its decoded target is 4 times the sign-extended displacement, so every target lies in [site - 2^27, site + 2^27) and is a multiple of 4 away from the site |
| A64.EncodeBL | src/mono/mono/mini/tramp-arm64.c:28 | a BL can be encoded exactly when the target is in branch range; the word produced is a BL that the decoder accepts |
| A64.EncodeBLTarget | src/mono/mono/mini/tramp-arm64.c:28 | decoding the encoded BL gives back the requested target |
| A64.DecodeThenEncode | src/mono/mono/mini/tramp-arm64.c:73-85 | re-encoding a decoded BL gives back the same instruction word |
| A64.PatchCallsite | src/mono/mono/mini/tramp-arm64.c:25-30 | the patch succeeds exactly when the call site `code_ptr - 4` is mapped and the target is in range; it writes a BL there, the set of mapped words stays the same, and no other instruction word and no data word changes |
| A64.PatchThenDecode | src/mono/mono/mini/tramp-arm64.c:25-30 | after patching a mapped call site to an in-range `addr`, `mono_arch_get_call_target` reads `addr` back |
| Plt.PageOf | src/mono/mono/mini/tramp-arm64.c:51 | `& ~0xfff` gives the largest multiple of 4096 not above the value |
| Plt.SlotAddress | src/mono/mono/mini/tramp-arm64.c:51-61 | the slot address with the displacement widened before the shift: it equals the architectural ADRP result plus the ADD immediate plus 8 times the LDR immediate (proved by `Plt.SlotAddressFromAdrp`) |
| Plt.SlotAddressFromAdrp | src/mono/mono/mini/tramp-arm64.c:51-61 | the widened slot address is the page of `code` plus `disp` pages, plus the low parts |
| Plt.DecodeSlot | src/mono/mono/mini/tramp-arm64.c:44-61 | decoding succeeds exactly when the three words are mapped, the ADRP opcode, ADD shift and LDR opcode checks pass, and the page displacement is below 2^20; the ADRP checks come first, so a bad ADRP word is reported as such whatever follows it; the slot is then the ADRP result plus the ADD immediate plus 8 times the LDR immediate, with the displacement widened to 64 bits before the shift (the corrected line 51, see Findings) |
| Plt.AdrpMatchesArchitecture | src/mono/mono/mini/tramp-arm64.c:51 | the page of `code + disp * 4096` equals the ADRP result, the page of `code` plus `disp` pages |
| Plt.PatchPltEntry | src/mono/mono/mini/tramp-arm64.c:33-65 | succeeds exactly when decoding succeeds and the slot is mapped and non-null; afterwards the slot holds `addr`, every other data word is unchanged, and no instruction word changes; the slot is found with the widened shift of `Plt.DecodeSlot` |
| Plt.PltInfoOffset | src/mono/mono/mini/tramp-arm64.c:88-93 | the info offset is the fifth instruction word of the entry, and is available exactly when that word is mapped |
| Plt.EntryFields | src/mono/mono/mini/tramp-arm64.c:44-61 | the ADRP / ADD / LDR words of an entry that loads a slot pass every check the decoder makes, and carry that slot's page distance, the ADD part of its page offset and the LDR word offset |
| Plt.DecodeLaidOutEntry | src/mono/mono/mini/tramp-arm64.c:44-93 | decoding a laid-out entry gives back the slot it was built for, for every split of the page offset between the ADD immediate and the LDR offset, and its info word gives back the info offset |
| Plt.AsWrittenAgreesBelow2GiB | src/mono/mono/mini/tramp-arm64.c:51 | below 2^19 pages the 32-bit shift is exact, and the as-written slot address equals the intended one |
| Plt.SlotAddressAsWritten | src/mono/mono/mini/tramp-arm64.c:47-61 | the slot address as line 51 computes it, with `disp << 12` in a 32-bit signed `int` sign-extended into the 64-bit sum; compared with the widened one by the three `AsWritten` lemmas |
| Plt.AsWrittenOverflowsAt2GiB | src/mono/mono/mini/tramp-arm64.c:51 | at 2^19 pages, with the code at address 0, the intended slot is at 2 GiB but the as-written one is 2 GiB below zero |
| Plt.AsWrittenOff4GiB | src/mono/mono/mini/tramp-arm64.c:47-51 | for every accepted displacement from 2^19 up to 2^20 pages, the as-written slot address is exactly 4 GiB below the intended one |
| Frame.ClearLowBits | src/mono/mono/mini/tramp-arm64.c:23 | clearing the low k bits gives a multiple of 2^k that is at most the value and less than 2^k below it |
| Frame.AlignTo | src/mono/mono/mini/tramp-arm64.c:23 | `ALIGN_TO(v, 2^k)`, absent 64-bit overflow, is a multiple of 2^k that is at least v and less than v + 2^k |
| Frame.BackToBackDisjoint | src/mono/mono/mini/tramp-arm64.c:115-138 | areas laid out one after another by offset accumulation do not overlap and all end by the last one's end |
| Frame.GenericFrameLayout | src/mono/mono/mini/tramp-arm64.c:115-138 | the gregs (16), fregs (272), arg (336), result (344) and LMF (352) offsets strictly increase; `frame_size` holds the LMF and is less than one alignment above its end |
| Frame.GenericFrameFits | src/mono/mono/mini/tramp-arm64.c:115-138 | the frame block and the five areas do not overlap and all fit in `frame_size`, which is a multiple of the frame alignment |
| Frame.SdbFrameLayout | src/mono/mono/mini/tramp-arm64.c:529-537 | the context starts at 16; `frame_size` is aligned, holds the context, and is less than one alignment above its end |
| Frame.Chunks | src/mono/mono/mini/tramp-arm64.c:141-146 | the immediates emitted for a stack adjustment sum to the adjustment |
| Frame.SubChunks | src/mono/mono/mini/tramp-arm64.c:141-146 | the stack pointer after one `sub sp, sp, #c` per immediate; `Frame.SubChunksSubtractsSum` states the result |
| Frame.ChunksShape | src/mono/mono/mini/tramp-arm64.c:141-146 | each immediate is at most 256, all but the last are exactly 256, and there are ceil(imm/256) of them (one when imm is 0) |
| Frame.SubChunksSubtractsSum | src/mono/mono/mini/tramp-arm64.c:141-146 | subtracting the immediates one by one subtracts their sum modulo 2^64 |
| Frame.AddChunks | src/mono/mono/mini/tramp-arm64.c:167-173 | a register after one `add x, x, #c` per immediate; `Frame.AddChunksAddsSum` states the result |
| Frame.AddChunksAddsSum | src/mono/mono/mini/tramp-arm64.c:167-173 | adding the immediates one by one adds their sum modulo 2^64 |
| Frame.SubThenAdd | src/mono/mono/mini/tramp-arm64.c:141-173 | subtracting any list of immediates from sp and adding them back returns to sp, modulo 2^64 |
| Frame.CallerSpRecomputed | src/mono/mono/mini/tramp-arm64.c:141-173 | fp after the frame is allocated is sp - frame_size, and adding the same immediates to fp recomputes fp + frame_size, the caller's sp |
| Frame.FrameAddresses | src/mono/mono/mini/tramp-arm64.c:159-173 | an area `off` bytes above fp is at sp - frame_size + off, and both ways of recomputing the caller's sp from fp (the split immediates, or frame_size at once) give the entry sp |
| RgctxSlot.MakeSlot | src/mono/mono/mini/tramp-arm64.c:390-391 | a slot built from a flag and an index gives back that flag and index |
| RgctxSlot.LinearIndex | src/mono/mono/mini/tramp-arm64.c:390-393 | the slot index, offset by the mrgctx header words for an mrgctx slot; `RgctxSlot.Decompose` relates it to the depth and index found |
| RgctxSlot.LinearIndexAsWritten | src/mono/mono/mini/tramp-arm64.c:390-393 | line 393's index evaluated in a 32-bit `int`: the header words are added in two's complement, so the sum wraps; `RgctxSlot.LinearIndexAsWrittenAgrees` states when it equals the unbounded index |
| RgctxSlot.LinearIndexAsWrittenAgrees | src/mono/mono/mini/tramp-arm64.c:390-393 | the `int` of line 393 holds the linear index exactly when it is below 2^31, and is negative otherwise |
| RgctxSlot.LinearIndexWrapsAtTop | src/mono/mono/mini/tramp-arm64.c:390-393 | for the slot 0xFFFF_FFFF with an eight-word mrgctx header, the linear index is 2^31 + 7 but the `int` holds -(2^31 - 7) |
| RgctxSlot.Decompose | src/mono/mono/mini/tramp-arm64.c:390-400 | the depth and index found keep the mrgctx flag, the index fits its level (`index < size(depth) - 1`), and the slot's linear index (offset by the mrgctx header for mrgctx slots) is the capacity of the levels above plus the index |
| RgctxSlot.CapacityGrows | src/mono/mono/mini/tramp-arm64.c:394-400 | each deeper level starts at or after the end of every shallower one |
| RgctxSlot.LocationUnique | src/mono/mono/mini/tramp-arm64.c:394-400 | two locations that fit and denote the same linear index are equal, so the decomposition is the only one |
| LazyFetch.LinkOffsets | src/mono/mono/mini/tramp-arm64.c:423-429 | one dereference offset per level: the mrgctx header size at the first mrgctx level, 0 everywhere else |
| LazyFetch.FastPath | src/mono/mono/mini/tramp-arm64.c:411-444 | the emitted fast path: one more instruction pair per level; the only return to the caller is the last instruction, and it follows a null check of the value returned |
| LazyFetch.Exec | src/mono/mono/mini/tramp-arm64.c:411-444 | running the fast path changes r0 only on a hit, to the value returned; a fault ends on a load from an unmapped address |
| LazyFetch.Follow | src/mono/mono/mini/tramp-arm64.c:419-441 | the reference walk reads at most one address per offset and at least one when there is an offset, and a hit uses every offset |
| LazyFetch.NullJumpsBound | src/mono/mono/mini/tramp-arm64.c:402-446 | the fast path has depth + 1 null checks for mrgctx slots and depth + 2 for class slots, so `njumps <= depth + 2` holds |
| LazyFetch.FastPathFollows | src/mono/mono/mini/tramp-arm64.c:411-444 | the emitted fast path has the same outcome and reads the same addresses as the reference walk from r0 along the chain offsets, and changes r0 only to return the value found |
| LazyFetch.FollowChain | src/mono/mono/mini/tramp-arm64.c:411-444 | the walk stops at the first null or unmapped word: every word read before the last is mapped and non-null, the outcome is the slow path exactly when the last word read is null and a fault exactly when it is unmapped, and otherwise the value is the final slot's word; nothing past the first null is read |
| LazyFetch.NullAtStep | src/mono/mono/mini/tramp-arm64.c:419-441 | a null read at step i sends the walk to the slow path with exactly i + 1 reads made |
| LazyFetch.ChainOffsetsShape | src/mono/mono/mini/tramp-arm64.c:411-437 | a class slot starts with the vtable's rgctx field; after that come one offset per level and finally the slot's word, at 8 * (index + 1) |
| LazyFetch.CreateRgctxLazyFetch | src/mono/mono/mini/tramp-arm64.c:378-462 | the generator's location satisfies the decomposition contract; `buf_size = 64 + 16 * depth`, the null jumps fit the `depth + 2` array, the slow path gets the slot number, and for every memory the fast path behaves as the reference walk |
| GenericTrampoline.Enter | src/mono/mono/mini/tramp-arm64.c:140-218 | the frame sits frame_size below the caller's sp; every register but fp and sp is saved; the LMF records the caller's fp, the recomputed sp (equal to the caller's), the return address (0 for JUMP), the previous head and the slot address, and becomes the new head with no other word changed; the handler gets the saved-register address, the caller (0 for JUMP), x0 or ip1 according to HAS_ARG, and 0 |
| GenericTrampoline.PushLmf | src/mono/mono/mini/tramp-arm64.c:182-200 | the thread's LMF head now points to the trampoline's LMF, the set of mapped words is the same, and no other word changes |
| GenericTrampoline.PopLmf | src/mono/mono/mini/tramp-arm64.c:231-241 | the thread's LMF head, which must be mapped, is set back to the record's previous LMF; the set of mapped words stays the same and no other word changes |
| GenericTrampoline.PopUndoesPush | src/mono/mono/mini/tramp-arm64.c:182-241 | popping a just-pushed LMF whose previous field was read from the head gives back the memory as it was before the push |
| GenericTrampoline.Leave | src/mono/mono/mini/tramp-arm64.c:246-300 | a non-zero checkpoint result, and only that, throws: control goes to the address read from the throw-exception variable with the exception and the caller's lr, sp and fp, faulting only when that variable is unmapped; otherwise x0..x8 and the rgctx register come back as the handler left them, only RGCTX_LAZY_FETCH returns to its caller (with the result in x0), every other kind branches to the result, and lr, sp, fp and the float argument registers are the caller's |
| GenericTrampoline.Run | src/mono/mono/mini/tramp-arm64.c:97-305 | a run completes exactly when the LMF slot is mapped on entry and still mapped when the handler returns, and, if the checkpoint reports an exception, the throw variable is mapped; the handler runs with the trampoline's LMF at the head of the list; the checkpoint runs on memory whose head is already restored to its entry value, and its result alone decides between throwing and resuming |
| GenericTrampoline.JumpNeverReturns | src/mono/mono/mini/tramp-arm64.c:175-208 | a JUMP trampoline records pc 0 in the LMF, passes caller 0 to its handler, and never returns to its caller |
| GenericTrampoline.CallerFrameRestored | src/mono/mono/mini/tramp-arm64.c:231-300 | on every exit the caller's lr, sp and fp are back, and the thread's LMF head is what it was on entry |
| SdbTrampoline.Run | src/mono/mono/mini/tramp-arm64.c:517-597 | the context is assembled from the live registers, the frame block and the sp recomputed from fp, and is equal to the entry registers with pc = lr; on exit, every non-scratch register but lr and sp comes from the agent's context, lr and the resume pc are the context's pc, and sp is the caller's whatever the agent wrote |
| SdbTrampoline.Capture | src/mono/mono/mini/tramp-arm64.c:553-569 | the context holds every register but fp and sp from the live state, the caller's fp from the frame block, the recomputed caller sp, and the return address from the frame block as pc |
| SdbTrampoline.CaptureIsEntry | src/mono/mono/mini/tramp-arm64.c:548-569 | capturing after the frame is set up, when the recomputed sp is the entry sp, gives exactly the entry registers with pc = lr |
| SdbTrampoline.CaptureInFrame | src/mono/mono/mini/tramp-arm64.c:541-569 | for every frame size, the context captured below the caller's sp is the entry state |
| SdbTrampoline.ResumeRegs | src/mono/mono/mini/tramp-arm64.c:586-597 | on exit lr is the context's pc, sp is the caller's, and every other non-scratch register comes from the context |
| SdbTrampoline.UntouchedContextResumes | src/mono/mono/mini/tramp-arm64.c:550-595 | an agent that leaves the context alone makes the trampoline transparent: it resumes at the caller's return address with every non-scratch register as on entry |

## Left out

- Instruction emission. Calls such as `arm_*`, `mono_arm_emit_*` and `mono_arm_patch` are in `arm64-codegen.h` and `mini-arm64.c`, which are not part of this model. Emitted code is an abstract operation list (`LazyFetch.FetchOp`) or a direct transition over the machine state. For the BL patch, the architectural BL encoding stands in for `mono_arm_patch`.
- The ADRP / ADD / LDR words of a PLT entry (`Plt.PltEntryWords`). `arch_emit_plt_entry` in `aot-compiler.c` is not part of this model. The words are built from the A64 encodings, with x16 as in the decoder's comments.
- Code-memory reservation, `mono_arch_flush_icache`, `mono_tramp_info_create`, unwind ops and AOT symbol names (`g_strdup_printf`). These are I/O or calls to code outside this file. The reserved sizes are modelled only as `buf_size` in the lazy-fetch generator. The `code - buf` assertions against 768 and 512 bytes, and the one against `buf_size` at line 466, are not modelled.
- `mono_arch_create_specific_trampoline`, `mono_arch_get_unbox_trampoline`, `mono_arch_get_static_rgctx_trampoline` and `mono_arch_create_general_rgctx_lazy_fetch_trampoline`. They only emit fixed instruction sequences through the emitter.
- The `DISABLE_JIT` stubs. They only abort.
- Thread-locality and concurrent generation. One LMF list is modelled explicitly, through the address `mono_get_lmf_addr` returns.
- A64.PatchCallsite: refusing a target out of branch range (None) is a choice of the model. `mono_arm_patch` is in `mini-arm64.c`, which is not part of this model, and it does not report a refusal to this caller.
- Byte-level memory. Instruction words and data words live in separate cell maps, so a store of a data word never aliases an instruction word.
- The callee-saved registers that `MONO_ARCH_LMF_REGS` stores in the LMF. That register set is defined in `mini-arm64.h`, which is not part of this model. The LMF record keeps only the fields this file sets: previous, lmf_addr, pc, caller fp and caller sp.
- The handler writing into the trampoline's own frame, other than the saved-register array it is given. The LMF record and the frame block are values, not memory cells.
- Saving the float registers as 128 bits (the FIXME at line 123). Like the code, the model saves them as 64-bit words.
- The slow path after a lazy-fetch miss, and any caching it does. It belongs to the specific trampoline and the C handler. Whether later fast-path walks see a value it stored is therefore not stated.
- SdbTrampoline.Run: the exit values of ip0 and ip1 are unspecified. Tearing down a frame larger than the 504 bytes that one `ldp` can pop uses them as temporaries, and `mono_arm_emit_destroy_frame` is not part of this model.
- Frame.AlignTo: states its result only when `v + 2^k` does not overflow 64 bits. This is the case for every frame size here, since the platform sizes are below 2^16.
- RgctxSlot.LinearIndex: the index is unbounded, where line 393 adds the header words in a 32-bit `int` that wraps negative for mrgctx slots within the header size of 2^31. `RgctxSlot.LinearIndexAsWritten` and `RgctxSlot.LinearIndexAsWrittenAgrees` state when the two agree; slot numbers that high are not modelled further.
- RgctxSlot.Decompose: the loop of lines 394-400 runs on the unbounded linear index. For a slot whose `int` index at line 393 has wrapped negative, the source stops at depth 0 with a negative index; the model does not follow that path.
- LazyFetch.CreateRgctxLazyFetch: the location, `buf_size = 64 + 16 * depth` and the fast path are stated over unbounded integers. In the source, both the index of line 393 and `buf_size` at line 402 are `int`s, and `buf_size` overflows once the depth passes about 2^27, which array sizes near 2 allow for slot indices that high.
- RgctxSlot.MakeSlot: the layout of `MONO_RGCTX_SLOT_IS_MRGCTX` and `MONO_RGCTX_SLOT_INDEX` is in `mini.h`, which is not part of this model. The model assumes the flag is bit 31 and the index is the low 31 bits.

## Findings

| source | as written | input that shows it | evidently intended | confidence | as-written member | corrected member |
|---|---|---|---|---|---|---|
| src/mono/mono/mini/tramp-arm64.c:47-51 | `disp` is an `int`, and `disp << 12` is evaluated in 32 bits. The check at line 49 lets page displacements up to 2^20 - 1 through, so for disp ≥ 2^19 the shift overflows: this is undefined behaviour in C. On the usual two's-complement targets it wraps negative and is sign-extended when added to the `guint64` code address. | an entry at address 0 whose ADRP displacement is 2^19 pages (GOT 2 GiB away): the intended slot is 0x8000_0000, the as-written one is 2^64 - 2^31 | the displacement widened to 64 bits before the shift, so that every accepted displacement up to 4 GiB reaches its slot | medium; not executed | Plt.AsWrittenOverflowsAt2GiB | Plt.DecodeLaidOutEntry |

`Plt.SlotAddressAsWritten` is the line as written. `Plt.AsWrittenOff4GiB` shows that it lands exactly 4 GiB low for every displacement from 2^19 up to 2^20 pages. `Plt.AsWrittenAgreesBelow2GiB` shows that it is exact below 2^19 pages. `Plt.SlotAddress` is the corrected computation, and `Plt.DecodeSlot` and `Plt.PatchPltEntry` use it. `Plt.DecodeLaidOutEntry` proves that the corrected decoder finds the right slot for every displacement the assertion at line 49 accepts.
