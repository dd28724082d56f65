# Singlepass AArch64 machine state and runtime globals, in Dafny

This project models two parts of a WebAssembly runtime.

**The AArch64 back end of the single-pass compiler** (`MachineARM64` in
`lib/compiler-singlepass/src/machine_arm64.rs`). This is the state the code
generator keeps while it emits one function:

- the registers in use (`used_gprs`, `used_simd`);
- the `pushed` flag, which says whether the last push filled the upper half
  of a 16-byte stack slot;
- the trap table;
- the instruction-address map and the current source location;
- the assembler.

The assembler is an append-only sequence of abstract instructions. Each
instruction is 4 bytes, so the code offset is `4 * |code|`. A small evaluator
(`Isa.Exec`) runs an instruction sequence on a machine state: X0..X30, SP,
V0..V31, a word-addressed memory and the carry/zero flags. It stops with a
branch to a label, or gets stuck on an instruction form that has no meaning.

The model covers:

- the register allocator (`pick_*`, `acquire_*`, `release_*`, `reserve_*`);
- single and paired push/pop and their parity discipline;
- saving and restoring the used registers;
- the function prologue and epilogue;
- the frame layout of locals and parameters;
- the scaled-offset legality test and the instruction form `move_location`
  chooses;
- stack adjustment;
- the trap table and address map bookkeeping;
- relocations for `move_with_reloc`;
- the bounds-checked memory access `memory_op` and the five `i32_load*`
  wrappers;
- `emit_relaxed_binop` and `emit_binop_i32`/`emit_binop_i64`.

Each emitting operation is a method of the class `Machine.MachineARM64`. Its
contract ties the code it appends to a pure "code" function, which fails
where the source panics. Lemmas then run that code in the evaluator and state
what it does:

- which stack slots a push writes;
- that N pushes followed by N pops restore every register;
- that the memory guard branches to `heap_access_oob` exactly when the access
  leaves linear memory;
- that a binop leaves the set of used registers as it found it.

The 16-byte stack alignment and the X0..X7 argument registers follow the
Procedure Call Standard for the Arm 64-bit Architecture (AAPCS64): section
6.4.5.1 (universal stack constraints) and section 6.8 (parameter passing).
The scaled and unscaled immediate forms follow the LDR/STR (immediate,
unsigned offset) and LDUR/STUR encodings of the Arm Architecture Reference
Manual for A-profile.

**The runtime's global variables** (`Global` in
`lib/runtime-core/src/global.rs`). A global has a descriptor (mutability and
value type) and a 64-bit storage cell that all its clones share. The cell is
the class `Globals.LocalGlobal`, and a `Globals.Global` holds a reference to
it, so `clone` aliases the cell. `set` is gated by mutability and by the value
type. `get` decodes the word at the declared type.

Files:

- `wrappers.dfy`: `Option`, `Result`, the panic kinds.
- `locations.dfy`: registers, `Location`, `Size`, 32-bit casts.
- `isa.dfy`: instructions and the evaluator.
- `allocator.dfy`: first-free register choice.
- `frame.dfy`: `offset_is_ok`, locals, parameters.
- `stack.dfy`: push/pop, prologue and epilogue.
- `moves.dfy`: `move_location`, stack adjustment, `move_local`,
  `push_location_for_native`.
- `binops.dfy`: `emit_relaxed_binop`, `emit_binop_*`.
- `memory_access.dfy`: `memory_op`, `i32_load*`.
- `traps.dfy`: trap table, trap records, relocations.
- `machine.dfy`: the `MachineARM64` class.
- `global.dfy`: `Global`.

## Model

| member | source | states |
|---|---|---|
| Allocator.FirstFreeSpec | lib/compiler-singlepass/src/machine_arm64.rs:576-585 | the choice is None exactly when every candidate is in use; otherwise it is the first candidate not in use |
| Allocator.Pick | lib/compiler-singlepass/src/machine_arm64.rs:562-585 | the linear search of `pick_gpr`/`pick_temp_gpr`/`pick_simd`/`pick_temp_simd` returns the first free candidate, which is a candidate and not in use |
| Allocator.SuccessiveAcquisitionsDiffer | lib/compiler-singlepass/src/machine_arm64.rs:587-593 | a second `acquire_temp_gpr` never returns the register the first one returned, nor one that was in use |
| Allocator.TempPoolIsolated | lib/compiler-singlepass/src/machine_arm64.rs:576-585 | the temporary pool X0..X7 holds no local register, nor X26, X27, X28 or SP/XZR |
| Frame.ScaleShift | lib/compiler-singlepass/src/machine_arm64.rs:446-451 | the shift k of a size satisfies 8 * 2^k == the size in bits |
| Frame.OffsetIsOkMeansEncodable | lib/compiler-singlepass/src/machine_arm64.rs:442-459 | `offset_is_ok` holds iff the offset is imm12 * 2^k for some 0 <= imm12 < 4096, i.e. it fits the scaled unsigned-offset form |
| Frame.GetLocalLocation | lib/compiler-singlepass/src/machine_arm64.rs:845-863 | a local is in memory iff `is_local_on_stack`; then it is addressed from X27; otherwise it is one of X18..X25 |
| Frame.LocalLocationsDistinct | lib/compiler-singlepass/src/machine_arm64.rs:850-863 | distinct locals get distinct locations, and stack offsets are negative and decrease by at least 8 per index |
| Frame.GetParamLocation | lib/compiler-singlepass/src/machine_arm64.rs:890-904 | parameter idx is a register iff idx < 8, and then it is X(idx) |
| Frame.ParamSlotsAboveSavedPair | lib/compiler-singlepass/src/machine_arm64.rs:890-904 | stack parameters do not depend on the calling convention, sit at X27+16 or above, and increase by at least 8 per index |
| Frame.LocalOnStack | lib/compiler-singlepass/src/machine_arm64.rs:762-764 | `local_on_stack(o)` is the memory slot at X27 - o |
| Locations.IndicesInjective | lib/compiler-singlepass/src/machine_arm64.rs:543-548 | `index_from_gpr` and `index_from_simd` are injective and never collide |
| Stack.PushExec | lib/compiler-singlepass/src/machine_arm64.rs:461-481 | a push stores at SP+8 when `pushed`, else lowers SP by 16 and stores at the new SP |
| Stack.PopExec | lib/compiler-singlepass/src/machine_arm64.rs:499-517 | a pop loads SP+0 and raises SP by 16 when `pushed`, else loads SP+8 and leaves SP |
| Stack.DoublePushIsTwoPushes | lib/compiler-singlepass/src/machine_arm64.rs:482-498 | the paired `stp` path and the fallback have the same effect as two single pushes |
| Stack.DoublePopIsTwoPops | lib/compiler-singlepass/src/machine_arm64.rs:518-534 | for two different registers, the paired `ldp` path and the fallback have the same effect as popping the second operand, then the first; `emit_double_pop` does not rule out equal registers, for which an A64 `ldp` is unpredictable |
| Stack.PushAllStacks | lib/compiler-singlepass/src/machine_arm64.rs:461-481 | any run of pushes lays the values out as a stack of 8-byte slots, without touching registers |
| Stack.ThreePushesUseTwoSlots | lib/compiler-singlepass/src/machine_arm64.rs:461-481 | three pushes from `pushed = false` lower SP by exactly two 16-byte slots |
| Stack.PushAllThenPopAllRestores | lib/compiler-singlepass/src/machine_arm64.rs:461-517 | N pushes, then N pops in reverse order, restore every register, SP and the stack below |
| Stack.PushAllThenPopAllAtParity | lib/compiler-singlepass/src/machine_arm64.rs:609-620 | the same holds from any starting depth of the same parity, which is how `push_used_gpr`/`pop_used_gpr` run |
| Stack.PrologSavesFrame | lib/compiler-singlepass/src/machine_arm64.rs:1052-1059 | the prologue saves X27 and X30 in the new 16-byte slot, sets X27 to the new SP, and leaves other registers |
| Stack.PrologPushesPair | lib/compiler-singlepass/src/machine_arm64.rs:482-498 | with `pushed` false the prologue's pair is one pre-indexed `stp` storing X27, X30 at SP-16, SP-8 |
| Stack.PrologPushesSingly | lib/compiler-singlepass/src/machine_arm64.rs:482-498 | with `pushed` true the pair is two single pushes, which together still lower SP by 16 |
| Stack.EpilogRestoresFrame | lib/compiler-singlepass/src/machine_arm64.rs:1061-1068 | the epilogue sets SP from X27, reloads X27 and X30 from the saved slot, and leaves other registers |
| Stack.EpilogPopsPair | lib/compiler-singlepass/src/machine_arm64.rs:518-534 | with `pushed` false the pop is one post-indexed `ldp` |
| Stack.EpilogPopsSingly | lib/compiler-singlepass/src/machine_arm64.rs:518-534 | with `pushed` true the pop is two single pops in reverse order |
| Stack.FrameRestoredAfterBody | lib/compiler-singlepass/src/machine_arm64.rs:1052-1068 | prologue, a body that keeps X27 and the saved slot, then the epilogue restore X27, X30 and SP |
| Moves.MoveLocationOutcome | lib/compiler-singlepass/src/machine_arm64.rs:906-989 | `move_location` succeeds iff the pair is register/immediate into register, register into memory, or memory into a GPR, with a temporary when the offset is far; other pairs panic |
| Moves.MoveFormsEncodable | lib/compiler-singlepass/src/machine_arm64.rs:906-989 | every emitted load or store fits its form (scaled imm12, or unscaled -256 < off < 256), and the far path takes exactly 3 instructions |
| Moves.MoveToMemory | lib/compiler-singlepass/src/machine_arm64.rs:908-937 | a register stored to Memory(addr, off) writes its value at addr+off and changes at most the temporary, provided neither the register nor `addr` is the temporary `pick_temp_gpr` returns |
| Moves.MoveFromMemory | lib/compiler-singlepass/src/machine_arm64.rs:950-978 | a load from Memory(addr, off) puts the word at addr+off in the destination and changes at most it and the temporary, provided `addr` is not the temporary `pick_temp_gpr` returns |
| Moves.MoveToRegister | lib/compiler-singlepass/src/machine_arm64.rs:908-909 | a register or immediate moved into a register is a single `mov` that copies the value truncated to the size |
| Moves.ReturnFloatCopiesX0 | lib/compiler-singlepass/src/machine_arm64.rs:1086-1088 | `emit_function_return_float` copies X0 into V0 |
| Moves.SturAsWrittenStoresNoRegister | lib/compiler-singlepass/src/machine_arm64.rs:913-914 | as written, the `stur` form names the memory operand as the data register and cannot run |
| Moves.FarLoadAsWrittenLoadsNoRegister | lib/compiler-singlepass/src/machine_arm64.rs:956-976 | as written, the far load names the memory source as its destination and cannot run |
| Moves.StackCodeOutcome | lib/compiler-singlepass/src/machine_arm64.rs:767-799 | stack adjustment needs a temporary iff delta >= 256; then it is two instructions, else one |
| Moves.AdjustStackLowersSp | lib/compiler-singlepass/src/machine_arm64.rs:767-782 | `adjust_stack(delta)` lowers SP by exactly delta and changes no other register but the temporary |
| Moves.RestoreStackRaisesSp | lib/compiler-singlepass/src/machine_arm64.rs:784-817 | `restore_stack`/`pop_stack_locals` raise SP by exactly delta |
| Moves.AdjustThenRestoreBalances | lib/compiler-singlepass/src/machine_arm64.rs:767-799 | adjusting then restoring by the same delta leaves SP and memory as they were |
| Moves.RestoreSavedAreaSetsSp | lib/compiler-singlepass/src/machine_arm64.rs:1009-1029 | `restore_saved_area` sets SP to X27 minus the offset; a negative offset is cut to its low byte by the `as u8` cast |
| Moves.MoveLocalStores | lib/compiler-singlepass/src/machine_arm64.rs:865-882 | `move_local` stores the register into the slot `local_on_stack` names |
| Moves.MoveLocalEncodable | lib/compiler-singlepass/src/machine_arm64.rs:865-882 | every store `move_local` emits fits its encoding |
| Moves.ZeroLocationZeroes | lib/compiler-singlepass/src/machine_arm64.rs:832-837 | `zero_location` accepts only a GPR and sets it to 0 |
| Moves.PushForNativeStacks | lib/compiler-singlepass/src/machine_arm64.rs:819-829 | `push_location_for_native` pushes the immediate or the register value as one more stack slot |
| Binops.RelaxedBinopOutcome | lib/compiler-singlepass/src/machine_arm64.rs:48-96 | unlisted (src, dst) pairs panic; accepted pairs fail only for lack of a temporary; GPR into GPR always succeeds |
| Binops.RelaxedBinopWritesFreeTemps | lib/compiler-singlepass/src/machine_arm64.rs:48-96 | the emitted code writes only the destination register and temporaries that were free on entry |
| Binops.RelaxedRegIntoReg | lib/compiler-singlepass/src/machine_arm64.rs:56-58 | GPR into GPR is the single operation, computing dst := dst op src |
| Binops.RelaxedImmIntoReg | lib/compiler-singlepass/src/machine_arm64.rs:76-84 | an immediate into a GPR goes through a temporary and computes dst := dst op imm |
| Binops.RelaxedMemIntoMem | lib/compiler-singlepass/src/machine_arm64.rs:59-72 | memory into memory stores [dst] op [src] at dst, using only free temporaries (corrected) |
| Binops.RelaxedMemIntoMemAsWrittenDropsResult | lib/compiler-singlepass/src/machine_arm64.rs:59-72 | as written, memory into memory leaves memory unchanged: the result never reaches dst |
| Binops.BinopOutcome | lib/compiler-singlepass/src/machine_arm64.rs:98-132 | `emit_binop_i32`/`i64` succeed iff loc_a == ret and the relaxed binop does; otherwise they fail on the missing temporary or the unimplemented `emit_relaxed_mov` |
| Binops.BinopAdd32Regs | lib/compiler-singlepass/src/machine_arm64.rs:1250-1252 | `emit_binop_add32` on registers computes (d + a) mod 2^32 into d |
| Binops.BinopAdd32Imm | lib/compiler-singlepass/src/machine_arm64.rs:1250-1252 | `emit_binop_add32` with an immediate computes (d + imm) mod 2^32 into d |
| MemoryAccess.GuardIsWasmBoundsCheck | lib/compiler-singlepass/src/machine_arm64.rs:213-282 | for a memory of at most 4 GiB the checked guard traps iff address + offset + size > bound, else passes base + address + offset |
| MemoryAccess.GuardPassIsInBounds | lib/compiler-singlepass/src/machine_arm64.rs:274-296 | a passing checked access lies inside [base, base + bound) and is aligned when alignment is checked |
| MemoryAccess.GuardEdgeExample | lib/compiler-singlepass/src/machine_arm64.rs:274-282 | with bound 65536 and size 4, address 65532 passes and 65533 traps |
| MemoryAccess.GuardUncheckedTrapsOnCarry | lib/compiler-singlepass/src/machine_arm64.rs:252-264 | without a bounds check the guard traps only on a nonzero offset whose 32-bit addition carries |
| MemoryAccess.MemoryOpShape | lib/compiler-singlepass/src/machine_arm64.rs:186-298 | the three temporaries are the first three free ones, and the code is indirection, base/bound, address and checks, then the callback on `tmp_addr` |
| MemoryAccess.MemoryOpGuard | lib/compiler-singlepass/src/machine_arm64.rs:174-296 | the emitted guard branches to `heap_access_oob` exactly when the reference decision traps; otherwise `tmp_addr` holds the machine address and only free temporaries change (corrected) |
| MemoryAccess.MemoryOpFailsOnlyForTemps | lib/compiler-singlepass/src/machine_arm64.rs:186-206 | `memory_op` panics only when it runs out of temporaries (corrected) |
| MemoryAccess.ImportedAsWrittenPanics | lib/compiler-singlepass/src/machine_arm64.rs:189-197 | as written, every access to an imported memory panics in `emit_relaxed_binop` |
| MemoryAccess.SmallSizeAsWrittenStuck | lib/compiler-singlepass/src/machine_arm64.rs:226-232 | as written, a checked access of fewer than 256 bytes reaches a subtraction into an immediate |
| MemoryAccess.LargeSizeAsWrittenRuns | lib/compiler-singlepass/src/machine_arm64.rs:233-243 | as written, a size of 256 or more makes the size the memory base of the access |
| MemoryAccess.ValueSize | lib/compiler-singlepass/src/machine_arm64.rs:1358-1477 | the `i32_load*` value sizes are 4, 1, 1, 2, 2 bytes |
| MemoryAccess.I32LoadGuard | lib/compiler-singlepass/src/machine_arm64.rs:1358-1381 | a checked `i32_load*` traps iff address + offset + size > bound, else loads from base + address + offset |
| MemoryAccess.I32LoadAsWrittenStuck | lib/compiler-singlepass/src/machine_arm64.rs:1358-1477 | as written, every checked `i32_load*` from a local memory cannot run past its guard |
| Traps.MarkRangeSpec | lib/compiler-singlepass/src/machine_arm64.rs:706-711 | marking [b, e) maps every offset in it to the code and leaves other entries alone |
| Traps.MarkRangeSplit | lib/compiler-singlepass/src/machine_arm64.rs:706-711 | marking [a, b) then [b, c) is marking [a, c) |
| Traps.AscendingSpec | lib/compiler-singlepass/src/machine_arm64.rs:745-755 | the ordered key list is strictly increasing and holds exactly the table's offsets |
| Traps.Records | lib/compiler-singlepass/src/machine_arm64.rs:745-755 | each record holds the offset cast to u32 and its trap code |
| Traps.CollectedInOrder | lib/compiler-singlepass/src/machine_arm64.rs:745-755 | one record per entry, with offsets strictly increasing, and every entry is reported |
| Traps.RelocsPointAtMovks | lib/compiler-singlepass/src/machine_arm64.rs:1884-1921 | four relocations Movw0..Movw3 with the same target and addend 0, each at the offset of the `movk` of X26 it patches |
| Traps.PatchedMovksLoadAddress | lib/compiler-singlepass/src/machine_arm64.rs:1884-1921 | once the four 16-bit fields are patched in, the `movk` chain loads the 64-bit target into X26 |
| Machine.UsedGprListExact | lib/compiler-singlepass/src/machine_arm64.rs:554-556 | `get_used_gprs` lists exactly the registers in use, each once |
| Machine.UsedSimdList | lib/compiler-singlepass/src/machine_arm64.rs:558-560 | `get_used_simd` lists only registers in use, none twice |
| Machine.UsedSimdListExact | lib/compiler-singlepass/src/machine_arm64.rs:558-560 | `get_used_simd` lists every register in use and no other, each once |
| Machine.PushUsedSimdStores | lib/compiler-singlepass/src/machine_arm64.rs:664-675 | run, `push_used_simd`'s code lowers SP by 8 per register in use and leaves the i-th one at the new SP + 8i; memory outside those slots, the flags and every register but SP and the temporary keep their values |
| Machine.PushThenPopUsedSimdRestores | lib/compiler-singlepass/src/machine_arm64.rs:664-699 | `push_used_simd` then `pop_used_simd` give back every NEON register and SP, and keep memory at and above SP, the flags and every general-purpose register but the two temporaries |
| Machine.MachineARM64.constructor | lib/compiler-singlepass/src/machine_arm64.rs:37-47 | empty code, register sets, trap table and address map; source location 0; `pushed` false |
| Machine.MachineARM64.PickGpr | lib/compiler-singlepass/src/machine_arm64.rs:562-573 | the first of the pick pool not in use |
| Machine.MachineARM64.PickTempGpr | lib/compiler-singlepass/src/machine_arm64.rs:576-585 | the first of X0..X7 not in use |
| Machine.MachineARM64.PickSimd | lib/compiler-singlepass/src/machine_arm64.rs:623-632 | the first of V8..V12 not in use |
| Machine.MachineARM64.PickTempSimd | lib/compiler-singlepass/src/machine_arm64.rs:635-644 | the first of V0..V7 not in use |
| Machine.MachineARM64.AcquireTempGpr | lib/compiler-singlepass/src/machine_arm64.rs:587-593 | returns the first free temporary and adds exactly it; with none free, returns None and changes nothing |
| Machine.MachineARM64.ReleaseGpr | lib/compiler-singlepass/src/machine_arm64.rs:595-597 | requires the register to be in use and removes exactly it |
| Machine.MachineARM64.ReserveUnusedTempGpr | lib/compiler-singlepass/src/machine_arm64.rs:599-603 | requires the register to be free, adds it and returns it |
| Machine.MachineARM64.ReserveGpr | lib/compiler-singlepass/src/machine_arm64.rs:605-607 | adds the register to the used set |
| Machine.MachineARM64.AcquireTempSimd | lib/compiler-singlepass/src/machine_arm64.rs:647-653 | the SIMD mirror of `acquire_temp_gpr` over V0..V7 |
| Machine.MachineARM64.ReserveSimd | lib/compiler-singlepass/src/machine_arm64.rs:655-657 | adds the register to the used SIMD set |
| Machine.MachineARM64.ReleaseSimd | lib/compiler-singlepass/src/machine_arm64.rs:660-662 | requires membership and removes exactly that register |
| Machine.MachineARM64.EmitPush | lib/compiler-singlepass/src/machine_arm64.rs:461-481 | succeeds iff the operand is a 64-bit GPR or SIMD register; appends the push for the current parity and flips `pushed` |
| Machine.MachineARM64.EmitPop | lib/compiler-singlepass/src/machine_arm64.rs:499-517 | the same for pop |
| Machine.MachineARM64.EmitDoublePush | lib/compiler-singlepass/src/machine_arm64.rs:482-498 | appends the paired or fallback code; `pushed` ends as it started |
| Machine.MachineARM64.EmitDoublePop | lib/compiler-singlepass/src/machine_arm64.rs:518-534 | the same for the paired pop |
| Machine.MachineARM64.PushUsedGpr | lib/compiler-singlepass/src/machine_arm64.rs:609-614 | pushes every used GPR in list order from the current parity, and leaves `pushed` at the parity after them |
| Machine.MachineARM64.PopUsedGpr | lib/compiler-singlepass/src/machine_arm64.rs:615-620 | pops the same registers in reverse order, undoing the parity change |
| Machine.MachineARM64.PushUsedSimd | lib/compiler-singlepass/src/machine_arm64.rs:664-675 | appends `adjust_stack(8 n)` and one store per used NEON register, the code `Machine.PushUsedSimdStores` runs; fails only when `adjust_stack` needs a missing temporary |
| Machine.MachineARM64.PopUsedSimd | lib/compiler-singlepass/src/machine_arm64.rs:676-699 | appends the reloads and the SP restore, the code that `Machine.PushThenPopUsedSimdRestores` shows undoes `PushUsedSimd` |
| Machine.MachineARM64.MoveLocation | lib/compiler-singlepass/src/machine_arm64.rs:906-989 | appends the chosen form, or fails where the source panics; the used set is never modified (corrected: the `stur` arm stores `source` and the far load targets `dest`) |
| Machine.MachineARM64.AdjustStack | lib/compiler-singlepass/src/machine_arm64.rs:767-782 | appends the SP decrement; the used set is never modified |
| Machine.MachineARM64.RestoreStack | lib/compiler-singlepass/src/machine_arm64.rs:784-817 | appends the SP increment; the used set is never modified |
| Machine.MachineARM64.RestoreSavedArea | lib/compiler-singlepass/src/machine_arm64.rs:1009-1029 | appends the SP reset and leaves the used set as on entry |
| Machine.MachineARM64.PushLocationForNative | lib/compiler-singlepass/src/machine_arm64.rs:819-829 | requires X4 free for an Imm64; appends the push and flips `pushed`, and leaves the used set as on entry |
| Machine.MachineARM64.EmitFunctionProlog | lib/compiler-singlepass/src/machine_arm64.rs:1052-1059 | appends the prologue for the current parity and keeps `pushed` |
| Machine.MachineARM64.EmitFunctionEpilog | lib/compiler-singlepass/src/machine_arm64.rs:1061-1068 | appends the epilogue and keeps `pushed` |
| Machine.MachineARM64.EmitRelaxedBinop | lib/compiler-singlepass/src/machine_arm64.rs:48-96 | appends the relaxed-binop code or fails where the source panics; on success `used_gprs` equals its entry value (corrected: memory into memory stores its result) |
| Machine.MachineARM64.EmitBinop | lib/compiler-singlepass/src/machine_arm64.rs:98-132 | the same for `emit_binop_i32`/`i64` |
| Machine.MachineARM64.SetSrcloc | lib/compiler-singlepass/src/machine_arm64.rs:702-704 | sets the source location and nothing else |
| Machine.MachineARM64.MarkInstructionAddressEnd | lib/compiler-singlepass/src/machine_arm64.rs:727-733 | appends (srcloc, begin, offset - begin) to the address map |
| Machine.MachineARM64.MarkAddressRangeWithTrapCode | lib/compiler-singlepass/src/machine_arm64.rs:706-711 | marks [begin, end) and appends one address-map entry |
| Machine.MachineARM64.MarkAddressWithTrapCode | lib/compiler-singlepass/src/machine_arm64.rs:714-718 | maps the current offset and appends an entry of length 0 |
| Machine.MachineARM64.MarkInstructionWithTrapCode | lib/compiler-singlepass/src/machine_arm64.rs:720-724 | maps and returns the current offset; the address map is untouched |
| Machine.MachineARM64.InsertStackoverflow | lib/compiler-singlepass/src/machine_arm64.rs:736-742 | maps offset 0 to StackOverflow and appends (srcloc, 0, offset) |
| Machine.MachineARM64.CollectTrapInformation | lib/compiler-singlepass/src/machine_arm64.rs:745-755 | the loop returns the records of the table in increasing offset order |
| Machine.MachineARM64.MoveWithReloc | lib/compiler-singlepass/src/machine_arm64.rs:1884-1921 | appends four `movk` of X26 and the four relocations pointing at them |
| Machine.MachineARM64.MemoryOp | lib/compiler-singlepass/src/machine_arm64.rs:174-303 | appends guard then access; `used_gprs` ends as it started; exactly the access bytes are marked HeapAccessOutOfBounds, with one address-map entry (corrected: imported memories load the pointer, and the bound and size arithmetic use the intended registers) |
| Machine.MachineARM64.I32Load | lib/compiler-singlepass/src/machine_arm64.rs:1358-1477 | the same for the five loads: one load instruction from `tmp_addr`, 4 bytes marked (corrected, through `MemoryOp`) |
| Globals.Decode | lib/runtime-core/src/global.rs:68-77 | the decoded value has the declared type |
| Globals.DecodeEncode | lib/runtime-core/src/global.rs:26-34 | decoding the stored word at the value's own type gives the value back, for all four types |
| Globals.EncodeSignExtends | lib/runtime-core/src/global.rs:29 | an i32 is stored sign-extended: low half its 32-bit pattern, high half all ones iff negative |
| Globals.EncodeInjective | lib/runtime-core/src/global.rs:28-33 | two values of one type are stored as the same word only if equal |
| Globals.Global.Init | lib/runtime-core/src/global.rs:21-39 | descriptor (mutable, value type), a fresh cell holding the encoding, and `get` returns the value |
| Globals.Global.New | lib/runtime-core/src/global.rs:13-15 | an immutable global whose description type is the value's and whose `get` is the value |
| Globals.Global.NewMutable | lib/runtime-core/src/global.rs:17-19 | the same, mutable |
| Globals.Global.Set | lib/runtime-core/src/global.rs:46-66 | immutable: panics, cell unchanged; wrong type: panics, cell unchanged; else stores the encoding, and every handle on the cell then gets the value |
| Globals.Global.Get | lib/runtime-core/src/global.rs:68-77 | the value read back has the descriptor's type |
| Globals.Global.Clone | lib/runtime-core/src/global.rs:84-91 | a new handle with the same descriptor and the same cell, reading the same value |

The descriptor of a global is a `const` field, so neither `set` nor `get`
can change its type or mutability (lib/runtime-core/src/global.rs:7-9).

## Left out

- `unimplemented!()` bodies are not modelled. These include the conversions,
  float operations, atomics, most integer binops, compares and shifts,
  `move_location_extend`, `load_address`, `init_stack_loc` and
  `canonicalize_nan`.
- `emit_relaxed_mov` is unimplemented, so `emit_binop_i32`/`i64` with
  loc_a != ret is modelled as a failure (`Unimplemented`). For the same reason
  `emit_function_return_value` is not modelled.
- Floating-point numerics are not modelled. That covers the conversion range
  checks and NaN canonicalisation. A global's F32/F64 value is its bit
  pattern.
- Real instruction bytes, label resolution, `finalize_function` and
  `assembler_finalize` are not modelled. The emitter's operand order is
  inferred from the call sites, with `dst := src1 op src2` for
  `emit_add`/`emit_sub`; `emitter_arm64.rs` is not part of this model.
- Every instruction counts 4 bytes.
- `jmp_*`, `emit_call_*`, `emit_illegal_op`, `get_label`/`emit_label`, the
  trampoline generators and `arch_emit_indirect_call_with_trampoline` are left
  out. They are one-line forwards to code that is not part of this model.
- `pop_location` is left out because it is a one-line call of `emit_pop`.
- `list_to_save` is left out because it returns an empty list.
- `new_machine_state` is left out because its constructor is not part of this
  model.
- The fixed-register getters `get_vmctx_reg`, `local_pointer`,
  `get_grp_for_call`, `get_gpr_for_ret` and `get_simd_for_ret` are constants
  in `Locations`.
- The `instructions_address_map` getter is left out. It returns a copy of the
  field, which the model reads directly.
- The evaluator gives meaning only to 64-bit loads and stores. A narrower
  access gets stuck as unmodelled. So the `i32_load*` lemmas state the bounds
  check and the address, not the loaded value.
- 64-bit register arithmetic is on unbounded integers and does not wrap. The
  32-bit add wraps modulo 2^32.
- The 32-bit `emit_add` of the memory offset is assumed to be a flag-setting
  add (A64 `ADDS`) whose carry the following `b.cs` reads. An A64 `ADD` sets
  no flags, and `emitter_arm64.rs` is not part of this model, so whether the
  overflow trap at machine_arm64.rs:254-263 works as written is not decided
  here. The members below depend on the assumption.
- MemoryAccess.GuardUncheckedTrapsOnCarry: the carry disjunct of `GuardSpec`
  it states is what the source intends, under the flag-setting-add
  assumption.
- MemoryAccess.MemoryOpGuard: its "branches exactly when `GuardSpec` traps"
  relies on the 32-bit add setting the carry.
- MemoryAccess.I32LoadGuard: relies on the same assumption through
  `MemoryOpGuard`.
- HashSet iteration order is fixed: `get_used_gprs`/`get_used_simd` list
  registers in increasing number. The push/pop round trip
  (`Stack.PushAllThenPopAllAtParity`) is proved for any list of registers.
- The `align - 1` of the alignment test is modelled as the `u8` wrap to 255
  for `align = 0`, not as a debug-build panic.
- The `memory_op` callback is modelled as a function from `tmp_addr` to the
  instructions it appends. A callback that changes other state is not
  modelled.
- A panic is modelled as a failed outcome carrying the kind of panic. The
  contracts of the emitting methods do not say what the state is after one,
  for example temporaries acquired before a later `unwrap` fails.
- Machine.MachineARM64.MoveLocation: emits the corrected `stur` and far-load
  arms, not the code at machine_arm64.rs:913-914 and 976; the as-written
  behaviour is in the Findings.
- Machine.MachineARM64.EmitRelaxedBinop: emits the corrected memory-into-memory
  arm, which stores the result; as written, machine_arm64.rs:59-72 drops it.
- Machine.MachineARM64.MemoryOp: emits the corrected guard. It does not model
  the panic that machine_arm64.rs:189-197 reaches for imported memories, the
  stuck `sub` at 226-232, or the clobbered base at 233-243.
- Machine.MachineARM64.I32Load: inherits the corrections of `MemoryOp`, so a
  checked load of a local memory is not the stuck sequence the source emits.
- Moves.MoveToMemory and Moves.MoveFromMemory: require that the operands are
  not the picked temporary. `pick_temp_gpr` (machine_arm64.rs:576-585) does
  not acquire the register, so a caller holding an unacquired X0..X7 in
  `addr` or the source would see it clobbered. This is a caller obligation
  the source leaves unchecked.
- Machine.MachineARM64.MarkAddressRangeWithTrapCode: requires `begin` not to
  exceed the current offset. The source's `usize` subtraction would panic or
  wrap there.
- Machine.MachineARM64.MarkInstructionAddressEnd: requires `begin` not to
  exceed the current offset, for the same reason.
- The trap table's `offset_to_code` is taken to iterate in increasing offset
  order, as an ordered map does.
- `lib/compiler/src/trap.rs` is not part of this model. Only its record shape
  is used, with the two fields that `collect_trap_information` fills.
- `Global::vm_local_global` is left out because it hands a raw pointer to the
  VM.
- `Rc` reference counting and the cell's release are left out.

## Findings

| source | as written | input that shows it | evidently intended | confidence | as-written member | corrected member |
|---|---|---|---|---|---|---|
| lib/compiler-singlepass/src/machine_arm64.rs:189-197 | the imported-memory indirection goes through `emit_relaxed_binop(emit_mov, Memory, GPR)`, a pair that has no arm there and panics | any `memory_op` with `imported_memories = true` and a free temporary | load the pointer with a plain move | high, not executed | MemoryAccess.ImportedAsWrittenPanics | MemoryAccess.MemoryOpFailsOnlyForTemps |
| lib/compiler-singlepass/src/machine_arm64.rs:226-232 | `emit_sub(S64, tmp_bound, tmp_bound, Imm8(size))` names the immediate as the destination | any checked `i32_load` of a local memory | tmp_bound := tmp_bound - size | medium (operand order inferred from the other call sites), not executed | MemoryAccess.I32LoadAsWrittenStuck | MemoryAccess.I32LoadGuard |
| lib/compiler-singlepass/src/machine_arm64.rs:233-243 | for a size of 256 or more the size is loaded into `tmp_base`, which is then used as the memory base at 267-272 | a checked `memory_op` with value_size 256 | keep the base; use another register for the size | high, not executed | MemoryAccess.LargeSizeAsWrittenRuns | MemoryAccess.MemoryOpGuard |
| lib/compiler-singlepass/src/machine_arm64.rs:913-914 | `emit_stur(size, dest, addr, offs)` passes the memory operand as the register to store | `move_location(S64, X0, Memory(X27, -8))` | store `source` | high, not executed | Moves.SturAsWrittenStoresNoRegister | Moves.MoveToMemory |
| lib/compiler-singlepass/src/machine_arm64.rs:976 | `emit_ldr(size, source, tmp)` loads into the memory source instead of `dest` | `move_location(S64, Memory(X27, -4096), X1)` with X0 free | load into `dest` | high, not executed | Moves.FarLoadAsWrittenLoadsNoRegister | Moves.MoveFromMemory |
| lib/compiler-singlepass/src/machine_arm64.rs:59-72 | memory into memory computes into `temp_dst` and releases it without storing back | `emit_relaxed_binop(add, S64, Memory(X27, -8), Memory(X27, -16))` leaves memory unchanged | store `temp_dst` to `dst` | high, not executed | Binops.RelaxedMemIntoMemAsWrittenDropsResult | Binops.RelaxedMemIntoMem |

The rest of the model, including `Machine.MachineARM64`, uses the corrected
definitions.
