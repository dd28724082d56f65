/** `memory_op` and the `i32_load*` wrappers: the bounds-checked access to
    WebAssembly linear memory. Three temporaries are taken from X0..X7: one
    for the address (`tmp_addr`), one for the memory base (`tmp_base`) and
    one for the last valid start address (`tmp_bound`). The code loads base
    and bound from the VM context, turns the 32-bit WebAssembly address
    into a machine address, and branches to `heap_access_oob` when the
    access would leave the memory (or is misaligned, when asked); then the
    access callback runs on `tmp_addr`. */
module MemoryAccess {
  import opened Wrappers
  import opened Locations
  import opened Isa
  import opened Allocator
  import opened Moves
  import opened Binops

  type U8 = x: int | 0 <= x < 0x100

  /** The memory immediate of a load or store: `align` as the source reads
      it, and the static offset added to the dynamic address. */
  datatype MemArg = MemArg(align: U8, offset: U32Word)

  /** `(align - 1)` as the `u8` the alignment test uses; 0 wraps to 255. */
  function AlignMask(align: U8): U8 {
    if align == 0 then 255 else align - 1
  }

  /** The register and offset of the (base, bound) pair: in the VM context
      itself, or behind one pointer for an imported memory. */
  function TableReg(imported: bool, ta: Gpr): Gpr {
    if imported then ta else VmctxReg
  }

  function TableOff(imported: bool, vmOffset: int): int {
    if imported then 0 else vmOffset
  }

  /** The imported-memory indirection: `tmp_addr := [X28 + offset]`. As
      written it goes through `emit_relaxed_binop` with `emit_mov`; the
      corrected code uses `move_location`, which picks its own temporary. */
  function IndirectCode(asWritten: bool, imported: bool, vmOffset: int, ta: Gpr, used: set<Gpr>): Result<seq<Instr>> {
    if !imported then Ok([])
    else if asWritten then RelaxedBinopCode(MovOp, S64, Memory(VmctxReg, vmOffset), GPR(ta), used)
    else MoveLocationCode(S64, Memory(VmctxReg, vmOffset), GPR(ta), FirstFree(TempGprs, used))
  }

  /** `tmp_bound := bound + base - value_size`. As written the small-size
      subtraction names the immediate as its destination, and the large-size
      path loads the size into `tmp_base`, which still holds the base; the
      corrected code subtracts the immediate into `tmp_bound` and uses
      `tmp_addr`, dead at that point, for a large size. */
  function BoundCode(asWritten: bool, needCheck: bool, vs: nat, boundLoc: Location, ta: Gpr, tb: Gpr, tbd: Gpr): seq<Instr> {
    if !needCheck then []
    else [Ldr(S64, GPR(tbd), boundLoc), Add(S64, GPR(tbd), GPR(tb), GPR(tbd))] + SizeCode(asWritten, vs, ta, tb, tbd)
  }

  function SizeCode(asWritten: bool, vs: nat, ta: Gpr, tb: Gpr, tbd: Gpr): seq<Instr> {
    if vs < 256 then
      if asWritten then [Sub(S64, GPR(tbd), GPR(tbd), Imm8(vs))] else [Sub(S64, GPR(tbd), Imm8(vs), GPR(tbd))]
    else
      var scratch := if asWritten then tb else ta;
      [MovImm(GPR(scratch), vs), Sub(S64, GPR(tbd), GPR(scratch), GPR(tbd))]
  }

  /** `tmp_addr := base + zero-extended address + offset`, with a branch on
      the carry out of the 32-bit addition when the offset is not zero. */
  function AddressCode(addr: Location, offset: U32Word, oob: Label, ta: Gpr, tb: Gpr): seq<Instr> {
    [Mov(S32, addr, GPR(ta))] +
    (if offset != 0 then [Add(S32, Imm32(offset), GPR(ta), GPR(ta)), BCond(Cs, oob)] else []) +
    [Add(S64, GPR(tb), GPR(ta), GPR(ta))]
  }

  /** Branch when `tmp_addr > tmp_bound`. */
  function CheckCode(needCheck: bool, oob: Label, ta: Gpr, tbd: Gpr): seq<Instr> {
    if needCheck then [Cmp(S64, GPR(tbd), GPR(ta)), BCond(Hi, oob)] else []
  }

  function AlignCode(checkAlignment: bool, align: U8, oob: Label, ta: Gpr): seq<Instr> {
    if checkAlignment && align != 1 then [Tst(S64, Imm32(AlignMask(align)), GPR(ta)), BCond(Ne, oob)] else []
  }

  /** Everything `memory_op` emits before the access callback. */
  function GuardCode(asWritten: bool, ind: seq<Instr>, addr: Location, memarg: MemArg, checkAlignment: bool, vs: nat,
                     needCheck: bool, imported: bool, vmOffset: int, oob: Label, ta: Gpr, tb: Gpr, tbd: Gpr): seq<Instr> {
    ind + BaseBoundCode(asWritten, needCheck, vs, TableReg(imported, ta), TableOff(imported, vmOffset), ta, tb, tbd) +
    TailCode(addr, memarg, checkAlignment, needCheck, oob, ta, tb, tbd)
  }

  /** `tmp_base := [table]`, then the bound computation. */
  function BaseBoundCode(asWritten: bool, needCheck: bool, vs: nat, tr: Gpr, to: int, ta: Gpr, tb: Gpr, tbd: Gpr): seq<Instr> {
    [Ldr(S64, GPR(tb), Memory(tr, to))] + BoundCode(asWritten, needCheck, vs, Memory(tr, to + 8), ta, tb, tbd)
  }

  /** Address computation, bounds test and alignment test. */
  function TailCode(addr: Location, memarg: MemArg, checkAlignment: bool, needCheck: bool, oob: Label,
                    ta: Gpr, tb: Gpr, tbd: Gpr): seq<Instr> {
    AddressCode(addr, memarg.offset, oob, ta, tb) + ChecksCode(needCheck, checkAlignment, memarg.align, oob, ta, tbd)
  }

  /** The bounds test, then the alignment test. */
  function ChecksCode(needCheck: bool, checkAlignment: bool, align: U8, oob: Label, ta: Gpr, tbd: Gpr): seq<Instr> {
    CheckCode(needCheck, oob, ta, tbd) + AlignCode(checkAlignment, align, oob, ta)
  }

  /** The guard, then the callback's code on `tmp_addr`; `taken` are the
      three temporaries in acquisition order. */
  datatype MemOp = MemOp(guard: seq<Instr>, access: seq<Instr>, taken: seq<Gpr>)

  /** The code `memory_op` emits when `used` is in use on entry, or why it
      panics. */
  function MemoryOpCodeWith(asWritten: bool, addr: Location, memarg: MemArg, checkAlignment: bool, vs: nat,
                            needCheck: bool, imported: bool, vmOffset: int, oob: Label,
                            cb: Gpr -> seq<Instr>, used: set<Gpr>): Result<MemOp> {
    var ta := FirstFree(TempGprs, used);
    if ta.None? then Fail(NoTempRegister)
    else
      var ind := IndirectCode(asWritten, imported, vmOffset, ta.value, used + {ta.value});
      if ind.Fail? then Fail(ind.error)
      else
        var tb := FirstFree(TempGprs, used + {ta.value});
        if tb.None? then Fail(NoTempRegister)
        else
          var tbd := FirstFree(TempGprs, used + {ta.value, tb.value});
          if tbd.None? then Fail(NoTempRegister)
          else
            Ok(MemOp(GuardCode(asWritten, ind.value, addr, memarg, checkAlignment, vs, needCheck, imported, vmOffset,
                               oob, ta.value, tb.value, tbd.value),
                     cb(ta.value), [ta.value, tb.value, tbd.value]))
  }

  function MemoryOpCodeAsWritten(addr: Location, memarg: MemArg, checkAlignment: bool, vs: nat,
                                 needCheck: bool, imported: bool, vmOffset: int, oob: Label,
                                 cb: Gpr -> seq<Instr>, used: set<Gpr>): Result<MemOp> {
    MemoryOpCodeWith(true, addr, memarg, checkAlignment, vs, needCheck, imported, vmOffset, oob, cb, used)
  }

  function MemoryOpCode(addr: Location, memarg: MemArg, checkAlignment: bool, vs: nat,
                        needCheck: bool, imported: bool, vmOffset: int, oob: Label,
                        cb: Gpr -> seq<Instr>, used: set<Gpr>): Result<MemOp> {
    MemoryOpCodeWith(false, addr, memarg, checkAlignment, vs, needCheck, imported, vmOffset, oob, cb, used)
  }

  // ---------------------------------------------------------------------
  // What the guard is meant to decide

  /** Outcome of the guard: a branch to `heap_access_oob`, or the machine
      address the access uses. */
  datatype Guarded = Trap | Pass(address: int)

  /** The reference decision, from the zero-extended 32-bit address `a32`,
      the memory's base and size in bytes, and the access width. */
  function GuardSpec(a32: int, offset: U32Word, needCheck: bool, vs: nat, base: int, bound: int,
                     checkAlignment: bool, align: U8): Guarded {
    if offset != 0 && a32 + offset >= U32 then Trap
    else if needCheck && a32 + offset + vs > bound then Trap
    else if checkAlignment && align != 1 && base + a32 + offset >= 0 &&
            BitAnd(AlignMask(align), base + a32 + offset) != 0 then Trap
    else Pass(base + a32 + offset)
  }

  /** A checked access that passes lies wholly inside the memory
      `[base, base + bound)`, and is aligned when alignment is checked
      with a power-of-two `align`. */
  lemma GuardPassIsInBounds(a32: int, offset: U32Word, vs: nat, base: int, bound: int,
                            checkAlignment: bool, align: U8, k: nat)
    requires 0 <= a32 < U32 && base >= 0
    requires GuardSpec(a32, offset, true, vs, base, bound, checkAlignment, align).Pass?
    ensures var p := GuardSpec(a32, offset, true, vs, base, bound, checkAlignment, align).address;
            base <= p && p + vs <= base + bound &&
            (checkAlignment && align == Pow2(k) ==> p % align == 0)
  {
    var p := base + a32 + offset;
    if checkAlignment && align == Pow2(k) && align != 1 {
      assert AlignMask(align) == Pow2(k) - 1;
      BitAndLowMask(p, k);
      BitAndComm(AlignMask(align), p);
    }
  }

  /** For a memory of at most 4 GiB, the checked guard without alignment
      test is the WebAssembly bounds rule: it traps exactly when the
      (non-empty) accessed bytes `[a32 + offset, a32 + offset + vs)` do not all lie
      below the memory size. */
  lemma GuardIsWasmBoundsCheck(a32: int, offset: U32Word, vs: nat, base: int, bound: int)
    requires 0 <= a32 < U32 && 0 <= bound <= U32 && vs > 0
    ensures GuardSpec(a32, offset, true, vs, base, bound, false, 1) ==
            if a32 + offset + vs > bound then Trap else Pass(base + a32 + offset)
  {
  }

  /** With a 64 KiB memory and a 4-byte access, address 65532 is the last
      that passes and 65533 traps. */
  lemma GuardEdgeExample(base: int)
    ensures GuardSpec(65532, 0, true, 4, base, 65536, false, 1) == Pass(base + 65532)
    ensures GuardSpec(65533, 0, true, 4, base, 65536, false, 1) == Trap
  {
  }

  /** Without the bounds check only the carry of a non-zero offset traps. */
  lemma GuardUncheckedTrapsOnCarry(a32: int, offset: U32Word, vs: nat, base: int, bound: int)
    ensures GuardSpec(a32, offset, false, vs, base, bound, false, 1).Trap? <==> offset != 0 && a32 + offset >= U32
  {
  }

  // ---------------------------------------------------------------------
  // What the corrected guard does, phase by phase

  /** Vector registers, memory and the general-purpose registers outside
      `rs` are unchanged; the flags may differ. */
  ghost predicate Kept(s: Cpu, t: Cpu, rs: set<Gpr>) {
    t.v == s.v && t.mem == s.mem && forall q :: q !in rs ==> XReg(t, q) == XReg(s, q)
  }

  lemma KeptTrans(s: Cpu, u: Cpu, w: Cpu, a: set<Gpr>, b: set<Gpr>)
    requires Kept(s, u, a) && Kept(u, w, b)
    ensures Kept(s, w, a + b)
  {
  }

  lemma KeptGrow(s: Cpu, t: Cpu, a: set<Gpr>, b: set<Gpr>)
    requires Kept(s, t, a) && a <= b
    ensures Kept(s, t, b)
  {
  }

  /** Address of the (base, bound) pair. */
  function TableAddr(s: Cpu, imported: bool, vmOffset: int): int {
    if imported then Load(s, XReg(s, VmctxReg) + vmOffset) else XReg(s, VmctxReg) + vmOffset
  }

  lemma ThenFinished(a: seq<Instr>, b: seq<Instr>, s: Cpu, s1: Cpu)
    requires Exec(a, s) == Finished(s1)
    ensures Exec(a + b, s) == Exec(b, s1)
  {
    ExecAppend(a, b, s);
  }

  lemma ThenJumped(a: seq<Instr>, b: seq<Instr>, s: Cpu, l: Label, t: Cpu)
    requires Exec(a, s) == Jumped(l, t)
    ensures Exec(a + b, s) == Jumped(l, t)
  {
    ExecAppend(a, b, s);
  }

  /** Two finished pieces in front of a third: the run is the third's. */
  lemma PrefixTwo(a: seq<Instr>, b: seq<Instr>, c: seq<Instr>, s: Cpu, s1: Cpu, s2: Cpu)
    requires Exec(a, s) == Finished(s1) && Exec(b, s1) == Finished(s2)
    ensures Exec(a + b + c, s) == Exec(c, s2)
  {
    ExecChain(a, b, s, s1, s2);
    ThenFinished(a + b, c, s, s2);
  }

  /** The indirection leaves the pair's address in `TableReg + TableOff`. */
  lemma IndirectRuns(s: Cpu, imported: bool, vmOffset: int, ta: Gpr, used: set<Gpr>, ind: seq<Instr>) returns (t: Cpu)
    requires ta in TempGprs && IndirectCode(false, imported, vmOffset, ta, used) == Ok(ind)
    ensures Exec(ind, s) == Finished(t)
    ensures XReg(t, TableReg(imported, ta)) + TableOff(imported, vmOffset) == TableAddr(s, imported, vmOffset)
    ensures KeptBut(s, t, {ta} + TempSet(FirstFree(TempGprs, used))) && t.mem == s.mem
  {
    if imported {
      var pick := FirstFree(TempGprs, used);
      PickFacts(used);
      TempPoolIsolated(ta);
      if pick.Some? { TempPoolIsolated(pick.value); }
      MoveFromMemory(s, VmctxReg, vmOffset, ta, pick);
      t := Exec(ind, s).s;
    } else {
      t := s;
    }
  }

  /** `tmp_base := [table]`. */
  lemma BaseRuns(s: Cpu, tr: Gpr, to: int, tb: Gpr) returns (t: Cpu)
    requires tb != XzrSp
    ensures Exec([Ldr(S64, GPR(tb), Memory(tr, to))], s) == Finished(t)
    ensures XReg(t, tb) == Load(s, XReg(s, tr) + to) && t.mem == s.mem && KeptBut(s, t, {tb})
  {
    t := WriteReg(s, GPR(tb), Load(s, XReg(s, tr) + to));
    LoadWordStep(s, GPR(tb), tr, to, XReg(s, tr) + to);
    ExecOne(Ldr(S64, GPR(tb), Memory(tr, to)), s, t);
  }

  /** `tmp_bound := [table + 8] + tmp_base - value_size`, corrected. */
  lemma BoundRuns(s: Cpu, vs: nat, tr: Gpr, to: int, ta: Gpr, tb: Gpr, tbd: Gpr) returns (t: Cpu)
    requires ta != tbd && tb != tbd && ta != XzrSp && tbd != XzrSp
    ensures Exec(BoundCode(false, true, vs, Memory(tr, to + 8), ta, tb, tbd), s) == Finished(t)
    ensures XReg(t, tbd) == Load(s, XReg(s, tr) + to + 8) + XReg(s, tb) - vs
    ensures t.mem == s.mem && KeptBut(s, t, {ta, tbd})
  {
    var s2 := BoundLoadRuns(s, tr, to, tb, tbd);
    t := SizeRuns(s2, vs, ta, tb, tbd);
    ExecChain(BoundLoadCode(tr, to, tb, tbd), SizeCode(false, vs, ta, tb, tbd), s, s2, t);
    KeptButTrans(s, s2, t, {tbd}, {ta, tbd});
  }

  function BoundLoadCode(tr: Gpr, to: int, tb: Gpr, tbd: Gpr): seq<Instr> {
    [Ldr(S64, GPR(tbd), Memory(tr, to + 8)), Add(S64, GPR(tbd), GPR(tb), GPR(tbd))]
  }

  lemma BoundLoadRuns(s: Cpu, tr: Gpr, to: int, tb: Gpr, tbd: Gpr) returns (t: Cpu)
    requires tb != tbd && tbd != XzrSp
    ensures Exec(BoundLoadCode(tr, to, tb, tbd), s) == Finished(t)
    ensures XReg(t, tbd) == Load(s, XReg(s, tr) + to + 8) + XReg(s, tb) && t.mem == s.mem && KeptBut(s, t, {tbd})
  {
    var bound := Load(s, XReg(s, tr) + to + 8);
    var s1 := WriteReg(s, GPR(tbd), bound);
    LoadWordStep(s, GPR(tbd), tr, to + 8, XReg(s, tr) + to + 8);
    t := SetX(s1, tbd, bound + XReg(s, tb));
    AddRegsStep(s1, tbd, tb, tbd, bound + XReg(s, tb));
    ExecPair(Ldr(S64, GPR(tbd), Memory(tr, to + 8)), Add(S64, GPR(tbd), GPR(tb), GPR(tbd)), s, s1, t);
  }

  /** The corrected size subtraction. */
  lemma SizeRuns(s: Cpu, vs: nat, ta: Gpr, tb: Gpr, tbd: Gpr) returns (t: Cpu)
    requires ta != tbd && ta != XzrSp && tbd != XzrSp
    ensures Exec(SizeCode(false, vs, ta, tb, tbd), s) == Finished(t)
    ensures XReg(t, tbd) == XReg(s, tbd) - vs && t.mem == s.mem && KeptBut(s, t, {ta, tbd})
  {
    if vs < 256 {
      t := SetX(s, tbd, XReg(s, tbd) - vs);
      SubImmStep(s, tbd, vs, tbd, XReg(s, tbd) - vs);
      ExecOne(Sub(S64, GPR(tbd), Imm8(vs), GPR(tbd)), s, t);
    } else {
      var s1 := SetX(s, ta, vs);
      MovImmRegStep(s, ta, vs);
      t := SetX(s1, tbd, XReg(s, tbd) - vs);
      SubRegsStep(s1, tbd, ta, tbd, XReg(s, tbd) - vs);
      ExecPair(MovImm(GPR(ta), vs), Sub(S64, GPR(tbd), GPR(ta), GPR(tbd)), s, s1, t);
    }
  }

  /** `tmp_addr := address`, zero-extended from 32 bits. */
  lemma AddrMovRuns(s: Cpu, addr: Location, ta: Gpr) returns (t: Cpu)
    requires (IsReg(addr) || IsImm(addr)) && ta != XzrSp
    ensures Exec1(Mov(S32, addr, GPR(ta)), s) == Next(t)
    ensures XReg(t, ta) == AluValue(s, addr) % U32 && Kept(s, t, {ta})
  {
    MovToRegStep(s, S32, addr, GPR(ta));
    Pow2Of32();
    t := SetX(s, ta, AluValue(s, addr) % U32);
  }

  /** The 32-bit offset addition branches exactly on its carry. */
  lemma OffsetAddRuns(s: Cpu, offset: U32Word, oob: Label, ta: Gpr) returns (t: Cpu)
    requires 0 <= XReg(s, ta) < U32 && ta != XzrSp
    ensures XReg(s, ta) + offset >= U32 ==>
            Exec([Add(S32, Imm32(offset), GPR(ta), GPR(ta)), BCond(Cs, oob)], s) == Jumped(oob, t)
    ensures XReg(s, ta) + offset < U32 ==>
            Exec([Add(S32, Imm32(offset), GPR(ta), GPR(ta)), BCond(Cs, oob)], s) == Finished(t) &&
            XReg(t, ta) == XReg(s, ta) + offset && Kept(s, t, {ta})
  {
    var r := offset + XReg(s, ta);
    assert offset % U32 + XReg(s, ta) % U32 == r;
    t := SetX(s.(c := r >= U32), ta, r % U32);
    assert Exec1(Add(S32, Imm32(offset), GPR(ta), GPR(ta)), s) == Next(t);
    ExecCons(Add(S32, Imm32(offset), GPR(ta), GPR(ta)), [BCond(Cs, oob)], s, t);
    assert [Add(S32, Imm32(offset), GPR(ta), GPR(ta)), BCond(Cs, oob)] ==
           [Add(S32, Imm32(offset), GPR(ta), GPR(ta))] + [BCond(Cs, oob)];
  }

  /** `tmp_addr := tmp_base + tmp_addr`. */
  lemma BaseAddRuns(s: Cpu, ta: Gpr, tb: Gpr) returns (t: Cpu)
    requires ta != XzrSp
    ensures Exec([Add(S64, GPR(tb), GPR(ta), GPR(ta))], s) == Finished(t)
    ensures XReg(t, ta) == XReg(s, tb) + XReg(s, ta) && Kept(s, t, {ta})
  {
    t := SetX(s, ta, XReg(s, tb) + XReg(s, ta));
    AddRegsStep(s, tb, ta, ta, XReg(s, tb) + XReg(s, ta));
    ExecOne(Add(S64, GPR(tb), GPR(ta), GPR(ta)), s, t);
  }

  /** The address computation branches on the carry of a non-zero offset
      and otherwise leaves `base + a32 + offset` in `tmp_addr`. */
  lemma AddressRuns(s: Cpu, addr: Location, offset: U32Word, oob: Label, ta: Gpr, tb: Gpr) returns (t: Cpu)
    requires (IsReg(addr) || IsImm(addr)) && ta != XzrSp && ta != tb
    ensures var a32 := AluValue(s, addr) % U32;
            if offset != 0 && a32 + offset >= U32
            then Exec(AddressCode(addr, offset, oob, ta, tb), s) == Jumped(oob, t)
            else Exec(AddressCode(addr, offset, oob, ta, tb), s) == Finished(t) &&
                 XReg(t, ta) == XReg(s, tb) + a32 + offset && Kept(s, t, {ta})
  {
    var a32 := AluValue(s, addr) % U32;
    var mv := Mov(S32, addr, GPR(ta));
    var mid: seq<Instr> := if offset != 0 then [Add(S32, Imm32(offset), GPR(ta), GPR(ta)), BCond(Cs, oob)] else [];
    var last := [Add(S64, GPR(tb), GPR(ta), GPR(ta))];
    var s1 := AddrMovRuns(s, addr, ta);
    ExecCons(mv, mid, s, s1);
    ExecAppend([mv] + mid, last, s);
    var s2 := s1;
    if offset != 0 {
      s2 := OffsetAddRuns(s1, offset, oob, ta);
      if a32 + offset >= U32 {
        t := s2;
        return;
      }
    }
    t := BaseAddRuns(s2, ta, tb);
    KeptTrans(s, s1, s2, {ta}, {ta});
    KeptTrans(s, s2, t, {ta} + {ta}, {ta});
  }

  /** The bounds comparison branches exactly when `tmp_addr > tmp_bound`. */
  lemma CheckRuns(s: Cpu, needCheck: bool, oob: Label, ta: Gpr, tbd: Gpr) returns (t: Cpu)
    ensures needCheck && XReg(s, ta) > XReg(s, tbd) ==> Exec(CheckCode(needCheck, oob, ta, tbd), s) == Jumped(oob, t)
    ensures !(needCheck && XReg(s, ta) > XReg(s, tbd)) ==> Exec(CheckCode(needCheck, oob, ta, tbd), s) == Finished(t)
    ensures Kept(s, t, {})
  {
    if needCheck {
      t := s.(z := XReg(s, ta) == XReg(s, tbd), c := XReg(s, ta) >= XReg(s, tbd));
      assert Exec1(Cmp(S64, GPR(tbd), GPR(ta)), s) == Next(t);
      ExecCons(Cmp(S64, GPR(tbd), GPR(ta)), [BCond(Hi, oob)], s, t);
      assert [Cmp(S64, GPR(tbd), GPR(ta)), BCond(Hi, oob)] == [Cmp(S64, GPR(tbd), GPR(ta))] + [BCond(Hi, oob)];
    } else {
      t := s;
    }
  }

  /** The alignment test branches exactly when `tmp_addr` has a bit of the
      mask set. */
  lemma AlignRuns(s: Cpu, checkAlignment: bool, align: U8, oob: Label, ta: Gpr) returns (t: Cpu)
    requires checkAlignment && align != 1 ==> XReg(s, ta) >= 0
    ensures checkAlignment && align != 1 && BitAnd(AlignMask(align), XReg(s, ta)) != 0 ==>
            Exec(AlignCode(checkAlignment, align, oob, ta), s) == Jumped(oob, t)
    ensures !(checkAlignment && align != 1 && BitAnd(AlignMask(align), XReg(s, ta)) != 0) ==>
            Exec(AlignCode(checkAlignment, align, oob, ta), s) == Finished(t)
    ensures Kept(s, t, {})
  {
    if checkAlignment && align != 1 {
      t := s.(z := BitAnd(AlignMask(align), XReg(s, ta)) == 0);
      assert Exec1(Tst(S64, Imm32(AlignMask(align)), GPR(ta)), s) == Next(t);
      ExecCons(Tst(S64, Imm32(AlignMask(align)), GPR(ta)), [BCond(Ne, oob)], s, t);
      assert [Tst(S64, Imm32(AlignMask(align)), GPR(ta)), BCond(Ne, oob)] ==
             [Tst(S64, Imm32(AlignMask(align)), GPR(ta))] + [BCond(Ne, oob)];
    } else {
      t := s;
    }
  }

  /** The two tests branch when the address is past the last valid start
      or misaligned, and otherwise only change the flags. */
  lemma ChecksRuns(s: Cpu, needCheck: bool, checkAlignment: bool, align: U8, oob: Label, ta: Gpr, tbd: Gpr)
    returns (t: Cpu)
    requires checkAlignment && align != 1 ==> XReg(s, ta) >= 0
    ensures var trap := (needCheck && XReg(s, ta) > XReg(s, tbd)) ||
                        (checkAlignment && align != 1 && BitAnd(AlignMask(align), XReg(s, ta)) != 0);
            if trap then Exec(ChecksCode(needCheck, checkAlignment, align, oob, ta, tbd), s) == Jumped(oob, t)
            else Exec(ChecksCode(needCheck, checkAlignment, align, oob, ta, tbd), s) == Finished(t)
    ensures Kept(s, t, {})
  {
    var c := CheckCode(needCheck, oob, ta, tbd);
    var al := AlignCode(checkAlignment, align, oob, ta);
    var s1 := CheckRuns(s, needCheck, oob, ta, tbd);
    if needCheck && XReg(s, ta) > XReg(s, tbd) {
      ThenJumped(c, al, s, oob, s1);
      t := s1;
    } else {
      ThenFinished(c, al, s, s1);
      t := AlignRuns(s1, checkAlignment, align, oob, ta);
    }
    KeptTrans(s, s1, t, {}, {});
  }

  /** Address, bounds and alignment tests together decide as `GuardSpec`,
      once `tmp_base` holds the base and `tmp_bound` the last valid start. */
  lemma TailRuns(s: Cpu, addr: Location, memarg: MemArg, needCheck: bool, vs: nat, bound: int,
                 checkAlignment: bool, oob: Label, ta: Gpr, tb: Gpr, tbd: Gpr) returns (t: Cpu)
    requires (IsReg(addr) || IsImm(addr)) && ta != XzrSp && ta != tb && ta != tbd
    requires needCheck ==> XReg(s, tbd) == bound + XReg(s, tb) - vs
    requires checkAlignment ==> XReg(s, tb) >= 0
    ensures var g := GuardSpec(AluValue(s, addr) % U32, memarg.offset, needCheck, vs, XReg(s, tb), bound,
                               checkAlignment, memarg.align);
            if g.Trap? then Exec(TailCode(addr, memarg, checkAlignment, needCheck, oob, ta, tb, tbd), s) == Jumped(oob, t)
            else Exec(TailCode(addr, memarg, checkAlignment, needCheck, oob, ta, tb, tbd), s) == Finished(t) &&
                 XReg(t, ta) == g.address && Kept(s, t, {ta})
  {
    var a := AddressCode(addr, memarg.offset, oob, ta, tb);
    var cs := ChecksCode(needCheck, checkAlignment, memarg.align, oob, ta, tbd);
    var s3 := AddressRuns(s, addr, memarg.offset, oob, ta, tb);
    if memarg.offset != 0 && AluValue(s, addr) % U32 + memarg.offset >= U32 {
      ThenJumped(a, cs, s, oob, s3);
      t := s3;
    } else {
      ThenFinished(a, cs, s, s3);
      t := ChecksRuns(s3, needCheck, checkAlignment, memarg.align, oob, ta, tbd);
      KeptTrans(s, s3, t, {ta}, {});
      GuardSpecAfterCarry(AluValue(s, addr) % U32, memarg.offset, needCheck, vs, XReg(s, tb), bound,
                          checkAlignment, memarg.align, XReg(s3, ta), XReg(s3, tbd));
    }
  }

  /** Past the carry test, `GuardSpec` is the two register tests on the
      machine address `p` and the last valid start `lim`. */
  lemma GuardSpecAfterCarry(a32: int, offset: U32Word, needCheck: bool, vs: nat, base: int, bound: int,
                            checkAlignment: bool, align: U8, p: int, lim: int)
    requires !(offset != 0 && a32 + offset >= U32) && a32 >= 0
    requires p == base + a32 + offset && (needCheck ==> lim == bound + base - vs) && (checkAlignment ==> base >= 0)
    ensures GuardSpec(a32, offset, needCheck, vs, base, bound, checkAlignment, align) ==
            if (needCheck && p > lim) || (checkAlignment && align != 1 && BitAnd(AlignMask(align), p) != 0)
            then Trap else Pass(p)
  {
  }

  /** An ALU operand reads the same in a state that kept its register. */
  lemma AluValueKept(s: Cpu, t: Cpu, addr: Location, rs: set<Gpr>)
    requires (IsReg(addr) || IsImm(addr)) && Kept(s, t, rs) && (addr.GPR? ==> addr.r !in rs)
    ensures AluValue(t, addr) == AluValue(s, addr)
  {
  }

  /** Base and bound loads: `tmp_base` receives the base and, when checking,
      `tmp_bound` the last valid start address. */
  lemma BaseBoundRuns(s: Cpu, needCheck: bool, vs: nat, tr: Gpr, to: int, ta: Gpr, tb: Gpr, tbd: Gpr) returns (t: Cpu)
    requires ta != tb && ta != tbd && tb != tbd && ta != XzrSp && tb != XzrSp && tbd != XzrSp && tr != tb
    ensures Exec(BaseBoundCode(false, needCheck, vs, tr, to, ta, tb, tbd), s) == Finished(t)
    ensures XReg(t, tb) == Load(s, XReg(s, tr) + to)
    ensures needCheck ==> XReg(t, tbd) == Load(s, XReg(s, tr) + to + 8) + XReg(t, tb) - vs
    ensures t.mem == s.mem && KeptBut(s, t, {ta, tb, tbd})
  {
    var sb := BaseRuns(s, tr, to, tb);
    if needCheck {
      t := BoundRuns(sb, vs, tr, to, ta, tb, tbd);
      KeptButTrans(s, sb, t, {tb}, {ta, tbd});
    } else {
      t := sb;
    }
    ExecChain([Ldr(S64, GPR(tb), Memory(tr, to))], BoundCode(false, needCheck, vs, Memory(tr, to + 8), ta, tb, tbd),
              s, sb, t);
  }

  /** Base and bound loads after an indirection `ind` that left the
      pair's address in `tr + to`. */
  lemma PrefixRuns(ind: seq<Instr>, s: Cpu, sa: Cpu, needCheck: bool, vs: nat, tr: Gpr, to: int, table: int,
                   ta: Gpr, tb: Gpr, tbd: Gpr, rs: set<Gpr>) returns (t: Cpu)
    requires ta != tb && ta != tbd && tb != tbd && ta != XzrSp && tb != XzrSp && tbd != XzrSp && tr != tb
    requires Exec(ind, s) == Finished(sa) && XReg(sa, tr) + to == table && KeptBut(s, sa, rs) && sa.mem == s.mem
    ensures Exec(ind + BaseBoundCode(false, needCheck, vs, tr, to, ta, tb, tbd), s) == Finished(t)
    ensures XReg(t, tb) == Load(s, table)
    ensures needCheck ==> XReg(t, tbd) == Load(s, table + 8) + XReg(t, tb) - vs
    ensures Kept(s, t, {ta, tb, tbd} + rs)
  {
    t := BaseBoundRuns(sa, needCheck, vs, tr, to, ta, tb, tbd);
    ExecChain(ind, BaseBoundCode(false, needCheck, vs, tr, to, ta, tb, tbd), s, sa, t);
    KeptButTrans(s, sa, t, rs, {ta, tb, tbd});
  }

  /** A prefix that keeps `rs` followed by a tail that decides `g`. */
  lemma GuardCompose(pre: seq<Instr>, tail: seq<Instr>, s: Cpu, sc: Cpu, t: Cpu, g: Guarded, oob: Label, ta: Gpr,
                     rs: set<Gpr>, rs2: set<Gpr>)
    requires Exec(pre, s) == Finished(sc) && Kept(s, sc, rs) && rs + {ta} <= rs2
    requires g.Trap? ==> Exec(tail, sc) == Jumped(oob, t)
    requires g.Pass? ==> Exec(tail, sc) == Finished(t) && XReg(t, ta) == g.address && Kept(sc, t, {ta})
    ensures g.Trap? ==> Exec(pre + tail, s) == Jumped(oob, t)
    ensures g.Pass? ==> Exec(pre + tail, s) == Finished(t) && XReg(t, ta) == g.address && Kept(s, t, rs2)
  {
    ThenFinished(pre, tail, s, sc);
    if g.Pass? {
      KeptTrans(s, sc, t, rs, {ta});
      KeptGrow(s, t, rs + {ta}, rs2);
    }
  }

  /** Once a prefix has loaded base and last valid start, the tail decides as `GuardSpec`. */
  lemma GuardFromPrefix(pre: seq<Instr>, s: Cpu, sc: Cpu, addr: Location, memarg: MemArg, checkAlignment: bool, vs: nat,
                        needCheck: bool, base: int, bound: int, oob: Label, ta: Gpr, tb: Gpr, tbd: Gpr,
                        rs: set<Gpr>, rs2: set<Gpr>) returns (t: Cpu)
    requires Exec(pre, s) == Finished(sc) && Kept(s, sc, rs) && rs + {ta} <= rs2
    requires (IsReg(addr) || IsImm(addr)) && ta != XzrSp && ta != tb && ta != tbd
    requires addr.GPR? ==> addr.r !in rs
    requires XReg(sc, tb) == base && (needCheck ==> XReg(sc, tbd) == bound + base - vs)
    requires checkAlignment ==> base >= 0
    ensures var g := GuardSpec(AluValue(s, addr) % U32, memarg.offset, needCheck, vs, base, bound,
                               checkAlignment, memarg.align);
            var code := pre + TailCode(addr, memarg, checkAlignment, needCheck, oob, ta, tb, tbd);
            if g.Trap? then Exec(code, s) == Jumped(oob, t)
            else Exec(code, s) == Finished(t) && XReg(t, ta) == g.address && Kept(s, t, rs2)
  {
    AluValueKept(s, sc, addr, rs);
    t := TailRuns(sc, addr, memarg, needCheck, vs, bound, checkAlignment, oob, ta, tb, tbd);
    GuardCompose(pre, TailCode(addr, memarg, checkAlignment, needCheck, oob, ta, tb, tbd), s, sc, t,
                 GuardSpec(AluValue(s, addr) % U32, memarg.offset, needCheck, vs, base, bound, checkAlignment, memarg.align),
                 oob, ta, rs, rs2);
  }

  /** The guard after an indirection `ind` that left the pair's address in `tr + to`. */
  lemma GuardAfterIndirect(ind: seq<Instr>, s: Cpu, sa: Cpu, addr: Location, memarg: MemArg, checkAlignment: bool,
                           vs: nat, needCheck: bool, tr: Gpr, to: int, table: int, oob: Label,
                           ta: Gpr, tb: Gpr, tbd: Gpr, rs: set<Gpr>) returns (t: Cpu)
    requires ta != tb && ta != tbd && tb != tbd && ta != XzrSp && tb != XzrSp && tbd != XzrSp && tr != tb
    requires Exec(ind, s) == Finished(sa) && XReg(sa, tr) + to == table && KeptBut(s, sa, rs) && sa.mem == s.mem
    requires IsReg(addr) || IsImm(addr)
    requires addr.GPR? ==> addr.r !in {ta, tb, tbd} + rs
    requires checkAlignment ==> Load(s, table) >= 0
    ensures var g := GuardSpec(AluValue(s, addr) % U32, memarg.offset, needCheck, vs, Load(s, table), Load(s, table + 8),
                               checkAlignment, memarg.align);
            g.Trap? ==> Exec(ind + BaseBoundCode(false, needCheck, vs, tr, to, ta, tb, tbd) +
                             TailCode(addr, memarg, checkAlignment, needCheck, oob, ta, tb, tbd), s) == Jumped(oob, t)
    ensures var g := GuardSpec(AluValue(s, addr) % U32, memarg.offset, needCheck, vs, Load(s, table), Load(s, table + 8),
                               checkAlignment, memarg.align);
            g.Pass? ==> Exec(ind + BaseBoundCode(false, needCheck, vs, tr, to, ta, tb, tbd) +
                             TailCode(addr, memarg, checkAlignment, needCheck, oob, ta, tb, tbd), s) == Finished(t)
    ensures var g := GuardSpec(AluValue(s, addr) % U32, memarg.offset, needCheck, vs, Load(s, table), Load(s, table + 8),
                               checkAlignment, memarg.align);
            g.Pass? ==> XReg(t, ta) == g.address && Kept(s, t, {ta, tb, tbd} + rs)
  {
    var sc := PrefixRuns(ind, s, sa, needCheck, vs, tr, to, table, ta, tb, tbd, rs);
    t := GuardFromPrefix(ind + BaseBoundCode(false, needCheck, vs, tr, to, ta, tb, tbd),
                         s, sc, addr, memarg, checkAlignment, vs, needCheck, Load(s, table), Load(s, table + 8), oob,
                         ta, tb, tbd, {ta, tb, tbd} + rs, {ta, tb, tbd} + rs);
  }

  /** The corrected guard on explicit temporaries. */
  lemma GuardRuns(s: Cpu, addr: Location, memarg: MemArg, checkAlignment: bool, vs: nat, needCheck: bool,
                  imported: bool, vmOffset: int, oob: Label, ta: Gpr, tb: Gpr, tbd: Gpr, used: set<Gpr>,
                  ind: seq<Instr>)
    returns (t: Cpu)
    requires ta in TempGprs && tb in TempGprs && tbd in TempGprs && ta != tb && ta != tbd && tb != tbd
    requires IndirectCode(false, imported, vmOffset, ta, used) == Ok(ind)
    requires IsReg(addr) || IsImm(addr)
    requires addr.GPR? ==> addr.r !in {ta, tb, tbd} + ({ta} + TempSet(FirstFree(TempGprs, used)))
    requires checkAlignment ==> Load(s, TableAddr(s, imported, vmOffset)) >= 0
    ensures var g := GuardSpec(AluValue(s, addr) % U32, memarg.offset, needCheck, vs,
                               Load(s, TableAddr(s, imported, vmOffset)), Load(s, TableAddr(s, imported, vmOffset) + 8),
                               checkAlignment, memarg.align);
            g.Trap? ==> Exec(ind + BaseBoundCode(false, needCheck, vs, TableReg(imported, ta), TableOff(imported, vmOffset), ta, tb, tbd) +
                             TailCode(addr, memarg, checkAlignment, needCheck, oob, ta, tb, tbd), s) == Jumped(oob, t)
    ensures var g := GuardSpec(AluValue(s, addr) % U32, memarg.offset, needCheck, vs,
                               Load(s, TableAddr(s, imported, vmOffset)), Load(s, TableAddr(s, imported, vmOffset) + 8),
                               checkAlignment, memarg.align);
            g.Pass? ==> Exec(ind + BaseBoundCode(false, needCheck, vs, TableReg(imported, ta), TableOff(imported, vmOffset), ta, tb, tbd) +
                             TailCode(addr, memarg, checkAlignment, needCheck, oob, ta, tb, tbd), s) == Finished(t)
    ensures var g := GuardSpec(AluValue(s, addr) % U32, memarg.offset, needCheck, vs,
                               Load(s, TableAddr(s, imported, vmOffset)), Load(s, TableAddr(s, imported, vmOffset) + 8),
                               checkAlignment, memarg.align);
            g.Pass? ==> XReg(t, ta) == g.address && Kept(s, t, {ta, tb, tbd} + ({ta} + TempSet(FirstFree(TempGprs, used))))
  {
    TempPoolIsolated(ta);
    TempPoolIsolated(tb);
    TempPoolIsolated(tbd);
    var sa := s;
    if imported {
      sa := IndirectRuns(s, imported, vmOffset, ta, used, ind);
    }
    t := GuardAfterIndirect(ind, s, sa, addr, memarg, checkAlignment, vs, needCheck, TableReg(imported, ta),
                            TableOff(imported, vmOffset), TableAddr(s, imported, vmOffset), oob, ta, tb, tbd,
                            {ta} + TempSet(FirstFree(TempGprs, used)));
  }


  // ---------------------------------------------------------------------
  // memory_op

  /** The three temporaries `memory_op` acquires are distinct free
      temporaries, and the one the indirection may borrow is `tmp_base`. */
  lemma MemoryOpTemps(used: set<Gpr>, ta: Gpr, tb: Gpr, tbd: Gpr)
    requires FirstFree(TempGprs, used) == Some(ta) && FirstFree(TempGprs, used + {ta}) == Some(tb)
    requires FirstFree(TempGprs, used + {ta, tb}) == Some(tbd)
    ensures ta in TempGprs && tb in TempGprs && tbd in TempGprs && ta != tb && ta != tbd && tb != tbd
    ensures {ta, tb, tbd} + ({ta} + TempSet(FirstFree(TempGprs, used + {ta}))) <= FreeTemps(used)
  {
    PickFacts(used);
    PickFacts(used + {ta});
    PickFacts(used + {ta, tb});
    PickedIsFree(used, used);
    PickedIsFree(used, used + {ta});
    PickedIsFree(used, used + {ta, tb});
    ThreeFree(FreeTemps(used), ta, tb, tbd);
  }

  /** Three members of `free`, and the indirection's borrowed `tmp_base`, lie in `free`. */
  lemma ThreeFree(free: set<Gpr>, ta: Gpr, tb: Gpr, tbd: Gpr)
    requires ta in free && tb in free && tbd in free
    ensures {ta, tb, tbd} + ({ta} + TempSet(Some(tb))) <= free
  {
  }

  /** What `memory_op` returns when it does not panic: the guard on the
      three temporaries it acquired, in order, and the callback's code on
      `tmp_addr`. */
  lemma MemoryOpShape(asWritten: bool, addr: Location, memarg: MemArg, checkAlignment: bool, vs: nat, needCheck: bool,
                      imported: bool, vmOffset: int, oob: Label, cb: Gpr -> seq<Instr>, used: set<Gpr>, op: MemOp)
    requires MemoryOpCodeWith(asWritten, addr, memarg, checkAlignment, vs, needCheck, imported, vmOffset, oob, cb, used)
             == Ok(op)
    ensures |op.taken| == 3 && FirstFree(TempGprs, used) == Some(op.taken[0])
    ensures FirstFree(TempGprs, used + {op.taken[0]}) == Some(op.taken[1])
    ensures FirstFree(TempGprs, used + {op.taken[0], op.taken[1]}) == Some(op.taken[2])
    ensures IndirectCode(asWritten, imported, vmOffset, op.taken[0], used + {op.taken[0]}).Ok?
    ensures op.access == cb(op.taken[0])
    ensures op.guard == IndirectCode(asWritten, imported, vmOffset, op.taken[0], used + {op.taken[0]}).value +
                        BaseBoundCode(asWritten, needCheck, vs, TableReg(imported, op.taken[0]), TableOff(imported, vmOffset),
                                      op.taken[0], op.taken[1], op.taken[2]) +
                        TailCode(addr, memarg, checkAlignment, needCheck, oob, op.taken[0], op.taken[1], op.taken[2])
  {
  }


  /** `memory_op`'s guard branches to `heap_access_oob` exactly when
      `GuardSpec` traps: a carry out of the 32-bit effective address, an
      access past the bound, or a misaligned address when alignment is
      checked. Otherwise it falls through with the machine address in
      `tmp_addr`, having changed no memory and no register but free
      temporaries. */
  lemma MemoryOpGuard(s: Cpu, addr: Location, memarg: MemArg, checkAlignment: bool, vs: nat, needCheck: bool,
                      imported: bool, vmOffset: int, oob: Label, cb: Gpr -> seq<Instr>, used: set<Gpr>, op: MemOp)
    returns (t: Cpu)
    requires MemoryOpCode(addr, memarg, checkAlignment, vs, needCheck, imported, vmOffset, oob, cb, used) == Ok(op)
    requires IsReg(addr) || IsImm(addr)
    requires addr.GPR? ==> addr.r !in FreeTemps(used)
    requires checkAlignment ==> Load(s, TableAddr(s, imported, vmOffset)) >= 0
    ensures |op.taken| == 3
    ensures var g := GuardSpec(AluValue(s, addr) % U32, memarg.offset, needCheck, vs,
                               Load(s, TableAddr(s, imported, vmOffset)), Load(s, TableAddr(s, imported, vmOffset) + 8),
                               checkAlignment, memarg.align);
            g.Trap? ==> Exec(op.guard, s) == Jumped(oob, t)
    ensures var g := GuardSpec(AluValue(s, addr) % U32, memarg.offset, needCheck, vs,
                               Load(s, TableAddr(s, imported, vmOffset)), Load(s, TableAddr(s, imported, vmOffset) + 8),
                               checkAlignment, memarg.align);
            g.Pass? ==> Exec(op.guard, s) == Finished(t) && XReg(t, op.taken[0]) == g.address &&
                        Kept(s, t, FreeTemps(used))
  {
    MemoryOpShape(false, addr, memarg, checkAlignment, vs, needCheck, imported, vmOffset, oob, cb, used, op);
    var ta, tb, tbd := op.taken[0], op.taken[1], op.taken[2];
    MemoryOpTemps(used, ta, tb, tbd);
    var ind := IndirectCode(false, imported, vmOffset, ta, used + {ta}).value;
    t := GuardRuns(s, addr, memarg, checkAlignment, vs, needCheck, imported, vmOffset, oob, ta, tb, tbd, used + {ta}, ind);
    if GuardSpec(AluValue(s, addr) % U32, memarg.offset, needCheck, vs,
                 Load(s, TableAddr(s, imported, vmOffset)), Load(s, TableAddr(s, imported, vmOffset) + 8),
                 checkAlignment, memarg.align).Pass? {
      KeptGrow(s, t, {ta, tb, tbd} + ({ta} + TempSet(FirstFree(TempGprs, used + {ta}))), FreeTemps(used));
    }
  }


  /** Corrected, `memory_op` panics only for want of a free temporary. */
  lemma MemoryOpFailsOnlyForTemps(addr: Location, memarg: MemArg, checkAlignment: bool, vs: nat, needCheck: bool,
                                  imported: bool, vmOffset: int, oob: Label, cb: Gpr -> seq<Instr>, used: set<Gpr>)
    ensures MemoryOpCode(addr, memarg, checkAlignment, vs, needCheck, imported, vmOffset, oob, cb, used).Fail? ==>
            MemoryOpCode(addr, memarg, checkAlignment, vs, needCheck, imported, vmOffset, oob, cb, used).error
            == NoTempRegister
  {
    var ta := FirstFree(TempGprs, used);
    if ta.Some? {
      MoveLocationOutcome(S64, Memory(VmctxReg, vmOffset), GPR(ta.value), FirstFree(TempGprs, used + {ta.value}));
    }
  }

  // ---------------------------------------------------------------------
  // memory_op as written

  /** As written, an imported memory sends the indirection through
      `emit_relaxed_binop`, which has no arm for memory into a register:
      `memory_op` panics whenever it got its first temporary. */
  lemma ImportedAsWrittenPanics(addr: Location, memarg: MemArg, checkAlignment: bool, vs: nat, needCheck: bool,
                                vmOffset: int, oob: Label, cb: Gpr -> seq<Instr>, used: set<Gpr>)
    requires FirstFree(TempGprs, used).Some?
    ensures MemoryOpCodeAsWritten(addr, memarg, checkAlignment, vs, needCheck, true, vmOffset, oob, cb, used)
            == Fail(Unsupported)
  {
    var ta := FirstFree(TempGprs, used).value;
    RelaxedBinopOutcome(true, MovOp, S64, Memory(VmctxReg, vmOffset), GPR(ta), used + {ta});
  }

  /** A sequence that gets stuck stays stuck whatever follows it. */
  lemma StuckThen(a: seq<Instr>, b: seq<Instr>, s: Cpu)
    requires Exec(a, s).Stuck?
    ensures Exec(a + b, s) == Exec(a, s)
  {
    ExecAppend(a, b, s);
  }

  /** As written, the small-size subtraction names `Imm8(value_size)` as its
      destination, which no SUB form takes: with `need_check` the guard of a
      local memory never reaches the access. */
  lemma SmallSizeAsWrittenStuck(s: Cpu, addr: Location, memarg: MemArg, checkAlignment: bool, vs: nat,
                                vmOffset: int, oob: Label, cb: Gpr -> seq<Instr>, used: set<Gpr>, op: MemOp)
    requires MemoryOpCodeAsWritten(addr, memarg, checkAlignment, vs, true, false, vmOffset, oob, cb, used) == Ok(op)
    requires vs < 256
    ensures Exec(op.guard, s) == Stuck(true)
  {
    MemoryOpShape(true, addr, memarg, checkAlignment, vs, true, false, vmOffset, oob, cb, used, op);
    var ta, tb, tbd := op.taken[0], op.taken[1], op.taken[2];
    MemoryOpTemps(used, ta, tb, tbd);
    TempPoolIsolated(tb);
    TempPoolIsolated(tbd);
    SmallSizeAsWrittenPrefix(s, vs, vmOffset, ta, tb, tbd);
    StuckThen([] + BaseBoundCode(true, true, vs, VmctxReg, vmOffset, ta, tb, tbd),
              TailCode(addr, memarg, checkAlignment, true, oob, ta, tb, tbd), s);
  }

  /** The as-written prefix for a size below 256 stops at the subtraction. */
  lemma SmallSizeAsWrittenPrefix(s: Cpu, vs: nat, vmOffset: int, ta: Gpr, tb: Gpr, tbd: Gpr)
    requires vs < 256 && tb != tbd && tb != XzrSp && tbd != XzrSp
    ensures Exec([] + BaseBoundCode(true, true, vs, VmctxReg, vmOffset, ta, tb, tbd), s) == Stuck(true)
  {
    var sb := BaseRuns(s, VmctxReg, vmOffset, tb);
    var s2 := BoundLoadRuns(sb, VmctxReg, vmOffset, tb, tbd);
    var load := [Ldr(S64, GPR(tb), Memory(VmctxReg, vmOffset))];
    ExecChain(load, BoundLoadCode(VmctxReg, vmOffset, tb, tbd), s, sb, s2);
    var bad := Sub(S64, GPR(tbd), GPR(tbd), Imm8(vs));
    assert Exec1(bad, s2) == Invalid;
    assert Exec([bad], s2) == Stuck(true);
    ExecAppend(load + BoundLoadCode(VmctxReg, vmOffset, tb, tbd), [bad], s);
    assert [] + BaseBoundCode(true, true, vs, VmctxReg, vmOffset, ta, tb, tbd) ==
           load + BoundLoadCode(VmctxReg, vmOffset, tb, tbd) + [bad];
  }

  /** As written, a size of 256 or more is loaded into `tmp_base`, which
      still holds the base: the bound test is right, but the address is then
      formed from the size. The guard decides as `GuardSpec` with the size
      in place of the base and `bound + base - size` as the bound. */
  lemma LargeSizeAsWrittenRuns(s: Cpu, addr: Location, memarg: MemArg, checkAlignment: bool, vs: nat,
                               vmOffset: int, oob: Label, cb: Gpr -> seq<Instr>, used: set<Gpr>, op: MemOp)
    returns (t: Cpu)
    requires MemoryOpCodeAsWritten(addr, memarg, checkAlignment, vs, true, false, vmOffset, oob, cb, used) == Ok(op)
    requires vs >= 256 && (IsReg(addr) || IsImm(addr)) && (addr.GPR? ==> addr.r !in FreeTemps(used))
    ensures |op.taken| == 3
    ensures var g := GuardSpec(AluValue(s, addr) % U32, memarg.offset, true, vs, vs,
                               Load(s, XReg(s, VmctxReg) + vmOffset + 8) + Load(s, XReg(s, VmctxReg) + vmOffset) - vs,
                               checkAlignment, memarg.align);
            g.Trap? ==> Exec(op.guard, s) == Jumped(oob, t)
    ensures var g := GuardSpec(AluValue(s, addr) % U32, memarg.offset, true, vs, vs,
                               Load(s, XReg(s, VmctxReg) + vmOffset + 8) + Load(s, XReg(s, VmctxReg) + vmOffset) - vs,
                               checkAlignment, memarg.align);
            g.Pass? ==> Exec(op.guard, s) == Finished(t) && XReg(t, op.taken[0]) == g.address
  {
    MemoryOpShape(true, addr, memarg, checkAlignment, vs, true, false, vmOffset, oob, cb, used, op);
    var ta, tb, tbd := op.taken[0], op.taken[1], op.taken[2];
    MemoryOpTemps(used, ta, tb, tbd);
    TempPoolIsolated(ta);
    TempPoolIsolated(tb);
    TempPoolIsolated(tbd);
    t := LargeSizeAsWrittenGuard(s, addr, memarg, checkAlignment, vs, vmOffset, oob, ta, tb, tbd);
  }

  /** `LargeSizeAsWrittenRuns` on explicit temporaries. */
  lemma LargeSizeAsWrittenGuard(s: Cpu, addr: Location, memarg: MemArg, checkAlignment: bool, vs: nat,
                                vmOffset: int, oob: Label, ta: Gpr, tb: Gpr, tbd: Gpr) returns (t: Cpu)
    requires vs >= 256 && ta != tb && ta != tbd && tb != tbd && ta != XzrSp && tb != XzrSp && tbd != XzrSp
    requires tb != VmctxReg && (IsReg(addr) || IsImm(addr)) && (addr.GPR? ==> addr.r !in {tb, tbd})
    ensures var g := GuardSpec(AluValue(s, addr) % U32, memarg.offset, true, vs, vs,
                               Load(s, XReg(s, VmctxReg) + vmOffset + 8) + Load(s, XReg(s, VmctxReg) + vmOffset) - vs,
                               checkAlignment, memarg.align);
            var code := [] + BaseBoundCode(true, true, vs, VmctxReg, vmOffset, ta, tb, tbd) +
                        TailCode(addr, memarg, checkAlignment, true, oob, ta, tb, tbd);
            if g.Trap? then Exec(code, s) == Jumped(oob, t)
            else Exec(code, s) == Finished(t) && XReg(t, ta) == g.address
  {
    var base := Load(s, XReg(s, VmctxReg) + vmOffset);
    var bound := Load(s, XReg(s, VmctxReg) + vmOffset + 8);
    var sc := LargeSizeAsWrittenPrefix(s, vs, vmOffset, ta, tb, tbd);
    t := GuardFromPrefix([] + BaseBoundCode(true, true, vs, VmctxReg, vmOffset, ta, tb, tbd), s, sc, addr, memarg,
                         checkAlignment, vs, true, vs, bound + base - vs, oob, ta, tb, tbd, {tb, tbd}, {ta, tb, tbd});
  }


  /** The as-written prefix for a size of 256 or more: `tmp_base` ends up
      holding the size, `tmp_bound` the right last valid start. */
  lemma LargeSizeAsWrittenPrefix(s: Cpu, vs: nat, vmOffset: int, ta: Gpr, tb: Gpr, tbd: Gpr) returns (t: Cpu)
    requires vs >= 256 && ta != tb && ta != tbd && tb != tbd && tb != XzrSp && tbd != XzrSp && tb != VmctxReg
    ensures Exec([] + BaseBoundCode(true, true, vs, VmctxReg, vmOffset, ta, tb, tbd), s) == Finished(t)
    ensures XReg(t, tb) == vs
    ensures XReg(t, tbd) == Load(s, XReg(s, VmctxReg) + vmOffset + 8) + Load(s, XReg(s, VmctxReg) + vmOffset) - vs
    ensures Kept(s, t, {tb, tbd})
  {
    var sb := BaseRuns(s, VmctxReg, vmOffset, tb);
    var s2 := BoundLoadRuns(sb, VmctxReg, vmOffset, tb, tbd);
    var s3 := SetX(s2, tb, vs);
    MovImmRegStep(s2, tb, vs);
    t := SetX(s3, tbd, XReg(s2, tbd) - vs);
    SubRegsStep(s3, tbd, tb, tbd, XReg(s2, tbd) - vs);
    ExecPair(MovImm(GPR(tb), vs), Sub(S64, GPR(tbd), GPR(tb), GPR(tbd)), s2, s3, t);
    ExecChain(BoundLoadCode(VmctxReg, vmOffset, tb, tbd), SizeCode(true, vs, ta, tb, tbd), sb, s2, t);
    ExecChain([Ldr(S64, GPR(tb), Memory(VmctxReg, vmOffset))],
              BoundLoadCode(VmctxReg, vmOffset, tb, tbd) + SizeCode(true, vs, ta, tb, tbd), s, sb, t);
    assert [] + BaseBoundCode(true, true, vs, VmctxReg, vmOffset, ta, tb, tbd) ==
           [Ldr(S64, GPR(tb), Memory(VmctxReg, vmOffset))] +
           (BoundLoadCode(VmctxReg, vmOffset, tb, tbd) + SizeCode(true, vs, ta, tb, tbd));
  }


  // ---------------------------------------------------------------------
  // i32_load, i32_load_8u, i32_load_8s, i32_load_16u, i32_load_16s

  /** The five implemented 32-bit loads. */
  datatype I32Load = Load32 | Load8U | Load8S | Load16U | Load16S

  /** The `value_size` each load hands to `memory_op`: the bytes it reads. */
  function ValueSize(k: I32Load): (n: nat)
    ensures n == 1 || n == 2 || n == 4
  {
    match k
    case Load32 => 4
    case Load8U | Load8S => 1
    case Load16U | Load16S => 2
  }

  /** The single load each callback emits from `[tmp_addr]` into `ret`. */
  function AccessInstr(k: I32Load, ret: Location, a: Gpr): Instr {
    match k
    case Load32 => Ldur(S32, ret, a, 0)
    case Load8U => LoadNarrow(Ldrb, S32, ret, a, 0)
    case Load8S => LoadNarrow(Ldrsb, S32, ret, a, 0)
    case Load16U => LoadNarrow(Ldrh, S32, ret, a, 0)
    case Load16S => LoadNarrow(Ldrsh, S32, ret, a, 0)
  }

  function Callback(k: I32Load, ret: Location): Gpr -> seq<Instr> {
    a => [AccessInstr(k, ret, a)]
  }

  /** `i32_load*`: `memory_op` without the alignment test. */
  function I32LoadCodeWith(asWritten: bool, k: I32Load, addr: Location, memarg: MemArg, ret: Location, needCheck: bool,
                           imported: bool, vmOffset: int, oob: Label, used: set<Gpr>): Result<MemOp> {
    MemoryOpCodeWith(asWritten, addr, memarg, false, ValueSize(k), needCheck, imported, vmOffset, oob,
                     Callback(k, ret), used)
  }

  function I32LoadCode(k: I32Load, addr: Location, memarg: MemArg, ret: Location, needCheck: bool,
                       imported: bool, vmOffset: int, oob: Label, used: set<Gpr>): Result<MemOp> {
    I32LoadCodeWith(false, k, addr, memarg, ret, needCheck, imported, vmOffset, oob, used)
  }

  /** A bounds-checked 32-bit load of a memory of at most 4 GiB traps
      exactly when one of the bytes `[ea, ea + size)` at the effective
      address `ea` (32-bit address plus offset) is not below the memory
      size; otherwise its one load reads through `tmp_addr = base + ea`,
      and nothing but free temporaries has changed. */
  lemma I32LoadGuard(s: Cpu, k: I32Load, addr: Location, memarg: MemArg, ret: Location, imported: bool,
                     vmOffset: int, oob: Label, used: set<Gpr>, op: MemOp) returns (t: Cpu)
    requires I32LoadCode(k, addr, memarg, ret, true, imported, vmOffset, oob, used) == Ok(op)
    requires IsReg(addr) || IsImm(addr)
    requires addr.GPR? ==> addr.r !in FreeTemps(used)
    requires 0 <= Load(s, TableAddr(s, imported, vmOffset) + 8) <= U32
    ensures |op.taken| == 3 && op.access == [AccessInstr(k, ret, op.taken[0])]
    ensures AluValue(s, addr) % U32 + memarg.offset + ValueSize(k) > Load(s, TableAddr(s, imported, vmOffset) + 8) ==>
            Exec(op.guard, s) == Jumped(oob, t)
    ensures AluValue(s, addr) % U32 + memarg.offset + ValueSize(k) <= Load(s, TableAddr(s, imported, vmOffset) + 8) ==>
            Exec(op.guard, s) == Finished(t) && Kept(s, t, FreeTemps(used)) &&
            XReg(t, op.taken[0]) == Load(s, TableAddr(s, imported, vmOffset)) + AluValue(s, addr) % U32 + memarg.offset
  {
    var cb := Callback(k, ret);
    MemoryOpShape(false, addr, memarg, false, ValueSize(k), true, imported, vmOffset, oob, cb, used, op);
    t := MemoryOpGuard(s, addr, memarg, false, ValueSize(k), true, imported, vmOffset, oob, cb, used, op);
    Pow2Of32();
    GuardIsWasmBoundsCheck(AluValue(s, addr) % U32, memarg.offset, ValueSize(k),
                           Load(s, TableAddr(s, imported, vmOffset)), Load(s, TableAddr(s, imported, vmOffset) + 8));
  }

  /** As written, every bounds-checked 32-bit load of a local memory
      reaches the invalid small-size subtraction. */
  lemma I32LoadAsWrittenStuck(s: Cpu, k: I32Load, addr: Location, memarg: MemArg, ret: Location,
                              vmOffset: int, oob: Label, used: set<Gpr>, op: MemOp)
    requires I32LoadCodeWith(true, k, addr, memarg, ret, true, false, vmOffset, oob, used) == Ok(op)
    ensures Exec(op.guard, s) == Stuck(true)
  {
    SmallSizeAsWrittenStuck(s, addr, memarg, false, ValueSize(k), vmOffset, oob, Callback(k, ret), used, op);
  }

}
