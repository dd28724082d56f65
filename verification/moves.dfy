/** Operand moves and stack-pointer adjustments of the AArch64 back end:
    `move_location`, `adjust_stack`, `restore_stack`, `pop_stack_locals`,
    `restore_saved_area`, `move_local`, `zero_location`,
    `push_location_for_native` and `emit_function_return_float`.
    Each function gives the instructions the method appends. A `tmp`
    argument is the register `pick_temp_gpr` (or `acquire_temp_gpr`) returns
    at that point, `None` when X0..X7 are all in use; the source unwraps it,
    so `None` on a path that needs it is a panic. */
module Moves {
  import opened Wrappers
  import opened Locations
  import opened Isa
  import opened Frame
  import opened Stack

  /** Computes `addr ± |offs|` into `tmp`, for offsets no load/store form encodes. */
  function FarAddrCode(addr: Gpr, offs: int, tmp: Gpr): seq<Instr> {
    if offs < 0 then [MovImm(GPR(tmp), -offs), Sub(S64, GPR(addr), GPR(tmp), GPR(tmp))]
    else [MovImm(GPR(tmp), offs), Add(S64, GPR(addr), GPR(tmp), GPR(tmp))]
  }

  /** `move_location`, with the register operands of its STUR and of its
      far-offset LDR as evidently intended (see `MoveLocationCodeAsWritten`). */
  function MoveLocationCode(sz: Size, source: Location, dest: Location, tmp: Option<Gpr>): Result<seq<Instr>> {
    match source
    case GPR(_) | SIMD(_) =>
      (match dest
       case GPR(_) | SIMD(_) => Ok([Mov(sz, source, dest)])
       case Memory(addr, offs) =>
         if OffsetIsOk(sz, offs) then Ok([Str(sz, source, dest)])
         else if -256 < offs < 256 then Ok([Stur(sz, source, addr, offs)])
         else if tmp.None? then Fail(NoTempRegister)
         else Ok(FarAddrCode(addr, offs, tmp.value) + [Str(sz, source, GPR(tmp.value))])
       case _ => Fail(Unsupported))
    case Imm8(_) | Imm32(_) | Imm64(_) =>
      if dest.GPR? then Ok([Mov(sz, source, dest)]) else Fail(Unsupported)
    case Memory(addr, offs) =>
      if !dest.GPR? then Fail(Unsupported)
      else if OffsetIsOk(sz, offs) then Ok([Ldr(sz, dest, source)])
      else if -256 < offs < 256 then Ok([Ldur(sz, dest, addr, offs)])
      else if tmp.None? then Fail(NoTempRegister)
      else Ok(FarAddrCode(addr, offs, tmp.value) + [Ldr(sz, dest, GPR(tmp.value))])
  }

  /** `move_location` as written: the STUR is handed the memory destination
      as the register to store, and the far-offset LDR the memory source as
      the register to load into. */
  function MoveLocationCodeAsWritten(sz: Size, source: Location, dest: Location, tmp: Option<Gpr>): Result<seq<Instr>> {
    if IsReg(source) && dest.Memory? && !OffsetIsOk(sz, dest.offset) && -256 < dest.offset < 256 then
      Ok([Stur(sz, dest, dest.base, dest.offset)])
    else if source.Memory? && dest.GPR? && !OffsetIsOk(sz, source.offset) && !(-256 < source.offset < 256) && tmp.Some? then
      Ok(FarAddrCode(source.base, source.offset, tmp.value) + [Ldr(sz, source, GPR(tmp.value))])
    else MoveLocationCode(sz, source, dest, tmp)
  }

  /** The combinations `move_location` accepts. */
  predicate MoveAccepted(source: Location, dest: Location) {
    (IsReg(source) && (IsReg(dest) || dest.Memory?)) ||
    (IsImm(source) && dest.GPR?) ||
    (source.Memory? && dest.GPR?)
  }

  /** Which forms need the temporary register. */
  predicate NeedsTemp(sz: Size, source: Location, dest: Location) {
    (IsReg(source) && dest.Memory? && !OffsetIsOk(sz, dest.offset) && !(-256 < dest.offset < 256)) ||
    (source.Memory? && dest.GPR? && !OffsetIsOk(sz, source.offset) && !(-256 < source.offset < 256))
  }

  /** `move_location` fails exactly on the rejected combinations and, for an
      offset no single load or store encodes, when no temporary is free. */
  lemma MoveLocationOutcome(sz: Size, source: Location, dest: Location, tmp: Option<Gpr>)
    ensures MoveLocationCode(sz, source, dest, tmp).Ok? <==>
            MoveAccepted(source, dest) && (NeedsTemp(sz, source, dest) ==> tmp.Some?)
    ensures !MoveAccepted(source, dest) ==> MoveLocationCode(sz, source, dest, tmp) == Fail(Unsupported)
  {
  }

  /** Load/store offsets the chosen instruction form can encode: the scaled
      unsigned 12-bit form (see `OffsetIsOkMeansEncodable`) for LDR/STR and
      the signed 9-bit form for LDUR/STUR. */
  predicate Encodable(sz: Size, i: Instr) {
    match i
    case Str(_, _, Memory(_, o)) => OffsetIsOk(sz, o)
    case Ldr(_, _, Memory(_, o)) => OffsetIsOk(sz, o)
    case Stur(_, _, _, o) => -256 <= o < 256
    case Ldur(_, _, _, o) => -256 <= o < 256
    case _ => true
  }

  /** Every load or store `move_location` emits has an encodable offset, and
      the three-instruction form is used only when neither the scaled nor
      the unscaled form fits. */
  lemma MoveFormsEncodable(sz: Size, source: Location, dest: Location, tmp: Option<Gpr>)
    requires MoveLocationCode(sz, source, dest, tmp).Ok?
    ensures var code := MoveLocationCode(sz, source, dest, tmp).value;
            (forall i :: 0 <= i < |code| ==> Encodable(sz, code[i])) &&
            (|code| == 1 <==> !NeedsTemp(sz, source, dest)) &&
            (|code| == 3 <==> NeedsTemp(sz, source, dest))
  {
    var code := MoveLocationCode(sz, source, dest, tmp).value;
    if NeedsTemp(sz, source, dest) {
      var t := tmp.value;
      var addr := if source.Memory? then source.base else dest.base;
      var offs := if source.Memory? then source.offset else dest.offset;
      assert code == FarAddrCode(addr, offs, t) + [code[2]];
      assert forall i :: 0 <= i < 2 ==> code[i] == FarAddrCode(addr, offs, t)[i];
    }
  }

  /** Registers, flags and SP agree except for the general-purpose registers in `rs`. */
  ghost predicate KeptBut(s: Cpu, t: Cpu, rs: set<Gpr>) {
    t.v == s.v && t.z == s.z && t.c == s.c &&
    forall q :: q !in rs ==> XReg(t, q) == XReg(s, q)
  }

  function TempSet(tmp: Option<Gpr>): set<Gpr> {
    if tmp.Some? then {tmp.value} else {}
  }

  /** The far-address sequence leaves `addr + offs` in `t` and changes nothing else. */
  lemma FarAddrRuns(s: Cpu, addr: Gpr, offs: int, t: Gpr)
    requires t != addr
    ensures Exec(FarAddrCode(addr, offs, t), s) == Finished(FarState(s, addr, offs, t))
  {
    var k := if offs < 0 then -offs else offs;
    var s1 := SetX(s, t, k);
    var u := SetX(s1, t, XReg(s, addr) + offs);
    assert u == FarState(s, addr, offs, t);
    MovImmRegStep(s, t, k);
    if offs < 0 {
      SubRegsStep(s1, addr, t, t, XReg(s, addr) + offs);
      ExecPair(MovImm(GPR(t), k), Sub(S64, GPR(addr), GPR(t), GPR(t)), s, s1, u);
    } else {
      AddRegsStep(s1, addr, t, t, XReg(s, addr) + offs);
      ExecPair(MovImm(GPR(t), k), Add(S64, GPR(addr), GPR(t), GPR(t)), s, s1, u);
    }
  }

  /** A 64-bit move from a register to memory stores the register's value at
      base + offset, leaves the rest of memory alone, and changes no register
      but the temporary. */
  lemma MoveToMemory(s: Cpu, source: Location, addr: Gpr, offs: int, tmp: Option<Gpr>)
    requires IsReg(source) && MoveLocationCode(S64, source, Memory(addr, offs), tmp).Ok?
    requires tmp.Some? ==> source != GPR(tmp.value) && addr != tmp.value && tmp.value != XzrSp
    ensures var r := Exec(MoveLocationCode(S64, source, Memory(addr, offs), tmp).value, s);
            r.Finished? && r.s.mem == s.mem[XReg(s, addr) + offs := RegValue(s, source)] &&
            r.s.sp == s.sp && KeptBut(s, r.s, TempSet(tmp))
  {
    var a, val := XReg(s, addr) + offs, RegValue(s, source);
    var t := s.(mem := s.mem[a := val]);
    if OffsetIsOk(S64, offs) {
      StoreWordStep(s, source, addr, offs, a, val);
      ExecOne(Str(S64, source, Memory(addr, offs)), s, t);
    } else if -256 < offs < 256 {
      SturStep(s, source, addr, offs, a, val);
      ExecOne(Stur(S64, source, addr, offs), s, t);
    } else {
      FarStore(s, source, addr, offs, tmp.value);
    }
  }

  /** The registers after `FarAddrCode`: `t` holds `addr + offs`, everything else as before. */
  function FarState(s: Cpu, addr: Gpr, offs: int, t: Gpr): (u: Cpu)
    requires t != addr
    ensures XReg(u, t) == XReg(s, addr) + offs && u.mem == s.mem
    ensures KeptBut(s, u, {t})
  {
    SetX(SetX(s, t, if offs < 0 then -offs else offs), t, XReg(s, addr) + offs)
  }

  lemma FarStore(s: Cpu, source: Location, addr: Gpr, offs: int, t: Gpr)
    requires IsReg(source) && source != GPR(t) && addr != t && t != XzrSp
    ensures var r := Exec(FarAddrCode(addr, offs, t) + [Str(S64, source, GPR(t))], s);
            r.Finished? && r.s.mem == s.mem[XReg(s, addr) + offs := RegValue(s, source)] &&
            r.s.sp == s.sp && KeptBut(s, r.s, {t})
  {
    var u := FarState(s, addr, offs, t);
    FarAddrRuns(s, addr, offs, t);
    SameRegValue(s, u, source, t);
    ThenStoreAt(s, FarAddrCode(addr, offs, t), u, source, t, XReg(s, addr) + offs, RegValue(s, source));
    var w := u.(mem := s.mem[XReg(s, addr) + offs := RegValue(s, source)]);
    assert XReg(w, XzrSp) == XReg(u, XzrSp);
  }

  /** Code that finishes with the address in `t`, followed by a store through `t`. */
  lemma ThenStoreAt(s: Cpu, code: seq<Instr>, u: Cpu, src: Location, t: Gpr, a: int, val: int)
    requires Exec(code, s) == Finished(u) && IsReg(src) && XReg(u, t) == a && RegValue(u, src) == val
    ensures Exec(code + [Str(S64, src, GPR(t))], s) == Finished(u.(mem := u.mem[a := val]))
  {
    ExecAppend(code, [Str(S64, src, GPR(t))], s);
    StoreWordAtStep(u, src, t, a, val);
    ExecOne(Str(S64, src, GPR(t)), u, u.(mem := u.mem[a := val]));
  }

  /** A register other than the changed one reads the same. */
  lemma SameRegValue(s: Cpu, u: Cpu, l: Location, t: Gpr)
    requires IsReg(l) && l != GPR(t) && KeptBut(s, u, {t})
    ensures RegValue(u, l) == RegValue(s, l)
  {
    if l.GPR? && l.r != XzrSp {
      assert XReg(u, l.r) == XReg(s, l.r);
    }
  }

  /** A 64-bit move from memory to a general-purpose register loads the word
      at base + offset into it and changes no other register but the
      temporary; memory is left alone. */
  lemma MoveFromMemory(s: Cpu, addr: Gpr, offs: int, dest: Gpr, tmp: Option<Gpr>)
    requires MoveLocationCode(S64, Memory(addr, offs), GPR(dest), tmp).Ok?
    requires tmp.Some? ==> addr != tmp.value && tmp.value != XzrSp
    ensures var r := Exec(MoveLocationCode(S64, Memory(addr, offs), GPR(dest), tmp).value, s);
            r.Finished? && r.s.mem == s.mem && r.s.sp == s.sp &&
            (dest != XzrSp ==> XReg(r.s, dest) == Load(s, XReg(s, addr) + offs)) &&
            KeptBut(s, r.s, {dest} + TempSet(tmp))
  {
    var a := XReg(s, addr) + offs;
    var w := WriteReg(s, GPR(dest), Load(s, a));
    if OffsetIsOk(S64, offs) {
      LoadWordStep(s, GPR(dest), addr, offs, a);
      ExecOne(Ldr(S64, GPR(dest), Memory(addr, offs)), s, w);
      WriteGpr(s, dest, Load(s, a));
    } else if -256 < offs < 256 {
      LdurStep(s, GPR(dest), addr, offs, a);
      ExecOne(Ldur(S64, GPR(dest), addr, offs), s, w);
      WriteGpr(s, dest, Load(s, a));
    } else {
      FarLoad(s, addr, offs, dest, tmp.value);
    }
  }

  lemma FarLoad(s: Cpu, addr: Gpr, offs: int, dest: Gpr, t: Gpr)
    requires addr != t && t != XzrSp
    ensures var r := Exec(FarAddrCode(addr, offs, t) + [Ldr(S64, GPR(dest), GPR(t))], s);
            r.Finished? && r.s.mem == s.mem && r.s.sp == s.sp &&
            (dest != XzrSp ==> XReg(r.s, dest) == Load(s, XReg(s, addr) + offs)) &&
            KeptBut(s, r.s, {dest} + {t})
  {
    var a := XReg(s, addr) + offs;
    var u := FarState(s, addr, offs, t);
    FarAddrRuns(s, addr, offs, t);
    ThenLoadAt(s, FarAddrCode(addr, offs, t), u, GPR(dest), t, a);
    WriteGpr(u, dest, Load(s, a));
    KeptButTrans(s, u, WriteReg(u, GPR(dest), Load(s, a)), {t}, {dest});
  }

  /** Code that finishes with the address in `t`, followed by a load through `t`. */
  lemma ThenLoadAt(s: Cpu, code: seq<Instr>, u: Cpu, dst: Location, t: Gpr, a: int)
    requires Exec(code, s) == Finished(u) && IsReg(dst) && XReg(u, t) == a
    ensures Exec(code + [Ldr(S64, dst, GPR(t))], s) == Finished(WriteReg(u, dst, Load(u, a)))
  {
    ExecAppend(code, [Ldr(S64, dst, GPR(t))], s);
    LoadWordAtStep(u, dst, t, a);
    ExecOne(Ldr(S64, dst, GPR(t)), u, WriteReg(u, dst, Load(u, a)));
  }

  /** What a load into a general-purpose register changes. */
  lemma WriteGpr(s: Cpu, d: Gpr, val: int)
    ensures var t := WriteReg(s, GPR(d), val);
            KeptBut(s, t, {d}) && (d != XzrSp ==> XReg(t, d) == val)
  {
  }

  lemma KeptButTrans(s: Cpu, u: Cpu, w: Cpu, a: set<Gpr>, b: set<Gpr>)
    requires KeptBut(s, u, a) && KeptBut(u, w, b)
    ensures KeptBut(s, w, b + a)
  {
  }

  /** A move between registers, or of an immediate into a general-purpose
      register, is one MOV: the destination receives the source value cut
      to the operand size, memory is left alone, and a general-purpose
      destination is the only register that changes. */
  lemma MoveToRegister(s: Cpu, sz: Size, source: Location, dest: Location, tmp: Option<Gpr>)
    requires (IsReg(source) && IsReg(dest)) || (IsImm(source) && dest.GPR?)
    ensures MoveLocationCode(sz, source, dest, tmp) == Ok([Mov(sz, source, dest)])
    ensures var r := Exec([Mov(sz, source, dest)], s);
            r.Finished? && AluValue(r.s, dest) == Fit(sz, AluValue(s, source)) && r.s.mem == s.mem &&
            (dest.GPR? ==> KeptBut(s, r.s, {dest.r})) &&
            (dest.SIMD? ==> r.s.x == s.x && r.s.sp == s.sp)
  {
    var t := AluWrite(s, dest, Fit(sz, AluValue(s, source))).value;
    MovToRegStep(s, sz, source, dest);
    ExecOne(Mov(sz, source, dest), s, t);
  }

  /** `emit_function_return_float`: the value returned in X0 is copied to V0. */
  lemma ReturnFloatCopiesX0(s: Cpu)
    ensures var r := Exec(MoveLocationCode(S64, GPR(X(0)), SIMD(RetSimd), None).value, s);
            r.Finished? && Get(r.s.v, RetSimd) == XReg(s, X(0)) && r.s.x == s.x && r.s.mem == s.mem
  {
    MoveToRegister(s, S64, GPR(X(0)), SIMD(RetSimd), None);
  }

  /** As written, a register stored at a negative offset within the unscaled
      range yields a STUR whose data operand is the memory destination,
      which no instruction encodes; the corrected code stores the register. */
  lemma SturAsWrittenStoresNoRegister(s: Cpu)
    ensures Exec(MoveLocationCodeAsWritten(S64, GPR(X(0)), Memory(FrameReg, -8), None).value, s) == Stuck(true)
    ensures var r := Exec(MoveLocationCode(S64, GPR(X(0)), Memory(FrameReg, -8), None).value, s);
            r.Finished? && r.s.mem == s.mem[XReg(s, FrameReg) - 8 := XReg(s, X(0))]
  {
    assert !OffsetIsOk(S64, -8);
    MoveToMemory(s, GPR(X(0)), FrameReg, -8, None);
  }

  /** As written, a load from an offset beyond both immediate forms ends in
      an LDR whose destination is the memory source, which no instruction
      encodes (the corrected code is `MoveFromMemory`). */
  lemma FarLoadAsWrittenLoadsNoRegister(s: Cpu)
    ensures Exec(MoveLocationCodeAsWritten(S64, Memory(FrameReg, -4096), GPR(X(1)), Some(X(0))).value, s) == Stuck(true)
  {
    FarAddrRuns(s, FrameReg, -4096, X(0));
    ThenInvalid(s, FarAddrCode(FrameReg, -4096, X(0)), FarState(s, FrameReg, -4096, X(0)),
                Ldr(S64, Memory(FrameReg, -4096), GPR(X(0))));
  }

  /** Code followed by a load whose destination is not a register. */
  lemma ThenInvalid(s: Cpu, code: seq<Instr>, u: Cpu, i: Instr)
    requires Exec(code, s) == Finished(u) && i.Ldr? && !IsReg(i.dst)
    ensures Exec(code + [i], s) == Stuck(true)
  {
    ExecAppend(code, [i], s);
  }

  /** The amount `adjust_stack`, `restore_stack` and `pop_stack_locals`
      move SP by: an 8-bit immediate below 256, otherwise a temporary loaded
      with it. */
  function DeltaOperand(delta: nat, tmp: Option<Gpr>): Result<(seq<Instr>, Location)> {
    if delta < 256 then Ok(([], Imm8(AsU8(delta))))
    else if tmp.None? then Fail(NoTempRegister)
    else Ok(([MovImm(GPR(tmp.value), delta)], GPR(tmp.value)))
  }

  /** `adjust_stack`: SP := SP - delta, reserving room for locals. */
  function AdjustStackCode(delta: nat, tmp: Option<Gpr>): Result<seq<Instr>> {
    match DeltaOperand(delta, tmp)
    case Fail(e) => Fail(e)
    case Ok((pre, d)) => Ok(pre + [Sub(S64, GPR(XzrSp), d, GPR(XzrSp))])
  }

  /** `restore_stack` and `pop_stack_locals`, which emit the same code:
      SP := SP + delta. */
  function RestoreStackCode(delta: nat, tmp: Option<Gpr>): Result<seq<Instr>> {
    match DeltaOperand(delta, tmp)
    case Fail(e) => Fail(e)
    case Ok((pre, d)) => Ok(pre + [Add(S64, GPR(XzrSp), d, GPR(XzrSp))])
  }

  /** Both fail only when the amount needs a temporary and none is free. */
  lemma StackCodeOutcome(delta: nat, tmp: Option<Gpr>)
    ensures AdjustStackCode(delta, tmp).Ok? <==> delta < 256 || tmp.Some?
    ensures RestoreStackCode(delta, tmp).Ok? <==> delta < 256 || tmp.Some?
    ensures AdjustStackCode(delta, tmp).Ok? ==> |AdjustStackCode(delta, tmp).value| == (if delta < 256 then 1 else 2)
  {
  }

  /** `adjust_stack` lowers SP by exactly `delta`; memory, flags and the
      other registers but the temporary keep their values. */
  lemma AdjustStackLowersSp(s: Cpu, delta: nat, tmp: Option<Gpr>)
    requires AdjustStackCode(delta, tmp).Ok?
    requires tmp.Some? ==> tmp.value != XzrSp
    ensures var r := Exec(AdjustStackCode(delta, tmp).value, s);
            r.Finished? && r.s.sp == s.sp - delta && r.s.mem == s.mem &&
            KeptBut(s, r.s, {XzrSp} + TempSet(tmp))
  {
    if delta < 256 {
      SpSubStep(s, delta);
      ExecOne(Sub(S64, GPR(XzrSp), Imm8(delta), GPR(XzrSp)), s, s.(sp := s.sp - delta));
    } else {
      var t := tmp.value;
      var s1 := SetX(s, t, delta);
      MovImmRegStep(s, t, delta);
      SubRegsStep(s1, XzrSp, t, XzrSp, s.sp - delta);
      ExecPair(MovImm(GPR(t), delta), Sub(S64, GPR(XzrSp), GPR(t), GPR(XzrSp)), s, s1, SetX(s1, XzrSp, s.sp - delta));
    }
  }

  /** `restore_stack` and `pop_stack_locals` raise SP by exactly `delta`. */
  lemma RestoreStackRaisesSp(s: Cpu, delta: nat, tmp: Option<Gpr>)
    requires RestoreStackCode(delta, tmp).Ok?
    requires tmp.Some? ==> tmp.value != XzrSp
    ensures var r := Exec(RestoreStackCode(delta, tmp).value, s);
            r.Finished? && r.s.sp == s.sp + delta && r.s.mem == s.mem &&
            KeptBut(s, r.s, {XzrSp} + TempSet(tmp))
  {
    if delta < 256 {
      SpAddStep(s, delta);
      ExecOne(Add(S64, GPR(XzrSp), Imm8(delta), GPR(XzrSp)), s, s.(sp := s.sp + delta));
    } else {
      var t := tmp.value;
      var s1 := SetX(s, t, delta);
      MovImmRegStep(s, t, delta);
      AddRegsStep(s1, XzrSp, t, XzrSp, s.sp + delta);
      ExecPair(MovImm(GPR(t), delta), Add(S64, GPR(XzrSp), GPR(t), GPR(XzrSp)), s, s1, SetX(s1, XzrSp, s.sp + delta));
    }
  }

  /** Reserving `delta` bytes and releasing them again returns SP to where
      it was, whichever temporaries the two calls picked. */
  lemma AdjustThenRestoreBalances(s: Cpu, delta: nat, t1: Option<Gpr>, t2: Option<Gpr>)
    requires AdjustStackCode(delta, t1).Ok? && RestoreStackCode(delta, t2).Ok?
    requires t1.Some? ==> t1.value != XzrSp
    requires t2.Some? ==> t2.value != XzrSp
    ensures var r := Exec(AdjustStackCode(delta, t1).value + RestoreStackCode(delta, t2).value, s);
            r.Finished? && r.s.sp == s.sp && r.s.mem == s.mem
  {
    var a, b := AdjustStackCode(delta, t1).value, RestoreStackCode(delta, t2).value;
    AdjustStackLowersSp(s, delta, t1);
    var s1 := Exec(a, s).s;
    RestoreStackRaisesSp(s1, delta, t2);
    ExecAppend(a, b, s);
  }

  /** `restore_saved_area`: SP := X27 - offset. The offset goes through
      `as u8` below 256, so a negative offset is taken modulo 256. */
  function RestoreSavedAreaCode(offset: int, tmp: Option<Gpr>): Result<seq<Instr>> {
    if offset < 256 then Ok([Sub(S64, GPR(FrameReg), Imm8(AsU8(offset)), GPR(XzrSp))])
    else if tmp.None? then Fail(NoTempRegister)
    else Ok([MovImm(GPR(tmp.value), offset), Sub(S64, GPR(FrameReg), GPR(tmp.value), GPR(XzrSp))])
  }

  /** For a non-negative offset SP ends at the frame base minus the offset,
      and no other register but the temporary changes. */
  lemma RestoreSavedAreaSetsSp(s: Cpu, offset: int, tmp: Option<Gpr>)
    requires RestoreSavedAreaCode(offset, tmp).Ok?
    requires tmp.Some? ==> tmp.value != XzrSp && tmp.value != FrameReg
    ensures var r := Exec(RestoreSavedAreaCode(offset, tmp).value, s);
            r.Finished? && r.s.mem == s.mem &&
            r.s.sp == XReg(s, FrameReg) - (if 0 <= offset then offset else offset % 256) &&
            KeptBut(s, r.s, {XzrSp} + TempSet(tmp))
  {
    if offset < 256 {
      var k := AsU8(offset);
      SubImmStep(s, FrameReg, k, XzrSp, XReg(s, FrameReg) - k);
      ExecOne(Sub(S64, GPR(FrameReg), Imm8(k), GPR(XzrSp)), s, SetX(s, XzrSp, XReg(s, FrameReg) - k));
    } else {
      var t := tmp.value;
      var s1 := SetX(s, t, offset);
      MovImmRegStep(s, t, offset);
      SubRegsStep(s1, FrameReg, t, XzrSp, XReg(s, FrameReg) - offset);
      ExecPair(MovImm(GPR(t), offset), Sub(S64, GPR(FrameReg), GPR(t), GPR(XzrSp)), s, s1,
               SetX(s1, XzrSp, XReg(s, FrameReg) - offset));
    }
  }

  /** `move_local`: store a local's register into its frame slot
      `LocalOnStack(stackOffset)`, with STUR below 256 and through a
      temporary holding X27 - stackOffset otherwise. */
  function MoveLocalCode(stackOffset: int, location: Location, tmp: Option<Gpr>): Result<seq<Instr>> {
    if stackOffset < 256 then Ok([Stur(S64, location, FrameReg, -stackOffset)])
    else if tmp.None? then Fail(NoTempRegister)
    else Ok(FarAddrCode(FrameReg, -stackOffset, tmp.value) + [Str(S64, location, GPR(tmp.value))])
  }

  /** `move_local` stores the register at the address of
      `LocalOnStack(stackOffset)`, leaving SP and every other register but
      the temporary alone. */
  lemma MoveLocalStores(s: Cpu, stackOffset: int, location: Location, tmp: Option<Gpr>)
    requires IsReg(location) && MoveLocalCode(stackOffset, location, tmp).Ok?
    requires tmp.Some? ==> location != GPR(tmp.value) && tmp.value != FrameReg && tmp.value != XzrSp
    ensures var r := Exec(MoveLocalCode(stackOffset, location, tmp).value, s);
            var slot := LocalOnStack(stackOffset);
            r.Finished? && r.s.mem == s.mem[XReg(s, slot.base) + slot.offset := RegValue(s, location)] &&
            r.s.sp == s.sp && KeptBut(s, r.s, TempSet(tmp))
  {
    var a, val := XReg(s, FrameReg) - stackOffset, RegValue(s, location);
    if stackOffset < 256 {
      SturStep(s, location, FrameReg, -stackOffset, a, val);
      ExecOne(Stur(S64, location, FrameReg, -stackOffset), s, s.(mem := s.mem[a := val]));
    } else {
      FarStore(s, location, FrameReg, -stackOffset, tmp.value);
    }
  }

  /** For a non-negative stack offset every load/store `move_local` emits
      has an encodable offset. */
  lemma MoveLocalEncodable(stackOffset: int, location: Location, tmp: Option<Gpr>)
    requires 0 <= stackOffset && MoveLocalCode(stackOffset, location, tmp).Ok?
    ensures var code := MoveLocalCode(stackOffset, location, tmp).value;
            forall i :: 0 <= i < |code| ==> Encodable(S64, code[i])
  {
    if stackOffset >= 256 {
      var code := MoveLocalCode(stackOffset, location, tmp).value;
      assert forall i :: 0 <= i < 2 ==> code[i] == FarAddrCode(FrameReg, -stackOffset, tmp.value)[i];
    }
  }

  /** `zero_location`: only a general-purpose register can be zeroed. */
  function ZeroLocationCode(sz: Size, location: Location): Result<seq<Instr>> {
    if location.GPR? then Ok([MovImm(location, 0)]) else Fail(Unsupported)
  }

  lemma ZeroLocationZeroes(s: Cpu, sz: Size, location: Location)
    ensures ZeroLocationCode(sz, location).Ok? <==> location.GPR?
    ensures location.GPR? ==>
              var r := Exec(ZeroLocationCode(sz, location).value, s);
              r.Finished? && XReg(r.s, location.r) == 0 && r.s.mem == s.mem && KeptBut(s, r.s, {location.r})
  {
    if location.GPR? {
      MovImmRegStep(s, location.r, 0);
      ExecOne(MovImm(location, 0), s, SetX(s, location.r, 0));
    }
  }

  /** The scratch register `push_location_for_native` reserves for an
      immediate. */
  const NativeScratch: Gpr := X(4)

  /** `push_location_for_native`: a 64-bit immediate is first moved into X4,
      anything else is pushed as it is. */
  function PushLocationForNativeCode(pushed: bool, loc: Location): Result<seq<Instr>> {
    if loc.Imm64? then
      (match MoveLocationCode(S64, loc, GPR(NativeScratch), None)
       case Ok(mv) => Ok(mv + PushCode(pushed, GPR(NativeScratch)))
       case Fail(e) => Fail(e))
    else if PushOperand(S64, loc) then Ok(PushCode(pushed, loc))
    else Fail(Unsupported)
  }

  /** The pushed value lands on top of the machine stack: the immediate for
      an `Imm64`, the register's value otherwise. */
  lemma PushForNativeStacks(s: Cpu, top: int, stk: seq<int>, loc: Location)
    requires StackAt(s, top, stk)
    ensures PushLocationForNativeCode(Odd(|stk|), loc).Ok? <==> loc.Imm64? || IsReg(loc)
    ensures loc.Imm64? || IsReg(loc) ==>
              var val := if loc.Imm64? then loc.imm64 else RegValue(s, loc);
              var r := Exec(PushLocationForNativeCode(Odd(|stk|), loc).value, s);
              r.Finished? && StackAt(r.s, top, stk + [val])
  {
    if loc.Imm64? {
      var mv := Mov(S64, loc, GPR(NativeScratch));
      var s1 := SetX(s, NativeScratch, loc.imm64);
      MovToRegStep(s, S64, loc, GPR(NativeScratch));
      ExecCons(mv, PushCode(Odd(|stk|), GPR(NativeScratch)), s, s1);
      assert StackAt(s1, top, stk) by {
        assert s1.sp == s.sp && s1.mem == s.mem;
      }
      PushStep(s1, top, stk, GPR(NativeScratch));
    } else if IsReg(loc) {
      PushStep(s, top, stk, loc);
    }
  }
}
