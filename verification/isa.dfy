/** The assembler as an append-only list of abstract A64 instructions, and a
    small evaluator that gives those instructions a meaning over mathematical
    integers. Each constructor stands for one `emit_*` entry point of the
    emitter; operand roles follow the call sites (`emit_add(sz, a, b, d)` and
    `emit_sub(sz, a, b, d)` write `d := a op b`). */
module Isa {
  import opened Locations
  import opened Wrappers

  type Label = nat

  /** Condition codes the core branches on. */
  datatype Cond = Eq | Ne | Cs | Hi

  /** Byte and half-word loads used by the `i32_load*` callbacks. */
  datatype NarrowLoad = Ldrb | Ldrsb | Ldrh | Ldrsh

  datatype Instr =
    | Mov(sz: Size, src: Location, dst: Location)
    | MovImm(dst: Location, imm: int)
    | Add(sz: Size, src1: Location, src2: Location, dst: Location)
    | Sub(sz: Size, src1: Location, src2: Location, dst: Location)
    | Add2(sz: Size, src: Location, dst: Location)
    | Str(sz: Size, src: Location, addr: Location)
    | Ldr(sz: Size, dst: Location, addr: Location)
    | Stur(sz: Size, src: Location, base: Gpr, off: int)
    | Ldur(sz: Size, dst: Location, base: Gpr, off: int)
    | LoadNarrow(kind: NarrowLoad, sz: Size, dst: Location, base: Gpr, off: int)
    | Stpbd(sz: Size, src1: Location, src2: Location, base: Gpr, imm: int)
    | Ldpai(sz: Size, dst1: Location, dst2: Location, base: Gpr, imm: int)
    | Cmp(sz: Size, src: Location, dst: Location)
    | Tst(sz: Size, src: Location, dst: Location)
    | BCond(cond: Cond, target: Label)
    | Movk(dst: Location, imm: int, shift: nat)

  /** Every A64 instruction is four bytes long. */
  const InstrBytes: nat := 4

  /** `assembler.get_offset()` after emitting `code`. */
  function CodeSize(code: seq<Instr>): (n: nat)
    ensures n == InstrBytes * |code|
  {
    InstrBytes * |code|
  }

  /** Machine state: X0..X30, V0..V31, SP, memory as 64-bit words by byte
      address, and the Z and C flags. Absent entries read as zero. */
  datatype Cpu = Cpu(x: map<Gpr, int>, v: map<Neon, int>, sp: int, mem: map<int, int>, z: bool, c: bool)

  function Get<K>(m: map<K, int>, k: K): int {
    if k in m then m[k] else 0
  }

  /** Register 31 read as an address or arithmetic operand: SP. */
  function XReg(s: Cpu, r: Gpr): int {
    if r == XzrSp then s.sp else Get(s.x, r)
  }

  function SetX(s: Cpu, r: Gpr, val: int): (t: Cpu)
    ensures XReg(t, r) == val
    ensures t.v == s.v && t.mem == s.mem && t.z == s.z && t.c == s.c
    ensures forall q :: q != r ==> XReg(t, q) == XReg(s, q)
  {
    if r == XzrSp then s.(sp := val) else s.(x := s.x[r := val])
  }

  /** Register 31 read as the data operand of a load or store: XZR. */
  function DataReg(s: Cpu, r: Gpr): int {
    if r == XzrSp then 0 else Get(s.x, r)
  }

  function Load(s: Cpu, a: int): int {
    Get(s.mem, a)
  }

  function Fit(sz: Size, val: int): int {
    if sz == S64 then val else val % Pow2(SizeBits(sz))
  }

  /** Value of an ALU operand; memory operands are not ALU operands. */
  function AluRead(s: Cpu, l: Location): Option<int> {
    match l
    case GPR(r) => Some(XReg(s, r))
    case SIMD(q) => Some(Get(s.v, q))
    case Memory(_, _) => None
    case Imm8(k) => Some(k)
    case Imm32(k) => Some(k)
    case Imm64(k) => Some(k)
  }

  /** Write an ALU result; only registers are destinations. */
  function AluWrite(s: Cpu, l: Location, val: int): Option<Cpu> {
    match l
    case GPR(r) => Some(SetX(s, r, val))
    case SIMD(q) => Some(s.(v := s.v[q := val]))
    case _ => None
  }

  /** Value a store takes from its data register. */
  function DataRead(s: Cpu, l: Location): Option<int> {
    match l
    case GPR(r) => Some(DataReg(s, r))
    case SIMD(q) => Some(Get(s.v, q))
    case _ => None
  }

  /** Effective address of a memory operand: [base, #off] or [reg]. */
  function Address(s: Cpu, l: Location): Option<int> {
    match l
    case Memory(b, off) => Some(XReg(s, b) + off)
    case GPR(r) => Some(XReg(s, r))
    case _ => None
  }

  /** Bitwise AND of two non-negative integers. */
  function BitAnd(a: nat, b: nat): nat {
    if a == 0 || b == 0 then 0 else 2 * BitAnd(a / 2, b / 2) + (a % 2) * (b % 2)
  }

  /** Masking with 2^k - 1 keeps exactly the residue modulo 2^k. */
  lemma {:induction false} BitAndLowMask(a: nat, k: nat)
    ensures BitAnd(a, Pow2(k) - 1) == a % Pow2(k)
  {
    if k == 0 {
    } else if a == 0 {
    } else {
      var p := Pow2(k - 1);
      var m := Pow2(k) - 1;
      assert m == 2 * p - 1 && p >= 1;
      assert m / 2 == p - 1 && m % 2 == 1;
      var low := a % 2;
      assert BitAnd(a, m) == 2 * BitAnd(a / 2, m / 2) + low * (m % 2);
      assert low * (m % 2) == low;
      BitAndLowMask(a / 2, k - 1);
      assert BitAnd(a / 2, m / 2) == (a / 2) % p;
      DivModPow2(a, k);
      assert a % Pow2(k) == 2 * ((a / 2) % p) + low;
    }
  }

  lemma {:induction false} BitAndComm(a: nat, b: nat)
    ensures BitAnd(a, b) == BitAnd(b, a)
  {
    if a != 0 && b != 0 {
      BitAndComm(a / 2, b / 2);
    }
  }

  lemma DivModPow2(a: nat, k: nat)
    requires k > 0
    ensures a % Pow2(k) == 2 * ((a / 2) % Pow2(k - 1)) + a % 2
  {
    var h := a / 2;
    var q := h / Pow2(k - 1);
    var r := h % Pow2(k - 1);
    assert h == q * Pow2(k - 1) + r;
    assert a == q * Pow2(k) + (2 * r + a % 2);
    assert 0 <= 2 * r + a % 2 < Pow2(k);
    ModUnique(a, Pow2(k), q, 2 * r + a % 2);
  }

  predicate Holds(cond: Cond, s: Cpu) {
    match cond
    case Eq => s.z
    case Ne => !s.z
    case Cs => s.c
    case Hi => s.c && !s.z
  }

  /** What one instruction does. `Invalid` is an operand combination the
      instruction form cannot take; `Unmodelled` is a well-formed instruction
      whose effect the evaluator does not describe (sub-64-bit memory
      accesses). */
  datatype Step = Next(s: Cpu) | Branch(target: Label, s: Cpu) | Invalid | Unmodelled

  function StepOf(w: Option<Cpu>): Step {
    match w
    case Some(t) => Next(t)
    case None => Invalid
  }

  function MovStep(s: Cpu, sz: Size, src: Location, dst: Location): Step {
    match AluRead(s, src)
    case None => Invalid
    case Some(a) => StepOf(AluWrite(s, dst, Fit(sz, a)))
  }

  function MovImmStep(s: Cpu, dst: Location, imm: int): Step {
    if dst.GPR? then StepOf(AluWrite(s, dst, imm)) else Invalid
  }

  function AddStep(s: Cpu, sz: Size, a: Location, b: Location, dst: Location): Step {
    match (AluRead(s, a), AluRead(s, b))
    case (Some(x), Some(y)) =>
      if sz == S64 then StepOf(AluWrite(s, dst, x + y))
      else if sz == S32 then
        // assumed flag-setting (ADDS): the carry-out is what the `b.cs` after
        // it reads; the emitter that would decide this is not part of the model
        var r := x % U32 + y % U32;
        StepOf(AluWrite(s.(c := r >= U32), dst, r % U32))
      else Unmodelled
    case _ => Invalid
  }

  function SubStep(s: Cpu, sz: Size, a: Location, b: Location, dst: Location): Step {
    match (AluRead(s, a), AluRead(s, b))
    case (Some(x), Some(y)) =>
      if sz == S64 then StepOf(AluWrite(s, dst, x - y))
      else if sz == S32 then StepOf(AluWrite(s, dst, (x - y) % U32))
      else Unmodelled
    case _ => Invalid
  }

  function Add2Step(s: Cpu, sz: Size, src: Location, dst: Location): Step {
    match (AluRead(s, src), AluRead(s, dst))
    case (Some(x), Some(y)) => StepOf(AluWrite(s, dst, Fit(sz, y + x)))
    case _ => Invalid
  }

  function StoreStep(s: Cpu, sz: Size, src: Location, addr: Option<int>): Step {
    match (DataRead(s, src), addr)
    case (Some(val), Some(a)) => if sz == S64 then Next(s.(mem := s.mem[a := val])) else Unmodelled
    case _ => Invalid
  }

  function LoadStep(s: Cpu, sz: Size, dst: Location, addr: Option<int>): Step {
    match addr
    case Some(a) =>
      if !IsReg(dst) then Invalid
      else if sz == S64 then Next(WriteReg(s, dst, Load(s, a)))
      else Unmodelled
    case None => Invalid
  }

  function StpStep(s: Cpu, sz: Size, a: Location, b: Location, base: Gpr, imm: int): Step {
    match (DataRead(s, a), DataRead(s, b))
    case (Some(va), Some(vb)) =>
      if sz != S64 then Unmodelled
      else
        var nb := XReg(s, base) - imm;
        var t := SetX(s, base, nb);
        Next(t.(mem := t.mem[nb := va][nb + 8 := vb]))
    case _ => Invalid
  }

  function LdpStep(s: Cpu, sz: Size, a: Location, b: Location, base: Gpr, imm: int): Step {
    if !IsReg(a) || !IsReg(b) then Invalid
    else if sz != S64 then Unmodelled
    else
      var ad := XReg(s, base);
      var t2 := WriteReg(WriteReg(s, a, Load(s, ad)), b, Load(s, ad + 8));
      Next(SetX(t2, base, XReg(t2, base) + imm))
  }

  function CmpStep(s: Cpu, sz: Size, src: Location, dst: Location): Step {
    match (AluRead(s, src), AluRead(s, dst))
    case (Some(x), Some(y)) => Next(s.(z := Fit(sz, y) == Fit(sz, x), c := Fit(sz, y) >= Fit(sz, x)))
    case _ => Invalid
  }

  function TstStep(s: Cpu, sz: Size, src: Location, dst: Location): Step {
    match (AluRead(s, src), AluRead(s, dst))
    case (Some(x), Some(y)) =>
      if Fit(sz, x) < 0 || Fit(sz, y) < 0 then Unmodelled
      else Next(s.(z := BitAnd(Fit(sz, x), Fit(sz, y)) == 0))
    case _ => Invalid
  }

  function MovkStep(s: Cpu, dst: Location, imm: int, shift: nat): Step {
    if !dst.GPR? then Invalid
    else
      var prev := XReg(s, dst.r);
      var field := (prev / Pow2(shift)) % 65536;
      StepOf(AluWrite(s, dst, prev - field * Pow2(shift) + (imm % 65536) * Pow2(shift)))
  }

  function Exec1(i: Instr, s: Cpu): Step {
    match i
    case Mov(sz, src, dst) => MovStep(s, sz, src, dst)
    case MovImm(dst, imm) => MovImmStep(s, dst, imm)
    case Add(sz, a, b, dst) => AddStep(s, sz, a, b, dst)
    case Sub(sz, a, b, dst) => SubStep(s, sz, a, b, dst)
    case Add2(sz, src, dst) => Add2Step(s, sz, src, dst)
    case Str(sz, src, addr) => StoreStep(s, sz, src, Address(s, addr))
    case Ldr(sz, dst, addr) => LoadStep(s, sz, dst, Address(s, addr))
    case Stur(sz, src, base, off) => StoreStep(s, sz, src, Some(XReg(s, base) + off))
    case Ldur(sz, dst, base, off) => LoadStep(s, sz, dst, Some(XReg(s, base) + off))
    case LoadNarrow(_, _, dst, _, _) => if dst.GPR? then Unmodelled else Invalid
    case Stpbd(sz, a, b, base, imm) => StpStep(s, sz, a, b, base, imm)
    case Ldpai(sz, a, b, base, imm) => LdpStep(s, sz, a, b, base, imm)
    case Cmp(sz, src, dst) => CmpStep(s, sz, src, dst)
    case Tst(sz, src, dst) => TstStep(s, sz, src, dst)
    case BCond(cond, l) => if Holds(cond, s) then Branch(l, s) else Next(s)
    case Movk(dst, imm, shift) => MovkStep(s, dst, imm, shift)
  }

  /** Result of running straight-line code: it falls through, it takes a
      branch to a label, or it reaches an instruction without a meaning. */
  datatype Run = Finished(s: Cpu) | Jumped(target: Label, s: Cpu) | Stuck(invalid: bool)

  function Exec(code: seq<Instr>, s: Cpu): Run
    decreases |code|
  {
    if code == [] then Finished(s)
    else
      match Exec1(code[0], s)
      case Next(t) => Exec(code[1..], t)
      case Branch(l, t) => Jumped(l, t)
      case Invalid => Stuck(true)
      case Unmodelled => Stuck(false)
  }

  function Then(r: Run, code: seq<Instr>): Run {
    match r
    case Finished(t) => Exec(code, t)
    case _ => r
  }

  /** Value of a register operand as the data of a store. */
  function RegValue(s: Cpu, l: Location): int
    requires IsReg(l)
  {
    if l.GPR? then DataReg(s, l.r) else Get(s.v, l.v)
  }

  /** Write a register operand as the destination of a load; a load into
      XZR is discarded. */
  function WriteReg(s: Cpu, l: Location, val: int): (t: Cpu)
    requires IsReg(l)
    ensures t.sp == s.sp && t.mem == s.mem && t.z == s.z && t.c == s.c
  {
    if l.GPR? then (if l.r == XzrSp then s else s.(x := s.x[l.r := val])) else s.(v := s.v[l.v := val])
  }

  /** Writes to two different registers commute. */
  lemma WriteRegsCommute(s: Cpu, a: Location, b: Location, va: int, vb: int)
    requires IsReg(a) && IsReg(b) && a != b
    ensures WriteReg(WriteReg(s, a, va), b, vb) == WriteReg(WriteReg(s, b, vb), a, va)
  {
    if a.GPR? && b.GPR? && a.r != XzrSp && b.r != XzrSp {
      assert s.x[a.r := va][b.r := vb] == s.x[b.r := vb][a.r := va];
    } else if a.SIMD? && b.SIMD? {
      assert s.v[a.v := va][b.v := vb] == s.v[b.v := vb][a.v := va];
    }
  }

  /** Three pieces of straight-line code that each fall through, run in
      sequence. */
  lemma ExecThree(a: seq<Instr>, b: seq<Instr>, c: seq<Instr>, s: Cpu, s1: Cpu, s2: Cpu, t: Cpu)
    requires Exec(a, s) == Finished(s1) && Exec(b, s1) == Finished(s2) && Exec(c, s2) == Finished(t)
    ensures Exec(a + (b + c), s) == Finished(t)
  {
    ExecAppend(a, b + c, s);
    ExecAppend(b, c, s1);
  }

  lemma ExecCons(i: Instr, rest: seq<Instr>, s: Cpu, t: Cpu)
    requires Exec1(i, s) == Next(t)
    ensures Exec([i] + rest, s) == Exec(rest, t)
  {
    assert ([i] + rest)[0] == i;
    assert ([i] + rest)[1..] == rest;
  }

  lemma ExecOne(i: Instr, s: Cpu, t: Cpu)
    requires Exec1(i, s) == Next(t)
    ensures Exec([i], s) == Finished(t)
  {
    ExecCons(i, [], s, t);
    assert [i] + [] == [i];
  }

  /** Running two pieces of code one after the other. */
  lemma {:induction false} ExecAppend(a: seq<Instr>, b: seq<Instr>, s: Cpu)
    ensures Exec(a + b, s) == Then(Exec(a, s), b)
    decreases |a|
  {
    if a == [] {
      assert a + b == b;
    } else {
      assert (a + b)[0] == a[0];
      assert (a + b)[1..] == a[1..] + b;
      match Exec1(a[0], s)
      case Next(t) => ExecAppend(a[1..], b, t);
      case Branch(_, _) =>
      case Invalid =>
      case Unmodelled =>
    }
  }

  lemma ExecPair(i: Instr, j: Instr, s: Cpu, s1: Cpu, t: Cpu)
    requires Exec1(i, s) == Next(s1) && Exec1(j, s1) == Next(t)
    ensures Exec([i, j], s) == Finished(t)
  {
    assert [i, j][1..] == [j];
    ExecOne(j, s1, t);
  }

  lemma ExecTriple(i: Instr, j: Instr, k: Instr, s: Cpu, s1: Cpu, s2: Cpu, t: Cpu)
    requires Exec1(i, s) == Next(s1) && Exec1(j, s1) == Next(s2) && Exec1(k, s2) == Next(t)
    ensures Exec([i, j, k], s) == Finished(t)
  {
    assert [i, j, k][1..] == [j, k];
    ExecPair(j, k, s1, s2, t);
  }

  /** STR of a 64-bit register to [base, #off]. */
  lemma StoreWordStep(s: Cpu, src: Location, base: Gpr, off: int, a: int, val: int)
    requires IsReg(src) && XReg(s, base) + off == a && RegValue(s, src) == val
    ensures Exec1(Str(S64, src, Memory(base, off)), s) == Next(s.(mem := s.mem[a := val]))
  {
  }

  /** LDR of a 64-bit register from [base, #off]. */
  lemma LoadWordStep(s: Cpu, dst: Location, base: Gpr, off: int, a: int)
    requires IsReg(dst) && XReg(s, base) + off == a
    ensures Exec1(Ldr(S64, dst, Memory(base, off)), s) == Next(WriteReg(s, dst, Load(s, a)))
  {
  }

  /** Moving SP by an 8-bit immediate. */
  lemma SpAddStep(s: Cpu, k: int)
    ensures Exec1(Add(S64, GPR(XzrSp), Imm8(k), GPR(XzrSp)), s) == Next(s.(sp := s.sp + k))
  {
  }

  lemma SpSubStep(s: Cpu, k: int)
    ensures Exec1(Sub(S64, GPR(XzrSp), Imm8(k), GPR(XzrSp)), s) == Next(s.(sp := s.sp - k))
  {
  }

  /** 64-bit register-to-register MOV. */
  lemma MovRegStep(s: Cpu, a: Gpr, b: Gpr)
    ensures Exec1(Mov(S64, GPR(a), GPR(b)), s) == Next(SetX(s, b, XReg(s, a)))
  {
  }

  /** STP with pre-decrement of SP by 16: the pair goes to the new [SP]. */
  lemma StorePairStep(s: Cpu, a: Gpr, b: Gpr)
    ensures Exec1(Stpbd(S64, GPR(a), GPR(b), XzrSp, 16), s) ==
            Next(s.(sp := s.sp - 16, mem := s.mem[s.sp - 16 := DataReg(s, a)][s.sp - 8 := DataReg(s, b)]))
  {
  }

  /** Value of a register or immediate as an ALU operand. */
  function AluValue(s: Cpu, l: Location): int
    requires IsReg(l) || IsImm(l)
  {
    AluRead(s, l).value
  }

  /** MOV into a register. */
  lemma MovToRegStep(s: Cpu, sz: Size, src: Location, dst: Location)
    requires (IsReg(src) || IsImm(src)) && IsReg(dst)
    ensures Exec1(Mov(sz, src, dst), s) == Next(AluWrite(s, dst, Fit(sz, AluValue(s, src))).value)
  {
  }

  /** MOV of a 16-bit-or-wider immediate into a general-purpose register. */
  lemma MovImmRegStep(s: Cpu, r: Gpr, k: int)
    ensures Exec1(MovImm(GPR(r), k), s) == Next(SetX(s, r, k))
  {
  }

  /** 64-bit ADD and SUB of two general-purpose registers. */
  lemma AddRegsStep(s: Cpu, a: Gpr, b: Gpr, d: Gpr, val: int)
    requires XReg(s, a) + XReg(s, b) == val
    ensures Exec1(Add(S64, GPR(a), GPR(b), GPR(d)), s) == Next(SetX(s, d, val))
  {
  }

  lemma SubRegsStep(s: Cpu, a: Gpr, b: Gpr, d: Gpr, val: int)
    requires XReg(s, a) - XReg(s, b) == val
    ensures Exec1(Sub(S64, GPR(a), GPR(b), GPR(d)), s) == Next(SetX(s, d, val))
  {
  }

  /** 64-bit SUB of an 8-bit immediate from a register into a register. */
  lemma SubImmStep(s: Cpu, a: Gpr, k: int, d: Gpr, val: int)
    requires XReg(s, a) - k == val
    ensures Exec1(Sub(S64, GPR(a), Imm8(k), GPR(d)), s) == Next(SetX(s, d, val))
  {
  }

  /** STR and LDR through an address held in a register. */
  lemma StoreWordAtStep(s: Cpu, src: Location, r: Gpr, a: int, val: int)
    requires IsReg(src) && XReg(s, r) == a && RegValue(s, src) == val
    ensures Exec1(Str(S64, src, GPR(r)), s) == Next(s.(mem := s.mem[a := val]))
  {
  }

  lemma LoadWordAtStep(s: Cpu, dst: Location, r: Gpr, a: int)
    requires IsReg(dst) && XReg(s, r) == a
    ensures Exec1(Ldr(S64, dst, GPR(r)), s) == Next(WriteReg(s, dst, Load(s, a)))
  {
  }

  /** STUR and LDUR: unscaled signed offsets. */
  lemma SturStep(s: Cpu, src: Location, base: Gpr, off: int, a: int, val: int)
    requires IsReg(src) && XReg(s, base) + off == a && RegValue(s, src) == val
    ensures Exec1(Stur(S64, src, base, off), s) == Next(s.(mem := s.mem[a := val]))
  {
  }

  lemma LdurStep(s: Cpu, dst: Location, base: Gpr, off: int, a: int)
    requires IsReg(dst) && XReg(s, base) + off == a
    ensures Exec1(Ldur(S64, dst, base, off), s) == Next(WriteReg(s, dst, Load(s, a)))
  {
  }

  /** Two pieces of straight-line code that each fall through, run in sequence. */
  lemma ExecChain(a: seq<Instr>, b: seq<Instr>, s: Cpu, s1: Cpu, t: Cpu)
    requires Exec(a, s) == Finished(s1) && Exec(b, s1) == Finished(t)
    ensures Exec(a + b, s) == Finished(t)
  {
    ExecAppend(a, b, s);
  }

  /** Two-operand ADD of a register or immediate into a general-purpose register. */
  lemma AddIntoRegStep(s: Cpu, sz: Size, src: Location, d: Gpr)
    requires IsReg(src) || IsImm(src)
    ensures Exec1(Add2(sz, src, GPR(d)), s) == Next(SetX(s, d, Fit(sz, XReg(s, d) + AluValue(s, src))))
  {
  }

  /** MOV between general-purpose registers at any size. */
  lemma MovRegsStep(s: Cpu, sz: Size, a: Gpr, d: Gpr)
    ensures Exec1(Mov(sz, GPR(a), GPR(d)), s) == Next(SetX(s, d, Fit(sz, XReg(s, a))))
  {
  }
}
