/** `emit_relaxed_binop`, `emit_binop_i32` and `emit_binop_i64`: a
    two-operand operation `dst := op(src, dst)` on operand pairs the
    instruction forms cannot take directly, routed through temporaries
    acquired from X0..X7 and released again. */
module Binops {
  import opened Wrappers
  import opened Locations
  import opened Isa
  import opened Allocator
  import opened Moves

  /** The callbacks the implemented paths hand to `emit_relaxed_binop`:
      `emit_mov` (from `memory_op`) and `emit_add2` (from `emit_binop_add32`). */
  datatype BinOp = MovOp | AddOp

  function OpInstr(op: BinOp, sz: Size, src: Location, dst: Location): Instr {
    match op
    case MovOp => Mov(sz, src, dst)
    case AddOp => Add2(sz, src, dst)
  }

  /** What the operation leaves in the destination, from the source value
      `x` and the old destination value `y`, cut to the operand size. */
  function OpValue(op: BinOp, sz: Size, x: int, y: int): int {
    match op
    case MovOp => Fit(sz, x)
    case AddOp => Fit(sz, y + x)
  }

  /** The temporaries each accepted operand pair takes, trying the match
      arms in order; None for the pairs that panic. */
  function RelaxedTemps(src: Location, dst: Location): Option<nat> {
    if src.GPR? && dst.GPR? then Some(0)
    else if src.Memory? && dst.Memory? then Some(2)
    else if (src.Imm64? || src.Imm32?) && (dst.Memory? || dst.GPR?) then Some(1)
    else if dst.SIMD? then Some(1)
    else None
  }

  /** The code `emit_relaxed_binop` appends when `used` is the set of
      general-purpose registers in use on entry. `writeBack` selects whether
      the memory/memory arm stores the result back into `dst`: the source
      does not (`RelaxedBinopCodeAsWritten`), the corrected arm does
      (`RelaxedBinopCode`). A `move_location` inside picks its own
      temporary from what is free after the acquisitions. */
  function RelaxedBinopCodeWith(writeBack: bool, op: BinOp, sz: Size, src: Location, dst: Location,
                                used: set<Gpr>): Result<seq<Instr>> {
    match RelaxedTemps(src, dst)
    case None => Fail(Unsupported)
    case Some(n) =>
      if n == 0 then Ok([OpInstr(op, sz, src, dst)])
      else
        var t1 := FirstFree(TempGprs, used);
        if t1.None? then Fail(NoTempRegister)
        else if n == 1 then OneTempCode(op, sz, src, dst, t1.value, FirstFree(TempGprs, used + {t1.value}))
        else
          var t2 := FirstFree(TempGprs, used + {t1.value});
          if t2.None? then Fail(NoTempRegister)
          else TwoTempsCode(writeBack, op, sz, src, dst, t1.value, t2.value,
                            FirstFree(TempGprs, used + {t1.value, t2.value}))
  }

  /** One temporary `t`: move the source into it, then `op(t, dst)`. */
  function OneTempCode(op: BinOp, sz: Size, src: Location, dst: Location, t: Gpr, pick: Option<Gpr>): Result<seq<Instr>> {
    match MoveLocationCode(sz, src, GPR(t), pick)
    case Fail(e) => Fail(e)
    case Ok(mv) => Ok(mv + [OpInstr(op, sz, GPR(t), dst)])
  }

  /** Memory to memory: load both operands into `ts` and `td`, apply `op`,
      and (when `writeBack`) store `td` into `dst`. */
  function TwoTempsCode(writeBack: bool, op: BinOp, sz: Size, src: Location, dst: Location,
                        ts: Gpr, td: Gpr, pick: Option<Gpr>): Result<seq<Instr>> {
    match MoveLocationCode(sz, src, GPR(ts), pick)
    case Fail(e) => Fail(e)
    case Ok(m1) =>
      match MoveLocationCode(sz, dst, GPR(td), pick)
      case Fail(e) => Fail(e)
      case Ok(m2) =>
        var body := m1 + m2 + [OpInstr(op, sz, GPR(ts), GPR(td))];
        if !writeBack then Ok(body)
        else
          match MoveLocationCode(sz, GPR(td), dst, pick)
          case Fail(e) => Fail(e)
          case Ok(m3) => Ok(body + m3)
  }

  function RelaxedBinopCodeAsWritten(op: BinOp, sz: Size, src: Location, dst: Location, used: set<Gpr>): Result<seq<Instr>> {
    RelaxedBinopCodeWith(false, op, sz, src, dst, used)
  }

  function RelaxedBinopCode(op: BinOp, sz: Size, src: Location, dst: Location, used: set<Gpr>): Result<seq<Instr>> {
    RelaxedBinopCodeWith(true, op, sz, src, dst, used)
  }

  /** `emit_relaxed_binop` panics on exactly the pairs no arm accepts (among
      them a register into memory and memory into a register); an accepted
      pair fails only for want of a free temporary, and a register pair
      never does. */
  lemma RelaxedBinopOutcome(writeBack: bool, op: BinOp, sz: Size, src: Location, dst: Location, used: set<Gpr>)
    ensures RelaxedTemps(src, dst).None? ==> RelaxedBinopCodeWith(writeBack, op, sz, src, dst, used) == Fail(Unsupported)
    ensures RelaxedTemps(src, dst).Some? && RelaxedBinopCodeWith(writeBack, op, sz, src, dst, used).Fail? ==>
            RelaxedBinopCodeWith(writeBack, op, sz, src, dst, used).error == NoTempRegister
    ensures RelaxedTemps(src, dst) == Some(0) ==> RelaxedBinopCodeWith(writeBack, op, sz, src, dst, used).Ok?
  {
    if RelaxedTemps(src, dst) == Some(2) {
      var ts := FirstFree(TempGprs, used);
      if ts.Some? {
        var td := FirstFree(TempGprs, used + {ts.value});
        if td.Some? {
          var pick := FirstFree(TempGprs, used + {ts.value, td.value});
          MoveLocationOutcome(sz, src, GPR(ts.value), pick);
          MoveLocationOutcome(sz, dst, GPR(td.value), pick);
          MoveLocationOutcome(sz, GPR(td.value), dst, pick);
        }
      }
    } else if RelaxedTemps(src, dst) == Some(1) {
      var t := FirstFree(TempGprs, used);
      if t.Some? {
        MoveLocationOutcome(sz, src, GPR(t.value), FirstFree(TempGprs, used + {t.value}));
      }
    }
  }

  /** General-purpose registers an instruction writes. */
  function Writes(i: Instr): set<Gpr> {
    match i
    case Mov(_, _, GPR(r)) => {r}
    case MovImm(GPR(r), _) => {r}
    case Add(_, _, _, GPR(r)) => {r}
    case Sub(_, _, _, GPR(r)) => {r}
    case Add2(_, _, GPR(r)) => {r}
    case Ldr(_, GPR(r), _) => {r}
    case Ldur(_, GPR(r), _, _) => {r}
    case LoadNarrow(_, _, GPR(r), _, _) => {r}
    case Movk(GPR(r), _, _) => {r}
    case Stpbd(_, _, _, b, _) => {b}
    case Ldpai(_, a, b, base, _) =>
      (if a.GPR? then {a.r} else {}) + (if b.GPR? then {b.r} else {}) + {base}
    case _ => {}
  }

  /** Every instruction of `code` writes only registers in `rs`. */
  predicate WritesWithin(code: seq<Instr>, rs: set<Gpr>) {
    forall i :: 0 <= i < |code| ==> Writes(code[i]) <= rs
  }

  lemma WritesWithinAppend(a: seq<Instr>, b: seq<Instr>, rs: set<Gpr>)
    requires WritesWithin(a, rs) && WritesWithin(b, rs)
    ensures WritesWithin(a + b, rs)
  {
    forall i | 0 <= i < |a + b| ensures Writes((a + b)[i]) <= rs {
      if i >= |a| { assert (a + b)[i] == b[i - |a|]; }
    }
  }

  /** `move_location` writes only its register destination and its temporary. */
  lemma MoveWrites(sz: Size, source: Location, dest: Location, tmp: Option<Gpr>)
    requires MoveLocationCode(sz, source, dest, tmp).Ok?
    ensures WritesWithin(MoveLocationCode(sz, source, dest, tmp).value,
                         (if dest.GPR? then {dest.r} else {}) + TempSet(tmp))
  {
    var code := MoveLocationCode(sz, source, dest, tmp).value;
    if NeedsTemp(sz, source, dest) {
      var addr := if source.Memory? then source.base else dest.base;
      var offs := if source.Memory? then source.offset else dest.offset;
      assert code == FarAddrCode(addr, offs, tmp.value) + [code[2]];
    }
  }

  /** Whatever the pair, the relaxed operation writes no register but the
      destination and temporaries that were free on entry: it never
      clobbers a register in use. */
  lemma RelaxedBinopWritesFreeTemps(writeBack: bool, op: BinOp, sz: Size, src: Location, dst: Location, used: set<Gpr>)
    requires RelaxedBinopCodeWith(writeBack, op, sz, src, dst, used).Ok?
    ensures WritesWithin(RelaxedBinopCodeWith(writeBack, op, sz, src, dst, used).value,
                         (if dst.GPR? then {dst.r} else {}) + FreeTemps(used))
  {
    var rs := (if dst.GPR? then {dst.r} else {}) + FreeTemps(used);
    var n := RelaxedTemps(src, dst).value;
    if n == 1 {
      var t := FirstFree(TempGprs, used).value;
      var pick := FirstFree(TempGprs, used + {t});
      PickedIsFree(used, used);
      PickedIsFree(used, used + {t});
      OneTempWrites(op, sz, src, dst, t, pick, rs);
    } else if n == 2 {
      var ts := FirstFree(TempGprs, used).value;
      var td := FirstFree(TempGprs, used + {ts}).value;
      var pick := FirstFree(TempGprs, used + {ts, td});
      PickedIsFree(used, used);
      PickedIsFree(used, used + {ts});
      PickedIsFree(used, used + {ts, td});
      TwoTempsWrite(writeBack, op, sz, src, dst, ts, td, pick, rs);
    }
  }

  /** The temporaries free when `used` is in use. */
  function FreeTemps(used: set<Gpr>): set<Gpr> {
    set r | r in TempGprs && r !in used
  }

  /** A temporary picked while at least `used` is in use was free under `used`. */
  lemma PickedIsFree(used: set<Gpr>, u: set<Gpr>)
    requires used <= u
    ensures FirstFree(TempGprs, u).Some? ==> FirstFree(TempGprs, u).value in FreeTemps(used)
  {
  }

  lemma OneTempWrites(op: BinOp, sz: Size, src: Location, dst: Location, t: Gpr, pick: Option<Gpr>, rs: set<Gpr>)
    requires OneTempCode(op, sz, src, dst, t, pick).Ok?
    requires t in rs && TempSet(pick) <= rs && (dst.GPR? ==> dst.r in rs)
    ensures WritesWithin(OneTempCode(op, sz, src, dst, t, pick).value, rs)
  {
    var mv := MoveLocationCode(sz, src, GPR(t), pick).value;
    MoveWrites(sz, src, GPR(t), pick);
    assert WritesWithin([OpInstr(op, sz, GPR(t), dst)], rs);
    WritesWithinAppend(mv, [OpInstr(op, sz, GPR(t), dst)], rs);
  }

  lemma TwoTempsWrite(writeBack: bool, op: BinOp, sz: Size, src: Location, dst: Location,
                      ts: Gpr, td: Gpr, pick: Option<Gpr>, rs: set<Gpr>)
    requires TwoTempsCode(writeBack, op, sz, src, dst, ts, td, pick).Ok?
    requires ts in rs && td in rs && TempSet(pick) <= rs && (dst.GPR? ==> dst.r in rs)
    ensures WritesWithin(TwoTempsCode(writeBack, op, sz, src, dst, ts, td, pick).value, rs)
  {
    var m1 := MoveLocationCode(sz, src, GPR(ts), pick).value;
    var m2 := MoveLocationCode(sz, dst, GPR(td), pick).value;
    var opi := OpInstr(op, sz, GPR(ts), GPR(td));
    MoveWrites(sz, src, GPR(ts), pick);
    MoveWrites(sz, dst, GPR(td), pick);
    WritesWithinAppend(m1, m2, rs);
    assert WritesWithin([opi], rs);
    WritesWithinAppend(m1 + m2, [opi], rs);
    if writeBack {
      var m3 := MoveLocationCode(sz, GPR(td), dst, pick).value;
      MoveWrites(sz, GPR(td), dst, pick);
      WritesWithinAppend(m1 + m2 + [opi], m3, rs);
    }
  }

  /** Cutting to the operand size twice is cutting once, and cutting the
      source first does not change the cut sum. */
  lemma FitLaws(sz: Size, x: int, y: int)
    ensures Fit(sz, Fit(sz, x)) == Fit(sz, x)
    ensures Fit(sz, y + Fit(sz, x)) == Fit(sz, y + x)
  {
    if sz != S64 {
      ModLaws(Pow2(SizeBits(sz)), x, y);
    }
  }

  lemma ModLaws(m: nat, x: int, y: int)
    requires m > 0
    ensures (x % m) % m == x % m
    ensures (y + x % m) % m == (y + x) % m
  {
    ModUnique(x % m, m, 0, x % m);
    ModShift(y + x, m, x / m);
    assert y + x % m == (y + x) - (x / m) * m;
  }

  /** Removing a multiple of the modulus leaves the remainder alone. */
  lemma ModShift(a: int, m: int, q: int)
    requires m > 0
    ensures (a - q * m) % m == a % m
  {
    ModUnique(a - q * m, m, a / m - q, a % m);
  }

  /** `KeptBut` allows more registers to change when the set grows. */
  lemma KeptButWeaken(s: Cpu, t: Cpu, a: set<Gpr>, b: set<Gpr>)
    requires KeptBut(s, t, a) && a <= b
    ensures KeptBut(s, t, b)
  {
  }

  /** Register to register: one instruction, the destination receives
      `op(src, dst)` and nothing else changes. */
  lemma RelaxedRegIntoReg(s: Cpu, op: BinOp, sz: Size, a: Gpr, d: Gpr, used: set<Gpr>)
    ensures RelaxedBinopCode(op, sz, GPR(a), GPR(d), used) == Ok([OpInstr(op, sz, GPR(a), GPR(d))])
    ensures var r := Exec([OpInstr(op, sz, GPR(a), GPR(d))], s);
            r.Finished? && XReg(r.s, d) == OpValue(op, sz, XReg(s, a), XReg(s, d)) &&
            r.s.mem == s.mem && KeptBut(s, r.s, {d})
  {
    OpStep(s, op, sz, a, d);
  }

  /** One step of the operation between two general-purpose registers. */
  lemma OpStep(s: Cpu, op: BinOp, sz: Size, a: Gpr, d: Gpr)
    ensures var t := SetX(s, d, OpValue(op, sz, XReg(s, a), XReg(s, d)));
            Exec1(OpInstr(op, sz, GPR(a), GPR(d)), s) == Next(t) &&
            Exec([OpInstr(op, sz, GPR(a), GPR(d))], s) == Finished(t)
  {
    var t := SetX(s, d, OpValue(op, sz, XReg(s, a), XReg(s, d)));
    if op.MovOp? {
      MovRegsStep(s, sz, a, d);
      ExecOne(Mov(sz, GPR(a), GPR(d)), s, t);
    } else {
      AddIntoRegStep(s, sz, GPR(a), d);
      assert AluValue(s, GPR(a)) == XReg(s, a);
      ExecOne(Add2(sz, GPR(a), GPR(d)), s, t);
    }
  }

  /** A 32- or 64-bit immediate into a register goes through one free
      temporary: the destination receives `op(imm, dst)`, and only it and
      that temporary change. The destination must not itself be a free
      temporary. */
  lemma RelaxedImmIntoReg(s: Cpu, op: BinOp, sz: Size, src: Location, d: Gpr, used: set<Gpr>)
    requires (src.Imm32? || src.Imm64?) && (d in used || d !in TempGprs)
    requires RelaxedBinopCode(op, sz, src, GPR(d), used).Ok?
    ensures var r := Exec(RelaxedBinopCode(op, sz, src, GPR(d), used).value, s);
            r.Finished? && XReg(r.s, d) == OpValue(op, sz, ImmValue(src), XReg(s, d)) &&
            r.s.mem == s.mem && KeptBut(s, r.s, {d} + FreeTemps(used))
  {
    var t := FirstFree(TempGprs, used).value;
    PickedIsFree(used, used);
    assert RelaxedBinopCode(op, sz, src, GPR(d), used).value == [Mov(sz, src, GPR(t))] + [OpInstr(op, sz, GPR(t), GPR(d))];
    var r := ImmThroughTemp(s, op, sz, src, d, t);
    KeptButWeaken(s, r, {d} + {t}, {d} + FreeTemps(used));
  }

  lemma ImmThroughTemp(s: Cpu, op: BinOp, sz: Size, src: Location, d: Gpr, t: Gpr) returns (r: Cpu)
    requires IsImm(src) && t != d
    ensures Exec([Mov(sz, src, GPR(t))] + [OpInstr(op, sz, GPR(t), GPR(d))], s) == Finished(r)
    ensures XReg(r, d) == OpValue(op, sz, ImmValue(src), XReg(s, d)) && r.mem == s.mem && KeptBut(s, r, {d} + {t})
  {
    var s1 := SetX(s, t, Fit(sz, ImmValue(src)));
    r := SetX(s1, d, OpValue(op, sz, XReg(s1, t), XReg(s1, d)));
    MovToRegStep(s, sz, src, GPR(t));
    OpStep(s1, op, sz, t, d);
    ExecCons(Mov(sz, src, GPR(t)), [OpInstr(op, sz, GPR(t), GPR(d))], s, s1);
    FitLaws(sz, ImmValue(src), XReg(s, d));
    KeptButTrans(s, s1, r, {t}, {d});
  }

  /** Effective address of a memory operand. */
  function Addr(s: Cpu, l: Location): int
    requires l.Memory?
  {
    XReg(s, l.base) + l.offset
  }

  /** The three temporaries of the memory/memory arm are distinct free
      registers of X0..X7, none of them SP. */
  predicate TempsApart(ts: Gpr, td: Gpr, pick: Option<Gpr>, src: Location, dst: Location) {
    src.Memory? && dst.Memory? &&
    ts != td && ts != XzrSp && td != XzrSp &&
    src.base != ts && src.base != td && dst.base != ts && dst.base != td &&
    (pick.Some? ==> pick.value !in {ts, td, XzrSp, src.base, dst.base})
  }

  /** A picked temporary is a register of X0..X7 outside the set in use, so not SP. */
  lemma PickFacts(u: set<Gpr>)
    ensures FirstFree(TempGprs, u).Some? ==>
              FirstFree(TempGprs, u).value in TempGprs && FirstFree(TempGprs, u).value !in u &&
              FirstFree(TempGprs, u).value != XzrSp
  {
    if FirstFree(TempGprs, u).Some? {
      TempPoolIsolated(FirstFree(TempGprs, u).value);
    }
  }

  lemma AcquiredTempsApart(used: set<Gpr>, src: Location, dst: Location, ts: Gpr, td: Gpr, pick: Option<Gpr>)
    requires src.Memory? && dst.Memory? && src.base !in TempGprs && dst.base !in TempGprs
    requires FirstFree(TempGprs, used) == Some(ts) && FirstFree(TempGprs, used + {ts}) == Some(td)
    requires pick == FirstFree(TempGprs, used + {ts, td})
    ensures TempsApart(ts, td, pick, src, dst)
    ensures {ts, td} + TempSet(pick) <= FreeTemps(used)
  {
    PickFacts(used);
    PickFacts(used + {ts});
    PickFacts(used + {ts, td});
    PickedIsFree(used, used);
    PickedIsFree(used, used + {ts});
    PickedIsFree(used, used + {ts, td});
  }

  /** The shared part of both memory/memory arms: load the source into
      `ts` and the destination into `td`, then `td := op(ts, td)`. Memory
      is not touched. */
  lemma TwoTempsBody(s: Cpu, op: BinOp, src: Location, dst: Location, ts: Gpr, td: Gpr, pick: Option<Gpr>)
    returns (u: Cpu)
    requires TempsApart(ts, td, pick, src, dst)
    requires MoveLocationCode(S64, src, GPR(ts), pick).Ok? && MoveLocationCode(S64, dst, GPR(td), pick).Ok?
    ensures Exec(MoveLocationCode(S64, src, GPR(ts), pick).value + MoveLocationCode(S64, dst, GPR(td), pick).value +
                 [OpInstr(op, S64, GPR(ts), GPR(td))], s) == Finished(u)
    ensures u.mem == s.mem && u.sp == s.sp && KeptBut(s, u, {ts, td} + TempSet(pick))
    ensures XReg(u, td) == OpValue(op, S64, Load(s, Addr(s, src)), Load(s, Addr(s, dst)))
  {
    var m1 := MoveLocationCode(S64, src, GPR(ts), pick).value;
    var m2 := MoveLocationCode(S64, dst, GPR(td), pick).value;
    var r1 := LoadIntoTemp(s, src, ts, pick);
    var r2 := LoadIntoTemp(r1, dst, td, pick);
    assert ts !in {td} + TempSet(pick) && dst.base !in {ts} + TempSet(pick);
    assert XReg(r2, ts) == XReg(r1, ts) == Load(s, Addr(s, src));
    assert Addr(r1, dst) == Addr(s, dst);
    assert XReg(r2, td) == Load(s, Addr(s, dst));
    OpStep(r2, op, S64, ts, td);
    u := SetX(r2, td, OpValue(op, S64, XReg(r2, ts), XReg(r2, td)));
    ExecChain(m1, m2, s, r1, r2);
    ExecChain(m1 + m2, [OpInstr(op, S64, GPR(ts), GPR(td))], s, r2, u);
    KeptButTrans(s, r1, r2, {ts} + TempSet(pick), {td} + TempSet(pick));
    KeptButTrans(s, r2, u, {td} + TempSet(pick) + ({ts} + TempSet(pick)), {td});
    KeptButWeaken(s, u, {td} + ({td} + TempSet(pick) + ({ts} + TempSet(pick))), {ts, td} + TempSet(pick));
  }

  /** `MoveFromMemory` with the run's final state named. */
  lemma LoadIntoTemp(s: Cpu, src: Location, t: Gpr, pick: Option<Gpr>) returns (r: Cpu)
    requires src.Memory? && t != XzrSp && MoveLocationCode(S64, src, GPR(t), pick).Ok?
    requires pick.Some? ==> src.base != pick.value && pick.value != XzrSp
    ensures Exec(MoveLocationCode(S64, src, GPR(t), pick).value, s) == Finished(r)
    ensures r.mem == s.mem && r.sp == s.sp && XReg(r, t) == Load(s, Addr(s, src)) && KeptBut(s, r, {t} + TempSet(pick))
  {
    MoveFromMemory(s, src.base, src.offset, t, pick);
    r := Exec(MoveLocationCode(S64, src, GPR(t), pick).value, s).s;
  }

  /** Both memory/memory arms on explicit temporaries. */
  lemma TwoTempsRuns(s: Cpu, writeBack: bool, op: BinOp, src: Location, dst: Location, ts: Gpr, td: Gpr, pick: Option<Gpr>)
    returns (w: Cpu)
    requires TempsApart(ts, td, pick, src, dst) && TwoTempsCode(writeBack, op, S64, src, dst, ts, td, pick).Ok?
    ensures Exec(TwoTempsCode(writeBack, op, S64, src, dst, ts, td, pick).value, s) == Finished(w)
    ensures w.sp == s.sp && KeptBut(s, w, {ts, td} + TempSet(pick))
    ensures w.mem == if writeBack
                     then s.mem[Addr(s, dst) := OpValue(op, S64, Load(s, Addr(s, src)), Load(s, Addr(s, dst)))]
                     else s.mem
  {
    var u := TwoTempsBody(s, op, src, dst, ts, td, pick);
    if writeBack {
      var body := MoveLocationCode(S64, src, GPR(ts), pick).value + MoveLocationCode(S64, dst, GPR(td), pick).value +
                  [OpInstr(op, S64, GPR(ts), GPR(td))];
      var m3 := MoveLocationCode(S64, GPR(td), dst, pick).value;
      MoveToMemory(u, GPR(td), dst.base, dst.offset, pick);
      w := Exec(m3, u).s;
      assert dst == Memory(dst.base, dst.offset);
      assert XReg(u, dst.base) == XReg(s, dst.base);
      assert w.mem == u.mem[Addr(s, dst) := RegValue(u, GPR(td))];
      assert RegValue(u, GPR(td)) == OpValue(op, S64, Load(s, Addr(s, src)), Load(s, Addr(s, dst)));
      ExecChain(body, m3, s, u, w);
      KeptButTrans(s, u, w, {ts, td} + TempSet(pick), TempSet(pick));
      KeptButWeaken(s, w, TempSet(pick) + ({ts, td} + TempSet(pick)), {ts, td} + TempSet(pick));
    } else {
      w := u;
    }
  }

  /** Memory to memory, corrected: the destination word receives
      `op(src, dst)`; no other word changes, SP is kept, and only free
      temporaries are overwritten. The operands' base registers must not be
      temporaries. */
  lemma RelaxedMemIntoMem(s: Cpu, op: BinOp, src: Location, dst: Location, used: set<Gpr>)
    requires src.Memory? && dst.Memory? && src.base !in TempGprs && dst.base !in TempGprs
    requires RelaxedBinopCode(op, S64, src, dst, used).Ok?
    ensures var r := Exec(RelaxedBinopCode(op, S64, src, dst, used).value, s);
            r.Finished? &&
            r.s.mem == s.mem[Addr(s, dst) := OpValue(op, S64, Load(s, Addr(s, src)), Load(s, Addr(s, dst)))] &&
            r.s.sp == s.sp && KeptBut(s, r.s, FreeTemps(used))
  {
    var ts := FirstFree(TempGprs, used).value;
    var td := FirstFree(TempGprs, used + {ts}).value;
    var pick := FirstFree(TempGprs, used + {ts, td});
    AcquiredTempsApart(used, src, dst, ts, td, pick);
    var w := TwoTempsRuns(s, true, op, src, dst, ts, td, pick);
    KeptButWeaken(s, w, {ts, td} + TempSet(pick), FreeTemps(used));
  }

  /** Memory to memory as written: the code runs to the end but never
      writes memory, so the destination keeps its old value whatever the
      operation. */
  lemma RelaxedMemIntoMemAsWrittenDropsResult(s: Cpu, op: BinOp, src: Location, dst: Location, used: set<Gpr>)
    requires src.Memory? && dst.Memory? && src.base !in TempGprs && dst.base !in TempGprs
    requires RelaxedBinopCodeAsWritten(op, S64, src, dst, used).Ok?
    ensures var r := Exec(RelaxedBinopCodeAsWritten(op, S64, src, dst, used).value, s);
            r.Finished? && r.s.mem == s.mem
  {
    var ts := FirstFree(TempGprs, used).value;
    var td := FirstFree(TempGprs, used + {ts}).value;
    var pick := FirstFree(TempGprs, used + {ts, td});
    AcquiredTempsApart(used, src, dst, ts, td, pick);
    var w := TwoTempsRuns(s, false, op, src, dst, ts, td, pick);
  }

  /** `emit_binop_i32` and `emit_binop_i64`: `ret := op(loc_b, loc_a)`.
      When `loc_a` is not `ret` the source acquires a temporary (panicking
      when none is free) and then calls `emit_relaxed_mov`, which is not
      implemented; only the `loc_a == ret` path produces code, the relaxed
      operation of `loc_b` into `ret`. */
  function BinopCode(op: BinOp, sz: Size, locA: Location, locB: Location, ret: Location,
                     used: set<Gpr>): Result<seq<Instr>> {
    if locA != ret then
      if FirstFree(TempGprs, used).None? then Fail(NoTempRegister) else Fail(Unimplemented)
    else RelaxedBinopCode(op, sz, locB, ret, used)
  }

  /** `emit_binop_add32`: `emit_binop_i32` with `emit_add2`. */
  function BinopAdd32Code(locA: Location, locB: Location, ret: Location, used: set<Gpr>): Result<seq<Instr>> {
    BinopCode(AddOp, S32, locA, locB, ret, used)
  }

  /** A binary operation produces code exactly when the first operand is
      already the result location and the relaxed operation accepts the
      pair; with distinct locations it stops at the missing
      `emit_relaxed_mov`, or earlier for want of a temporary. Pairs the
      relaxed operation rejects fail as unsupported. */
  lemma BinopOutcome(op: BinOp, sz: Size, locA: Location, locB: Location, ret: Location, used: set<Gpr>)
    ensures BinopCode(op, sz, locA, locB, ret, used).Ok? <==>
            locA == ret && RelaxedBinopCode(op, sz, locB, ret, used).Ok?
    ensures locA != ret ==>
            BinopCode(op, sz, locA, locB, ret, used) ==
            (if forall r :: r in TempGprs ==> r in used then Fail(NoTempRegister) else Fail(Unimplemented))
    ensures locA == ret && RelaxedTemps(locB, ret).None? ==> BinopCode(op, sz, locA, locB, ret, used) == Fail(Unsupported)
    ensures locA == ret && locB.GPR? && ret.GPR? ==> BinopCode(op, sz, locA, locB, ret, used).Ok?
  {
    RelaxedBinopOutcome(true, op, sz, locB, ret, used);
    FirstFreeSpec(TempGprs, used);
  }

  /** `i32.add` of two registers leaves `(ret + loc_b) mod 2^32` in `ret`. */
  lemma BinopAdd32Regs(s: Cpu, a: Gpr, d: Gpr, used: set<Gpr>)
    ensures BinopAdd32Code(GPR(d), GPR(a), GPR(d), used) == Ok([Add2(S32, GPR(a), GPR(d))])
    ensures var r := Exec([Add2(S32, GPR(a), GPR(d))], s);
            r.Finished? && XReg(r.s, d) == (XReg(s, d) + XReg(s, a)) % U32 &&
            r.s.mem == s.mem && KeptBut(s, r.s, {d})
  {
    RelaxedRegIntoReg(s, AddOp, S32, a, d, used);
    Pow2Of32();
  }

  /** `i32.add` of an immediate into a register goes through one free
      temporary and leaves `(ret + imm) mod 2^32` in `ret`. */
  lemma BinopAdd32Imm(s: Cpu, src: Location, d: Gpr, used: set<Gpr>)
    requires (src.Imm32? || src.Imm64?) && (d in used || d !in TempGprs)
    requires BinopAdd32Code(GPR(d), src, GPR(d), used).Ok?
    ensures var r := Exec(BinopAdd32Code(GPR(d), src, GPR(d), used).value, s);
            r.Finished? && XReg(r.s, d) == (XReg(s, d) + ImmValue(src)) % U32 &&
            r.s.mem == s.mem && KeptBut(s, r.s, {d} + FreeTemps(used))
  {
    RelaxedImmIntoReg(s, AddOp, S32, src, d, used);
    Pow2Of32();
  }
}
