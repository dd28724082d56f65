/** The machine stack as `emit_push`/`emit_pop` use it. SP must stay 16-byte
    aligned, so two 8-byte values share one 16-byte slot: the `pushed` flag
    says whether the slot most recently opened still has a free upper half.
    With `depth` values pushed above a base `top`, value k lives at
    `SlotAddr(top, k)` and SP is `SpAt(top, depth)`; `pushed` is
    `Odd(depth)`. */
module Stack {
  import opened Wrappers
  import opened Locations
  import opened Isa

  predicate Odd(n: int) {
    n % 2 == 1
  }

  /** Operands `emit_push` and `emit_pop` accept: 64-bit registers. */
  predicate PushOperand(sz: Size, l: Location) {
    sz == S64 && IsReg(l)
  }

  /** `emit_push`: open a new 16-byte slot and fill its lower half, or fill
      the upper half of the open slot. */
  function PushCode(pushed: bool, src: Location): seq<Instr> {
    if pushed then [Str(S64, src, Memory(XzrSp, 8))]
    else [Sub(S64, GPR(XzrSp), Imm8(16), GPR(XzrSp)), Str(S64, src, Memory(XzrSp, 0))]
  }

  /** `emit_pop`: take the upper half of the open slot, or the lower half and
      release the slot. */
  function PopCode(pushed: bool, dst: Location): seq<Instr> {
    if pushed then [Ldr(S64, dst, Memory(XzrSp, 0)), Add(S64, GPR(XzrSp), Imm8(16), GPR(XzrSp))]
    else [Ldr(S64, dst, Memory(XzrSp, 8))]
  }

  /** `emit_double_push`: one pre-decrementing STP when no slot is half full
      and both operands are general-purpose registers, two pushes otherwise. */
  function DoublePushCode(pushed: bool, sz: Size, a: Location, b: Location): Result<seq<Instr>> {
    if !pushed && sz == S64 && a.GPR? && b.GPR? then Ok([Stpbd(S64, a, b, XzrSp, 16)])
    else if PushOperand(sz, a) && PushOperand(sz, b) then Ok(PushCode(pushed, a) + PushCode(!pushed, b))
    else Fail(Unsupported)
  }

  /** `emit_double_pop`: one post-incrementing LDP, or pop `b` then `a`. */
  function DoublePopCode(pushed: bool, sz: Size, a: Location, b: Location): Result<seq<Instr>> {
    if !pushed && sz == S64 && a.GPR? && b.GPR? then Ok([Ldpai(S64, a, b, XzrSp, 16)])
    else if PushOperand(sz, a) && PushOperand(sz, b) then Ok(PopCode(pushed, b) + PopCode(!pushed, a))
    else Fail(Unsupported)
  }

  function SlotAddr(top: int, k: nat): int {
    top - 16 * (k / 2 + 1) + 8 * (k % 2)
  }

  function SpAt(top: int, depth: nat): int {
    top - 16 * ((depth + 1) / 2)
  }

  /** `stk` (bottom first) is on the stack that starts below `top`. */
  predicate StackAt(s: Cpu, top: int, stk: seq<int>) {
    s.sp == SpAt(top, |stk|) &&
    forall k :: 0 <= k < |stk| ==> Load(s, SlotAddr(top, k)) == stk[k]
  }

  /** Every pushed value has its own 8-byte cell between SP and `top`, and
      SP stays congruent to `top` modulo 16 whatever the depth. */
  lemma SlotLayout(top: int, i: nat, j: nat)
    ensures i != j ==> SlotAddr(top, i) != SlotAddr(top, j)
    ensures SpAt(top, j) % 16 == top % 16
    ensures SpAt(top, j + 1) <= SlotAddr(top, j) && SlotAddr(top, j) + 8 <= top
  {
    var h := j / 2;
    assert j == 2 * h + j % 2;
  }

  /** How one push moves SP and where it stores, by parity of the depth. */
  lemma DepthStep(top: int, d: nat)
    ensures !Odd(d) ==> SpAt(top, d + 1) == SpAt(top, d) - 16 && SlotAddr(top, d) == SpAt(top, d + 1)
    ensures Odd(d) ==> SpAt(top, d + 1) == SpAt(top, d) && SlotAddr(top, d) == SpAt(top, d) + 8
  {
    var h := d / 2;
    assert d == 2 * h + d % 2;
    if Odd(d) {
      assert (d + 1) / 2 == h + 1 && (d + 2) / 2 == h + 1;
    } else {
      assert (d + 1) / 2 == h && (d + 2) / 2 == h + 1;
    }
  }

  /** What the push instructions do to the machine. */
  lemma PushExec(s: Cpu, pushed: bool, src: Location)
    requires IsReg(src)
    ensures Exec(PushCode(pushed, src), s) ==
            Finished(if pushed then s.(mem := s.mem[s.sp + 8 := RegValue(s, src)])
                     else s.(sp := s.sp - 16, mem := s.mem[s.sp - 16 := RegValue(s, src)]))
  {
    if pushed {
      PushUpperHalf(s, src);
    } else {
      PushLowerHalf(s, src);
    }
  }

  lemma PushUpperHalf(s: Cpu, src: Location)
    requires IsReg(src)
    ensures Exec(PushCode(true, src), s) == Finished(s.(mem := s.mem[s.sp + 8 := RegValue(s, src)]))
  {
    StoreWordStep(s, src, XzrSp, 8, s.sp + 8, RegValue(s, src));
    ExecOne(Str(S64, src, Memory(XzrSp, 8)), s, s.(mem := s.mem[s.sp + 8 := RegValue(s, src)]));
  }

  lemma PushLowerHalf(s: Cpu, src: Location)
    requires IsReg(src)
    ensures Exec(PushCode(false, src), s) == Finished(s.(sp := s.sp - 16, mem := s.mem[s.sp - 16 := RegValue(s, src)]))
  {
    var val := RegValue(s, src);
    var s1 := s.(sp := s.sp - 16);
    SpSubStep(s, 16);
    StoreWordStep(s1, src, XzrSp, 0, s.sp - 16, val);
    ExecPair(Sub(S64, GPR(XzrSp), Imm8(16), GPR(XzrSp)), Str(S64, src, Memory(XzrSp, 0)),
             s, s1, s1.(mem := s.mem[s.sp - 16 := val]));
  }

  /** What the pop instructions do to the machine. */
  lemma PopExec(s: Cpu, pushed: bool, dst: Location)
    requires IsReg(dst)
    ensures Exec(PopCode(pushed, dst), s) ==
            Finished(if pushed then WriteReg(s, dst, Load(s, s.sp)).(sp := s.sp + 16)
                     else WriteReg(s, dst, Load(s, s.sp + 8)))
  {
    if pushed {
      PopLowerHalf(s, dst);
    } else {
      PopUpperHalf(s, dst);
    }
  }

  lemma PopLowerHalf(s: Cpu, dst: Location)
    requires IsReg(dst)
    ensures Exec(PopCode(true, dst), s) == Finished(WriteReg(s, dst, Load(s, s.sp)).(sp := s.sp + 16))
  {
    var s1 := WriteReg(s, dst, Load(s, s.sp));
    LoadWordStep(s, dst, XzrSp, 0, s.sp);
    SpAddStep(s1, 16);
    ExecPair(Ldr(S64, dst, Memory(XzrSp, 0)), Add(S64, GPR(XzrSp), Imm8(16), GPR(XzrSp)),
             s, s1, s1.(sp := s.sp + 16));
  }

  lemma PopUpperHalf(s: Cpu, dst: Location)
    requires IsReg(dst)
    ensures Exec(PopCode(false, dst), s) == Finished(WriteReg(s, dst, Load(s, s.sp + 8)))
  {
    LoadWordStep(s, dst, XzrSp, 8, s.sp + 8);
    ExecOne(Ldr(S64, dst, Memory(XzrSp, 8)), s, WriteReg(s, dst, Load(s, s.sp + 8)));
  }

  /** One push adds one value on top and moves nothing else. */
  lemma PushStep(s: Cpu, top: int, stk: seq<int>, src: Location)
    requires StackAt(s, top, stk) && IsReg(src)
    ensures var val := RegValue(s, src);
            var t := s.(sp := SpAt(top, |stk| + 1), mem := s.mem[SlotAddr(top, |stk|) := val]);
            Exec(PushCode(Odd(|stk|), src), s) == Finished(t) && StackAt(t, top, stk + [val])
  {
    PushRuns(s, top, |stk|, src);
    PushedStack(s, top, stk, RegValue(s, src));
  }

  lemma PushRuns(s: Cpu, top: int, depth: nat, src: Location)
    requires s.sp == SpAt(top, depth) && IsReg(src)
    ensures Exec(PushCode(Odd(depth), src), s) ==
            Finished(s.(sp := SpAt(top, depth + 1), mem := s.mem[SlotAddr(top, depth) := RegValue(s, src)]))
  {
    DepthStep(top, depth);
    if Odd(depth) {
      PushUpperHalf(s, src);
    } else {
      PushLowerHalf(s, src);
    }
  }

  lemma PushedStack(s: Cpu, top: int, stk: seq<int>, val: int)
    requires StackAt(s, top, stk)
    ensures StackAt(s.(sp := SpAt(top, |stk| + 1), mem := s.mem[SlotAddr(top, |stk|) := val]), top, stk + [val])
  {
    var t := s.(sp := SpAt(top, |stk| + 1), mem := s.mem[SlotAddr(top, |stk|) := val]);
    forall k | 0 <= k < |stk| ensures Load(t, SlotAddr(top, k)) == (stk + [val])[k] {
      SlotLayout(top, k, |stk|);
    }
  }

  /** One pop removes the top value into `dst` and moves nothing else. */
  lemma PopStep(s: Cpu, top: int, stk: seq<int>, w: int, dst: Location)
    requires StackAt(s, top, stk + [w]) && IsReg(dst)
    ensures var t := WriteReg(s, dst, w).(sp := SpAt(top, |stk|));
            Exec(PopCode(Odd(|stk| + 1), dst), s) == Finished(t) && StackAt(t, top, stk)
  {
    assert Load(s, SlotAddr(top, |stk|)) == w by {
      assert (stk + [w])[|stk|] == w;
    }
    PopRuns(s, top, |stk|, dst);
    PoppedStack(s, top, stk, w, dst);
  }

  lemma PopRuns(s: Cpu, top: int, depth: nat, dst: Location)
    requires s.sp == SpAt(top, depth + 1) && IsReg(dst)
    ensures Exec(PopCode(Odd(depth + 1), dst), s) ==
            Finished(WriteReg(s, dst, Load(s, SlotAddr(top, depth))).(sp := SpAt(top, depth)))
  {
    DepthStep(top, depth);
    if Odd(depth + 1) {
      PopLowerHalf(s, dst);
    } else {
      PopUpperHalf(s, dst);
    }
  }

  lemma PoppedStack(s: Cpu, top: int, stk: seq<int>, w: int, dst: Location)
    requires StackAt(s, top, stk + [w]) && IsReg(dst)
    ensures StackAt(WriteReg(s, dst, w).(sp := SpAt(top, |stk|)), top, stk)
  {
    var t := WriteReg(s, dst, w).(sp := SpAt(top, |stk|));
    forall k | 0 <= k < |stk| ensures Load(t, SlotAddr(top, k)) == stk[k] {
      assert (stk + [w])[k] == stk[k];
    }
  }

  /** `emit_double_push` has the effect of its two single pushes. */
  lemma DoublePushIsTwoPushes(s: Cpu, pushed: bool, sz: Size, a: Location, b: Location)
    requires DoublePushCode(pushed, sz, a, b).Ok?
    ensures Exec(DoublePushCode(pushed, sz, a, b).value, s) == Exec(PushCode(pushed, a) + PushCode(!pushed, b), s)
  {
    if !pushed && sz == S64 && a.GPR? && b.GPR? {
      var s1 := s.(sp := s.sp - 16, mem := s.mem[s.sp - 16 := RegValue(s, a)]);
      PushLowerHalf(s, a);
      PushUpperHalf(s1, b);
      ExecAppend(PushCode(false, a), PushCode(true, b), s);
      StorePairStep(s, a.r, b.r);
      ExecOne(Stpbd(S64, a, b, XzrSp, 16), s, s1.(mem := s1.mem[s1.sp + 8 := RegValue(s, b)]));
    }
  }

  /** `emit_double_pop` has the effect of its two single pops, provided the
      two destinations differ. */
  lemma DoublePopIsTwoPops(s: Cpu, pushed: bool, sz: Size, a: Location, b: Location)
    requires DoublePopCode(pushed, sz, a, b).Ok?
    requires a != b
    ensures Exec(DoublePopCode(pushed, sz, a, b).value, s) == Exec(PopCode(pushed, b) + PopCode(!pushed, a), s)
  {
    if !pushed && sz == S64 && a.GPR? && b.GPR? {
      var s1 := WriteReg(s, b, Load(s, s.sp + 8));
      PopUpperHalf(s, b);
      PopLowerHalf(s1, a);
      ExecAppend(PopCode(false, b), PopCode(true, a), s);
      LdpaiStep(s, a, b);
      ExecOne(Ldpai(S64, a, b, XzrSp, 16), s, WriteReg(s1, a, Load(s, s.sp)).(sp := s.sp + 16));
    }
  }

  /** LDP with post-increment loads two general-purpose registers from
      [SP] and [SP + 8]; with distinct destinations the order of the two
      writes does not matter. */
  lemma LdpaiStep(s: Cpu, a: Location, b: Location)
    requires a.GPR? && b.GPR? && a != b
    ensures Exec1(Ldpai(S64, a, b, XzrSp, 16), s) ==
            Next(WriteReg(WriteReg(s, b, Load(s, s.sp + 8)), a, Load(s, s.sp)).(sp := s.sp + 16))
  {
    var va, vb := Load(s, s.sp), Load(s, s.sp + 8);
    var t1 := WriteReg(s, a, va);
    var t2 := WriteReg(t1, b, vb);
    assert Exec1(Ldpai(S64, a, b, XzrSp, 16), s) == Next(SetX(t2, XzrSp, XReg(t2, XzrSp) + 16));
    WriteRegsCommute(s, a, b, va, vb);
  }

  /** `push_used_gpr`: push each register in turn. */
  function PushAllCode(depth: int, srcs: seq<Location>): seq<Instr>
    decreases |srcs|
  {
    if srcs == [] then [] else PushCode(Odd(depth), srcs[0]) + PushAllCode(depth + 1, srcs[1..])
  }

  /** `pop_used_gpr`: pop into each register in turn. */
  function PopAllCode(depth: int, dsts: seq<Location>): seq<Instr>
    decreases |dsts|
  {
    if dsts == [] then [] else PopCode(Odd(depth), dsts[0]) + PopAllCode(depth - 1, dsts[1..])
  }

  function Reverse<T>(xs: seq<T>): (r: seq<T>)
    ensures |r| == |xs|
  {
    if xs == [] then [] else Reverse(xs[1..]) + [xs[0]]
  }

  lemma {:induction false} PopAllSnoc(depth: int, dsts: seq<Location>, d: Location)
    ensures PopAllCode(depth, dsts + [d]) == PopAllCode(depth, dsts) + PopCode(Odd(depth - |dsts|), d)
    decreases |dsts|
  {
    if dsts == [] {
      assert dsts + [d] == [d];
    } else {
      assert (dsts + [d])[1..] == dsts[1..] + [d];
      PopAllSnoc(depth - 1, dsts[1..], d);
    }
  }

  lemma {:induction false} PushAllSnoc(depth: int, srcs: seq<Location>, x: Location)
    ensures PushAllCode(depth, srcs + [x]) == PushAllCode(depth, srcs) + PushCode(Odd(depth + |srcs|), x)
    decreases |srcs|
  {
    if srcs == [] {
      assert srcs + [x] == [x];
    } else {
      assert (srcs + [x])[1..] == srcs[1..] + [x];
      PushAllSnoc(depth + 1, srcs[1..], x);
    }
  }

  /** Only the parity of the depth decides the code of a run of pushes or pops. */
  lemma {:induction false} PushPopParity(d1: int, d2: int, xs: seq<Location>)
    requires Odd(d1) == Odd(d2)
    ensures PushAllCode(d1, xs) == PushAllCode(d2, xs) && PopAllCode(d1, xs) == PopAllCode(d2, xs)
    decreases |xs|
  {
    if xs != [] {
      PushPopParity(d1 + 1, d2 + 1, xs[1..]);
      PushPopParity(d1 - 1, d2 - 1, xs[1..]);
    }
  }

  function Values(s: Cpu, srcs: seq<Location>): (vals: seq<int>)
    requires forall i :: 0 <= i < |srcs| ==> IsReg(srcs[i])
    ensures |vals| == |srcs|
  {
    if srcs == [] then [] else [RegValue(s, srcs[0])] + Values(s, srcs[1..])
  }

  /** Pushing a list of registers stacks their values in order and changes
      no register but SP. */
  lemma {:induction false} PushAllStacks(s: Cpu, top: int, stk: seq<int>, srcs: seq<Location>)
    requires StackAt(s, top, stk)
    requires forall i :: 0 <= i < |srcs| ==> IsReg(srcs[i])
    ensures var r := Exec(PushAllCode(|stk|, srcs), s);
            r.Finished? && StackAt(r.s, top, stk + Values(s, srcs)) &&
            r.s.x == s.x && r.s.v == s.v && r.s.z == s.z && r.s.c == s.c
    decreases |srcs|
  {
    if srcs == [] {
      assert stk + Values(s, srcs) == stk;
    } else {
      var val := RegValue(s, srcs[0]);
      var t := s.(sp := SpAt(top, |stk| + 1), mem := s.mem[SlotAddr(top, |stk|) := val]);
      PushRuns(s, top, |stk|, srcs[0]);
      PushedStack(s, top, stk, val);
      PushAllStacks(t, top, stk + [val], srcs[1..]);
      PushAllCons(s, t, stk, srcs, Exec(PushAllCode(|stk| + 1, srcs[1..]), t).s);
    }
  }

  /** The inductive step of `PushAllStacks`: one push, then the rest. */
  lemma PushAllCons(s: Cpu, t: Cpu, stk: seq<int>, srcs: seq<Location>, t2: Cpu)
    requires srcs != [] && forall i :: 0 <= i < |srcs| ==> IsReg(srcs[i])
    requires Exec(PushCode(Odd(|stk|), srcs[0]), s) == Finished(t)
    requires t.x == s.x && t.v == s.v
    requires Exec(PushAllCode(|stk| + 1, srcs[1..]), t) == Finished(t2)
    ensures Exec(PushAllCode(|stk|, srcs), s) == Finished(t2)
    ensures stk + [RegValue(s, srcs[0])] + Values(t, srcs[1..]) == stk + Values(s, srcs)
  {
    ExecAppend(PushCode(Odd(|stk|), srcs[0]), PushAllCode(|stk| + 1, srcs[1..]), s);
    ValuesReadRegisters(s, t, srcs[1..]);
    assert Values(s, srcs) == [RegValue(s, srcs[0])] + Values(s, srcs[1..]);
  }

  lemma ValuesReadRegisters(s: Cpu, t: Cpu, srcs: seq<Location>)
    requires forall i :: 0 <= i < |srcs| ==> IsReg(srcs[i])
    requires s.x == t.x && s.v == t.v
    ensures Values(s, srcs) == Values(t, srcs)
  {
  }

  /** Three single pushes from an even stack use two 16-byte slots. */
  lemma ThreePushesUseTwoSlots(s: Cpu, a: Location, b: Location, c: Location)
    requires IsReg(a) && IsReg(b) && IsReg(c)
    ensures var r := Exec(PushAllCode(0, [a, b, c]), s);
            r.Finished? && r.s.sp == s.sp - 32
  {
    PushAllStacks(s, s.sp, [], [a, b, c]);
  }

  /** Registers, SP and flags agree (memory may differ). */
  ghost predicate SameRegs(s: Cpu, t: Cpu) {
    (forall r :: XReg(t, r) == XReg(s, r)) &&
    (forall q :: Get(t.v, q) == Get(s.v, q)) &&
    t.z == s.z && t.c == s.c
  }

  /** `push_used_gpr` followed by `pop_used_gpr` over the same list, which
      pops in reverse order, restores every register and SP and leaves the
      stack below as it was. */
  lemma {:induction false} PushAllThenPopAllRestores(s: Cpu, top: int, stk: seq<int>, regs: seq<Location>)
    requires StackAt(s, top, stk)
    requires forall i :: 0 <= i < |regs| ==> IsReg(regs[i])
    ensures var r := Exec(PushAllCode(|stk|, regs) + PopAllCode(|stk| + |regs|, Reverse(regs)), s);
            r.Finished? && SameRegs(s, r.s) && StackAt(r.s, top, stk)
    decreases |regs|
  {
    if regs == [] {
      assert PushAllCode(|stk|, regs) + PopAllCode(|stk|, Reverse(regs)) == [];
    } else {
      var val := RegValue(s, regs[0]);
      PushRuns(s, top, |stk|, regs[0]);
      PushedStack(s, top, stk, val);
      var s1 := s.(sp := SpAt(top, |stk| + 1), mem := s.mem[SlotAddr(top, |stk|) := val]);
      PushAllThenPopAllRestores(s1, top, stk + [val], regs[1..]);
      NestedCase(s, top, stk, regs, Exec(InnerCode(|stk|, regs), s1).s);
    }
  }

  /** The same at any depths of the right parities: the code of the pushes
      and of the pops depends only on them. */
  lemma PushAllThenPopAllAtParity(s: Cpu, top: int, stk: seq<int>, regs: seq<Location>, d: int, d2: int)
    requires StackAt(s, top, stk)
    requires forall i :: 0 <= i < |regs| ==> IsReg(regs[i])
    requires Odd(d) == Odd(|stk|) && Odd(d2) == Odd(d + |regs|)
    ensures var r := Exec(PushAllCode(d, regs) + PopAllCode(d2, Reverse(regs)), s);
            r.Finished? && SameRegs(s, r.s) && StackAt(r.s, top, stk)
  {
    ParityShift(d, |stk|, |regs|);
    PushPopParity(d, |stk|, regs);
    PushPopParity(d2, |stk| + |regs|, Reverse(regs));
    PushAllThenPopAllRestores(s, top, stk, regs);
  }

  lemma ParityShift(a: int, b: int, n: int)
    requires Odd(a) == Odd(b)
    ensures Odd(a + n) == Odd(b + n)
  {
  }

  /** The push/pop sequence strictly inside the first push and the last pop. */
  function InnerCode(depth: int, regs: seq<Location>): seq<Instr>
    requires regs != []
  {
    PushAllCode(depth + 1, regs[1..]) + PopAllCode(depth + |regs|, Reverse(regs[1..]))
  }

  /** The inductive step of `PushAllThenPopAllRestores`: if the inner
      sequence restores registers and stack, so does the whole. */
  lemma NestedCase(s: Cpu, top: int, stk: seq<int>, regs: seq<Location>, s2: Cpu)
    requires StackAt(s, top, stk)
    requires regs != [] && forall i :: 0 <= i < |regs| ==> IsReg(regs[i])
    requires var val := RegValue(s, regs[0]);
             var s1 := s.(sp := SpAt(top, |stk| + 1), mem := s.mem[SlotAddr(top, |stk|) := val]);
             Exec(InnerCode(|stk|, regs), s1) == Finished(s2) && SameRegs(s1, s2) && StackAt(s2, top, stk + [val])
    ensures var r := Exec(PushAllCode(|stk|, regs) + PopAllCode(|stk| + |regs|, Reverse(regs)), s);
            r.Finished? && SameRegs(s, r.s) && StackAt(r.s, top, stk)
  {
    var r0 := regs[0];
    var val := RegValue(s, r0);
    var s1 := s.(sp := SpAt(top, |stk| + 1), mem := s.mem[SlotAddr(top, |stk|) := val]);
    var t := WriteReg(s2, r0, val).(sp := s.sp);
    assert Load(s2, SlotAddr(top, |stk|)) == val by {
      assert (stk + [val])[|stk|] == val;
    }
    NestedRuns(s, top, |stk|, regs, s2);
    assert StackAt(t, top, stk) by {
      PoppedStack(s2, top, stk, val, r0);
    }
    assert SameRegs(s, t) by {
      PopRestoresPushed(s, s1, s2, r0);
    }
  }

  /** The machine-level run of the inductive step: the first push, the
      inner sequence, then the last pop reading back the first pushed value. */
  lemma NestedRuns(s: Cpu, top: int, depth: nat, regs: seq<Location>, s2: Cpu)
    requires s.sp == SpAt(top, depth) && s2.sp == SpAt(top, depth + 1)
    requires regs != [] && IsReg(regs[0])
    requires Exec(InnerCode(depth, regs), s.(sp := SpAt(top, depth + 1), mem := s.mem[SlotAddr(top, depth) := RegValue(s, regs[0])])) == Finished(s2)
    requires Load(s2, SlotAddr(top, depth)) == RegValue(s, regs[0])
    ensures Exec(PushAllCode(depth, regs) + PopAllCode(depth + |regs|, Reverse(regs)), s) ==
            Finished(WriteReg(s2, regs[0], RegValue(s, regs[0])).(sp := s.sp))
  {
    var r0 := regs[0];
    var s1 := s.(sp := SpAt(top, depth + 1), mem := s.mem[SlotAddr(top, depth) := RegValue(s, r0)]);
    NestedCode(depth, regs);
    PushRuns(s, top, depth, r0);
    PopRuns(s2, top, depth, r0);
    ExecThree(PushCode(Odd(depth), r0), InnerCode(depth, regs), PopCode(Odd(depth + 1), r0), s, s1, s2,
              WriteReg(s2, r0, RegValue(s, r0)).(sp := s.sp));
  }

  /** The code of a nested push/pop sequence: the first push, the inner
      sequence, then the matching last pop. */
  lemma NestedCode(depth: int, regs: seq<Location>)
    requires regs != []
    ensures PushAllCode(depth, regs) + PopAllCode(depth + |regs|, Reverse(regs)) ==
            PushCode(Odd(depth), regs[0]) +
            ((PushAllCode(depth + 1, regs[1..]) + PopAllCode(depth + |regs|, Reverse(regs[1..]))) +
             PopCode(Odd(depth + 1), regs[0]))
  {
    var r0, rest := regs[0], regs[1..];
    var a := PushCode(Odd(depth), r0);
    var b := PushAllCode(depth + 1, rest);
    var c := PopAllCode(depth + |regs|, Reverse(rest));
    var d := PopCode(Odd(depth + 1), r0);
    assert PushAllCode(depth, regs) == a + b;
    assert Reverse(regs) == Reverse(rest) + [r0];
    PopAllSnoc(depth + |regs|, Reverse(rest), r0);
    assert depth + |regs| - |Reverse(rest)| == depth + 1;
    assert PopAllCode(depth + |regs|, Reverse(regs)) == c + d;
    Regroup(a, b, c, d);
  }

  lemma Regroup<T>(a: seq<T>, b: seq<T>, c: seq<T>, d: seq<T>)
    ensures (a + b) + (c + d) == a + ((b + c) + d)
  {
  }

  /** Popping the value pushed from `r0` back into `r0`, after code that
      restored all registers, gives back the registers of the start. */
  lemma PopRestoresPushed(s: Cpu, s1: Cpu, s2: Cpu, r0: Location)
    requires IsReg(r0)
    requires s1.x == s.x && s1.v == s.v && s1.z == s.z && s1.c == s.c
    requires SameRegs(s1, s2)
    ensures SameRegs(s, WriteReg(s2, r0, RegValue(s, r0)).(sp := s.sp))
  {
    var t := WriteReg(s2, r0, RegValue(s, r0)).(sp := s.sp);
    forall q ensures XReg(t, q) == XReg(s, q) {
      if q != XzrSp && r0 != GPR(q) {
        assert XReg(t, q) == XReg(s2, q) == XReg(s1, q);
      }
    }
    forall q ensures Get(t.v, q) == Get(s.v, q) {
      if r0 != SIMD(q) {
        assert Get(t.v, q) == Get(s2.v, q) == Get(s1.v, q);
      }
    }
  }

  /** `emit_function_prolog`: save X27 and X30 as a pair, then X27 := SP. */
  function PrologCode(pushed: bool): seq<Instr> {
    DoublePushCode(pushed, S64, GPR(FrameReg), GPR(LinkReg)).value + [Mov(S64, GPR(XzrSp), GPR(FrameReg))]
  }

  /** `emit_function_epilog`: SP := X27, then restore X27 and X30. */
  function EpilogCode(pushed: bool): seq<Instr> {
    [Mov(S64, GPR(FrameReg), GPR(XzrSp))] + DoublePopCode(pushed, S64, GPR(FrameReg), GPR(LinkReg)).value
  }

  /** Where the prolog leaves the caller's X27 and X30, relative to the new
      frame base, depending on whether a slot was half full on entry. */
  function SavedFpAddr(pushed: bool, frame: int): int {
    if pushed then frame + 24 else frame
  }

  function SavedLrAddr(pushed: bool, frame: int): int {
    if pushed then frame else frame + 8
  }

  /** The prolog opens a 16-byte-aligned frame 16 bytes below SP, points X27
      at it and saves the caller's X27 and X30 inside it. */
  lemma PrologSavesFrame(pushed: bool, s: Cpu)
    ensures var r := Exec(PrologCode(pushed), s);
            var frame := s.sp - 16;
            r.Finished? && r.s.sp == frame && XReg(r.s, FrameReg) == frame &&
            Load(r.s, SavedFpAddr(pushed, frame)) == XReg(s, FrameReg) &&
            Load(r.s, SavedLrAddr(pushed, frame)) == XReg(s, LinkReg) &&
            forall q :: q != FrameReg && q != XzrSp ==> XReg(r.s, q) == XReg(s, q)
  {
    var fp, lr := GPR(FrameReg), GPR(LinkReg);
    var frame := s.sp - 16;
    var mov := Mov(S64, GPR(XzrSp), fp);
    var save := DoublePushCode(pushed, S64, fp, lr).value;
    ExecAppend(save, [mov], s);
    var s1;
    if pushed {
      s1 := PrologPushesSingly(s);
    } else {
      s1 := PrologPushesPair(s);
    }
    MovRegStep(s1, XzrSp, FrameReg);
    ExecOne(mov, s1, SetX(s1, FrameReg, frame));
  }

  /** Saving X27 and X30 when a slot is half full: X27 goes to the free
      upper half, X30 to the lower half of a new slot. */
  lemma PrologPushesSingly(s: Cpu) returns (t: Cpu)
    ensures Exec(DoublePushCode(true, S64, GPR(FrameReg), GPR(LinkReg)).value, s) == Finished(t)
    ensures t.sp == s.sp - 16 && t.x == s.x && t.v == s.v && t.z == s.z && t.c == s.c
    ensures Load(t, s.sp + 8) == XReg(s, FrameReg) && Load(t, s.sp - 16) == XReg(s, LinkReg)
  {
    var s1 := s.(mem := s.mem[s.sp + 8 := XReg(s, FrameReg)]);
    var s2 := s1.(sp := s.sp - 16);
    t := s2.(mem := s2.mem[s.sp - 16 := XReg(s, LinkReg)]);
    PushUpperHalf(s, GPR(FrameReg));
    PushLowerHalf(s1, GPR(LinkReg));
    ExecAppend(PushCode(true, GPR(FrameReg)), PushCode(false, GPR(LinkReg)), s);
  }

  /** Saving X27 and X30 as one pair into a new slot. */
  lemma PrologPushesPair(s: Cpu) returns (t: Cpu)
    ensures Exec(DoublePushCode(false, S64, GPR(FrameReg), GPR(LinkReg)).value, s) == Finished(t)
    ensures t.sp == s.sp - 16 && t.x == s.x && t.v == s.v && t.z == s.z && t.c == s.c
    ensures Load(t, s.sp - 16) == XReg(s, FrameReg) && Load(t, s.sp - 8) == XReg(s, LinkReg)
  {
    t := s.(sp := s.sp - 16, mem := s.mem[s.sp - 16 := XReg(s, FrameReg)][s.sp - 8 := XReg(s, LinkReg)]);
    StorePairStep(s, FrameReg, LinkReg);
    ExecOne(Stpbd(S64, GPR(FrameReg), GPR(LinkReg), XzrSp, 16), s, t);
  }

  /** The epilog resets SP to the frame base, reloads X27 and X30 from where
      the prolog put them and releases the frame. */
  lemma EpilogRestoresFrame(pushed: bool, s: Cpu, frame: int)
    requires XReg(s, FrameReg) == frame
    ensures var r := Exec(EpilogCode(pushed), s);
            r.Finished? && r.s.sp == frame + 16 &&
            XReg(r.s, FrameReg) == Load(s, SavedFpAddr(pushed, frame)) &&
            XReg(r.s, LinkReg) == Load(s, SavedLrAddr(pushed, frame)) &&
            forall q :: q != FrameReg && q != LinkReg && q != XzrSp ==> XReg(r.s, q) == XReg(s, q)
  {
    var mov := Mov(S64, GPR(FrameReg), GPR(XzrSp));
    var s1 := SetX(s, XzrSp, frame);
    MovRegStep(s, FrameReg, XzrSp);
    var rest := DoublePopCode(pushed, S64, GPR(FrameReg), GPR(LinkReg)).value;
    ExecCons(mov, rest, s, s1);
    if pushed {
      EpilogPopsSingly(s1);
    } else {
      EpilogPopsPair(s1);
    }
  }

  lemma EpilogPopsSingly(s1: Cpu)
    ensures var r := Exec(DoublePopCode(true, S64, GPR(FrameReg), GPR(LinkReg)).value, s1);
            r.Finished? && r.s.sp == s1.sp + 16 &&
            XReg(r.s, FrameReg) == Load(s1, s1.sp + 24) && XReg(r.s, LinkReg) == Load(s1, s1.sp) &&
            forall q :: q != FrameReg && q != LinkReg && q != XzrSp ==> XReg(r.s, q) == XReg(s1, q)
  {
    var fp, lr := GPR(FrameReg), GPR(LinkReg);
    var s2 := WriteReg(s1, lr, Load(s1, s1.sp)).(sp := s1.sp + 16);
    PopLowerHalf(s1, lr);
    PopUpperHalf(s2, fp);
    ExecAppend(PopCode(true, lr), PopCode(false, fp), s1);
  }

  lemma EpilogPopsPair(s1: Cpu)
    ensures var r := Exec(DoublePopCode(false, S64, GPR(FrameReg), GPR(LinkReg)).value, s1);
            r.Finished? && r.s.sp == s1.sp + 16 &&
            XReg(r.s, FrameReg) == Load(s1, s1.sp) && XReg(r.s, LinkReg) == Load(s1, s1.sp + 8) &&
            forall q :: q != FrameReg && q != LinkReg && q != XzrSp ==> XReg(r.s, q) == XReg(s1, q)
  {
    var fp, lr := GPR(FrameReg), GPR(LinkReg);
    var ldp := Ldpai(S64, fp, lr, XzrSp, 16);
    LdpaiStep(s1, fp, lr);
    var s2 := WriteReg(WriteReg(s1, lr, Load(s1, s1.sp + 8)), fp, Load(s1, s1.sp)).(sp := s1.sp + 16);
    ExecOne(ldp, s1, s2);
  }

  /** A function body that keeps X27 and the two saved words returns, through
      the epilog, to the caller's SP, X27 and X30. */
  lemma FrameRestoredAfterBody(pushed: bool, s: Cpu, body: seq<Instr>, s2: Cpu)
    requires Exec(PrologCode(pushed) + body, s) == Finished(s2)
    requires XReg(s2, FrameReg) == s.sp - 16
    requires Load(s2, SavedFpAddr(pushed, s.sp - 16)) == XReg(s, FrameReg)
    requires Load(s2, SavedLrAddr(pushed, s.sp - 16)) == XReg(s, LinkReg)
    ensures var r := Exec(PrologCode(pushed) + body + EpilogCode(pushed), s);
            r.Finished? && r.s.sp == s.sp &&
            XReg(r.s, FrameReg) == XReg(s, FrameReg) && XReg(r.s, LinkReg) == XReg(s, LinkReg)
  {
    ExecAppend(PrologCode(pushed) + body, EpilogCode(pushed), s);
    EpilogRestoresFrame(pushed, s2, s.sp - 16);
  }
}
