/** `MachineARM64`: the code-generation state of the AArch64 single-pass
    back end. It holds the instructions emitted so far (the assembler, seen
    as an append-only list), the general-purpose and NEON registers in use,
    the trap table, the instruction address map, the current wasm source
    location and the push parity flag. Each method appends what the
    corresponding method of the back end emits and updates the fields it
    updates. A method that panics in the back end returns `Abort`; since
    compilation stops there, what it leaves behind is not specified beyond
    the fields it never touches. */
module Machine {
  import opened Wrappers
  import opened Locations
  import opened Isa
  import opened Allocator
  import opened Stack
  import opened Moves
  import opened Binops
  import opened MemoryAccess
  import opened Traps

  /** The general-purpose register numbered `k` (31 is `XzrSp`). */
  function GprAt(k: nat): (g: Gpr)
    requires k < 32
    ensures GprNumber(g) == k
  {
    if k == 31 then XzrSp else X(k)
  }

  /** The registers of `used` numbered `k` or more, in increasing number:
      `get_used_gprs` collects a hash set, whose iteration order is
      unspecified, and the model fixes it to increasing register number. */
  function GprsFrom(k: nat, used: set<Gpr>): (regs: seq<Location>)
    requires k <= 32
    ensures forall i :: 0 <= i < |regs| ==> regs[i].GPR? && regs[i].r in used && k <= GprNumber(regs[i].r)
    ensures forall i, j :: 0 <= i < j < |regs| ==> GprNumber(regs[i].r) < GprNumber(regs[j].r)
    decreases 32 - k
  {
    if k == 32 then []
    else if GprAt(k) in used then [GPR(GprAt(k))] + GprsFrom(k + 1, used)
    else GprsFrom(k + 1, used)
  }

  /** `get_used_gprs`, as operands of `emit_push`/`emit_pop`. */
  function UsedGprList(used: set<Gpr>): (regs: seq<Location>)
    ensures forall i :: 0 <= i < |regs| ==> regs[i].GPR? && regs[i].r in used
  {
    GprsFrom(0, used)
  }

  /** Every register in use is in the list, once. */
  lemma {:induction false} GprsFromComplete(k: nat, used: set<Gpr>, g: Gpr)
    requires k <= 32 && g in used && k <= GprNumber(g)
    ensures GPR(g) in GprsFrom(k, used)
    decreases 32 - k
  {
    if GprNumber(g) == k {
      assert g == GprAt(k);
    } else {
      GprsFromComplete(k + 1, used, g);
    }
  }

  /** `get_used_gprs` lists exactly the registers in use, each once. */
  lemma UsedGprListExact(used: set<Gpr>)
    ensures forall g :: GPR(g) in UsedGprList(used) <==> g in used
    ensures |UsedGprList(used)| == |used|
  {
    var regs := UsedGprList(used);
    forall g | g in used ensures GPR(g) in regs {
      GprsFromComplete(0, used, g);
    }
    assert forall i, j :: 0 <= i < j < |regs| ==> regs[i] != regs[j] by {
      assert regs == GprsFrom(0, used);
    }
    var asSet := set i | 0 <= i < |regs| :: regs[i].r;
    assert asSet == used;
    DistinctCount(regs, |regs|);
  }

  lemma {:induction false} DistinctCount(regs: seq<Location>, n: nat)
    requires n <= |regs|
    requires forall i :: 0 <= i < |regs| ==> regs[i].GPR?
    requires forall i, j :: 0 <= i < j < |regs| ==> regs[i] != regs[j]
    ensures |set i | 0 <= i < n :: regs[i].r| == n
  {
    if n > 0 {
      DistinctCount(regs, n - 1);
      var before := set i | 0 <= i < n - 1 :: regs[i].r;
      assert (set i | 0 <= i < n :: regs[i].r) == before + {regs[n - 1].r};
      forall i | 0 <= i < n - 1 ensures regs[i].r != regs[n - 1].r {
        assert regs[i] != regs[n - 1];
      }
    }
  }

  /** The NEON registers of `used` numbered `k` or more, in increasing
      number. */
  function SimdsFrom(k: nat, used: set<Neon>): (regs: seq<Neon>)
    requires k <= 32
    ensures forall i :: 0 <= i < |regs| ==> regs[i] in used && k <= regs[i].n
    ensures forall i, j :: 0 <= i < j < |regs| ==> regs[i].n < regs[j].n
    ensures |regs| <= 32 - k
    decreases 32 - k
  {
    if k == 32 then []
    else if V(k) in used then [V(k)] + SimdsFrom(k + 1, used)
    else SimdsFrom(k + 1, used)
  }

  /** `get_used_simd`, in increasing register number. */
  function UsedSimdList(used: set<Neon>): (regs: seq<Neon>)
    ensures forall i :: 0 <= i < |regs| ==> regs[i] in used
    ensures forall i, j :: 0 <= i < j < |regs| ==> regs[i] != regs[j]
    ensures |regs| <= 32
  {
    SimdsFrom(0, used)
  }

  lemma {:induction false} SimdsFromComplete(k: nat, used: set<Neon>, q: Neon)
    requires k <= 32 && q in used && k <= q.n
    ensures q in SimdsFrom(k, used)
    decreases 32 - k
  {
    if q.n != k {
      SimdsFromComplete(k + 1, used, q);
    }
  }

  /** `get_used_simd` lists exactly the registers in use, each once. */
  lemma UsedSimdListExact(used: set<Neon>)
    ensures forall q :: q in UsedSimdList(used) <==> q in used
    ensures forall i, j :: 0 <= i < j < |UsedSimdList(used)| ==> UsedSimdList(used)[i] != UsedSimdList(used)[j]
  {
    forall q | q in used ensures q in UsedSimdList(used) {
      SimdsFromComplete(0, used, q);
    }
  }

  /** One more push or pop flips the parity. */
  lemma OddFlip(n: int)
    ensures Odd(n + 1) == !Odd(n)
  {
  }

  lemma OddFlipDown(n: int)
    ensures Odd(n - 1) == !Odd(n)
  {
  }

  /** The `pushed` flag as a stack depth of the same parity. */
  function Depth(pushed: bool): (d: int)
    ensures Odd(d) == pushed
  {
    if pushed then 1 else 0
  }

  /** `push_used_simd`'s stores from list position `k` on: register i of
      the list goes to SP + 8 i. */
  function SimdStoresFrom(regs: seq<Neon>, k: nat): (code: seq<Instr>)
    requires k <= |regs|
    ensures |code| == |regs| - k
    ensures forall i :: 0 <= i < |code| ==> code[i] == Str(S64, SIMD(regs[k + i]), Memory(XzrSp, 8 * (k + i)))
    decreases |regs| - k
  {
    if k == |regs| then []
    else [Str(S64, SIMD(regs[k]), Memory(XzrSp, 8 * k))] + SimdStoresFrom(regs, k + 1)
  }

  /** `pop_used_simd`'s loads from list position `k` on, from the same
      slots. */
  function SimdLoadsFrom(regs: seq<Neon>, k: nat): (code: seq<Instr>)
    requires k <= |regs|
    ensures |code| == |regs| - k
    ensures forall i :: 0 <= i < |code| ==> code[i] == Ldr(S64, SIMD(regs[k + i]), Memory(XzrSp, 8 * (k + i)))
    decreases |regs| - k
  {
    if k == |regs| then []
    else [Ldr(S64, SIMD(regs[k]), Memory(XzrSp, 8 * k))] + SimdLoadsFrom(regs, k + 1)
  }

  /** `push_used_simd`'s stores: register i of the list goes to SP + 8 i. */
  function SimdStoreCode(regs: seq<Neon>): (code: seq<Instr>)
    ensures |code| == |regs|
    ensures forall i :: 0 <= i < |regs| ==> code[i] == Str(S64, SIMD(regs[i]), Memory(XzrSp, 8 * i))
  {
    SimdStoresFrom(regs, 0)
  }

  /** `pop_used_simd`'s loads, from the same slots. */
  function SimdLoadCode(regs: seq<Neon>): (code: seq<Instr>)
    ensures |code| == |regs|
    ensures forall i :: 0 <= i < |regs| ==> code[i] == Ldr(S64, SIMD(regs[i]), Memory(XzrSp, 8 * i))
  {
    SimdLoadsFrom(regs, 0)
  }

  /** Memory after the stores from position `k` on, with SP at `sp` and the
      NEON registers `v`. */
  function StoredFrom(m: map<int, int>, sp: int, v: map<Neon, int>, regs: seq<Neon>, k: nat): map<int, int>
    requires k <= |regs|
    decreases |regs| - k
  {
    if k == |regs| then m
    else StoredFrom(m[sp + 8 * k := Get(v, regs[k])], sp, v, regs, k + 1)
  }

  /** NEON registers after the loads from position `k` on, with SP at `sp`
      over the memory `m`. */
  function LoadedFrom(v: map<Neon, int>, m: map<int, int>, sp: int, regs: seq<Neon>, k: nat): map<Neon, int>
    requires k <= |regs|
    decreases |regs| - k
  {
    if k == |regs| then v
    else LoadedFrom(v[regs[k] := Get(m, sp + 8 * k)], m, sp, regs, k + 1)
  }

  /** Each slot from position `k` on holds its register; memory outside
      those slots is untouched. */
  lemma {:induction false} StoredFromRead(m: map<int, int>, sp: int, v: map<Neon, int>, regs: seq<Neon>, k: nat)
    requires k <= |regs|
    ensures forall i :: k <= i < |regs| ==> Get(StoredFrom(m, sp, v, regs, k), sp + 8 * i) == Get(v, regs[i])
    ensures forall a :: a < sp + 8 * k || sp + 8 * |regs| <= a ==> Get(StoredFrom(m, sp, v, regs, k), a) == Get(m, a)
    decreases |regs| - k
  {
    if k < |regs| {
      StoredFromRead(m[sp + 8 * k := Get(v, regs[k])], sp, v, regs, k + 1);
    }
  }

  /** With no register listed twice, each register from position `k` on
      holds its own slot and the others keep their values. */
  lemma {:induction false} LoadedFromRead(v: map<Neon, int>, m: map<int, int>, sp: int, regs: seq<Neon>, k: nat)
    requires k <= |regs|
    requires forall i, j :: 0 <= i < j < |regs| ==> regs[i] != regs[j]
    ensures forall j :: k <= j < |regs| ==> Get(LoadedFrom(v, m, sp, regs, k), regs[j]) == Get(m, sp + 8 * j)
    ensures forall q :: q !in regs[k..] ==> Get(LoadedFrom(v, m, sp, regs, k), q) == Get(v, q)
    decreases |regs| - k
  {
    if k < |regs| {
      var v1 := v[regs[k] := Get(m, sp + 8 * k)];
      LoadedFromRead(v1, m, sp, regs, k + 1);
      assert regs[k..] == [regs[k]] + regs[k + 1..];
    }
  }

  lemma {:induction false} SimdStoresRun(s: Cpu, regs: seq<Neon>, k: nat)
    requires k <= |regs|
    ensures Exec(SimdStoresFrom(regs, k), s) == Finished(s.(mem := StoredFrom(s.mem, s.sp, s.v, regs, k)))
    decreases |regs| - k
  {
    if k < |regs| {
      var val := Get(s.v, regs[k]);
      var t := s.(mem := s.mem[s.sp + 8 * k := val]);
      StoreWordStep(s, SIMD(regs[k]), XzrSp, 8 * k, s.sp + 8 * k, val);
      ExecCons(Str(S64, SIMD(regs[k]), Memory(XzrSp, 8 * k)), SimdStoresFrom(regs, k + 1), s, t);
      SimdStoresRun(t, regs, k + 1);
    }
  }

  lemma {:induction false} SimdLoadsRun(s: Cpu, regs: seq<Neon>, k: nat)
    requires k <= |regs|
    ensures Exec(SimdLoadsFrom(regs, k), s) == Finished(s.(v := LoadedFrom(s.v, s.mem, s.sp, regs, k)))
    decreases |regs| - k
  {
    if k < |regs| {
      var t := s.(v := s.v[regs[k] := Get(s.mem, s.sp + 8 * k)]);
      LoadWordStep(s, SIMD(regs[k]), XzrSp, 8 * k, s.sp + 8 * k);
      ExecCons(Ldr(S64, SIMD(regs[k]), Memory(XzrSp, 8 * k)), SimdLoadsFrom(regs, k + 1), s, t);
      SimdLoadsRun(t, regs, k + 1);
    }
  }

  /** The state `push_used_simd` leaves: SP lowered by 8 bytes per register
      of `regs`, register i of the list at the new SP + 8 i, memory outside
      those slots, the flags and every register but SP and the temporary as
      they were. */
  ghost predicate SimdPushed(s: Cpu, t: Cpu, regs: seq<Neon>, tmp: Option<Gpr>) {
    t.sp == s.sp - 8 * |regs| &&
    (forall i :: 0 <= i < |regs| ==> Load(t, t.sp + 8 * i) == Get(s.v, regs[i])) &&
    (forall a :: a < t.sp || s.sp <= a ==> Load(t, a) == Load(s, a)) &&
    KeptBut(s, t, {XzrSp} + TempSet(tmp))
  }

  /** The state `pop_used_simd` leaves after a `push_used_simd` from `s`:
      SP, the NEON registers, the flags, memory at and above SP and every
      general-purpose register but the two temporaries as they were. */
  ghost predicate SimdRestored(s: Cpu, t: Cpu, t1: Option<Gpr>, t2: Option<Gpr>) {
    t.sp == s.sp &&
    (forall q :: Get(t.v, q) == Get(s.v, q)) &&
    (forall a :: s.sp <= a ==> Load(t, a) == Load(s, a)) &&
    t.z == s.z && t.c == s.c &&
    (forall g :: g != XzrSp && g !in TempSet(t1) + TempSet(t2) ==> XReg(t, g) == XReg(s, g))
  }

  lemma SimdStoresKeep(s: Cpu, s1: Cpu, regs: seq<Neon>, tmp: Option<Gpr>)
    requires s1.sp == s.sp - 8 * |regs| && s1.mem == s.mem && KeptBut(s, s1, {XzrSp} + TempSet(tmp))
    ensures SimdPushed(s, s1.(mem := StoredFrom(s1.mem, s1.sp, s1.v, regs, 0)), regs, tmp)
  {
    var s2 := s1.(mem := StoredFrom(s1.mem, s1.sp, s1.v, regs, 0));
    StoredFromRead(s1.mem, s1.sp, s1.v, regs, 0);
    assert forall q :: XReg(s2, q) == XReg(s1, q);
  }

  lemma SimdLoadsRestore(s: Cpu, s2: Cpu, regs: seq<Neon>, t1: Option<Gpr>, t2: Option<Gpr>, u: Cpu)
    requires forall i, j :: 0 <= i < j < |regs| ==> regs[i] != regs[j]
    requires SimdPushed(s, s2, regs, t1)
    requires var s3 := s2.(v := LoadedFrom(s2.v, s2.mem, s2.sp, regs, 0));
             u.sp == s3.sp + 8 * |regs| && u.mem == s3.mem && KeptBut(s3, u, {XzrSp} + TempSet(t2))
    ensures SimdRestored(s, u, t1, t2)
  {
    var n := |regs|;
    var s3 := s2.(v := LoadedFrom(s2.v, s2.mem, s2.sp, regs, 0));
    LoadedFromRead(s2.v, s2.mem, s2.sp, regs, 0);
    assert regs[0..] == regs;
    forall q ensures Get(u.v, q) == Get(s.v, q) {
      if q in regs {
        var j :| 0 <= j < n && regs[j] == q;
        assert Get(s3.v, regs[j]) == Get(s2.mem, s2.sp + 8 * j);
      }
    }
    assert forall g :: XReg(s3, g) == XReg(s2, g);
  }

  /** `push_used_simd`'s code, run: it stores every NEON register in use in
      its own slot below the old SP (`SimdPushed`). */
  lemma PushUsedSimdStores(s: Cpu, used: set<Neon>, tmp: Option<Gpr>)
    requires AdjustStackCode(8 * |UsedSimdList(used)|, tmp).Ok?
    requires tmp.Some? ==> tmp.value != XzrSp
    ensures var regs := UsedSimdList(used);
            var r := Exec(AdjustStackCode(8 * |regs|, tmp).value + SimdStoreCode(regs), s);
            r.Finished? && SimdPushed(s, r.s, regs, tmp)
  {
    var regs := UsedSimdList(used);
    var adj := AdjustStackCode(8 * |regs|, tmp).value;
    var code := SimdStoreCode(regs);
    AdjustStackLowersSp(s, 8 * |regs|, tmp);
    var s1 := Exec(adj, s).s;
    SimdStoresRun(s1, regs, 0);
    ExecChain(adj, code, s, s1, s1.(mem := StoredFrom(s1.mem, s1.sp, s1.v, regs, 0)));
    SimdStoresKeep(s, s1, regs, tmp);
  }

  /** `push_used_simd` followed by `pop_used_simd` gives every NEON register
      and SP back and keeps the caller's stack (`SimdRestored`), whichever
      temporaries the two calls picked. */
  lemma PushThenPopUsedSimdRestores(s: Cpu, used: set<Neon>, t1: Option<Gpr>, t2: Option<Gpr>)
    requires AdjustStackCode(8 * |UsedSimdList(used)|, t1).Ok? && RestoreStackCode(8 * |UsedSimdList(used)|, t2).Ok?
    requires t1.Some? ==> t1.value != XzrSp
    requires t2.Some? ==> t2.value != XzrSp
    ensures var regs := UsedSimdList(used);
            var r := Exec(AdjustStackCode(8 * |regs|, t1).value + SimdStoreCode(regs) +
                          (SimdLoadCode(regs) + RestoreStackCode(8 * |regs|, t2).value), s);
            r.Finished? && SimdRestored(s, r.s, t1, t2)
  {
    var regs := UsedSimdList(used);
    var n := |regs|;
    var push := AdjustStackCode(8 * n, t1).value + SimdStoreCode(regs);
    var load := SimdLoadCode(regs);
    var rst := RestoreStackCode(8 * n, t2).value;
    PushUsedSimdStores(s, used, t1);
    var s2 := Exec(push, s).s;
    SimdLoadsRun(s2, regs, 0);
    var s3 := s2.(v := LoadedFrom(s2.v, s2.mem, s2.sp, regs, 0));
    RestoreStackRaisesSp(s3, 8 * n, t2);
    var u := Exec(rst, s3).s;
    SimdLoadsRestore(s, s2, regs, t1, t2, u);
    ExecChain(load, rst, s2, s3, u);
    ExecChain(push, load + rst, s, s2, u);
  }

  /** Two successive acquisitions add exactly the two registers, and releasing
      them in the opposite order gives the set back. */
  lemma AcquiredTwo(used: set<Gpr>, ts: Gpr, td: Gpr)
    requires ts !in used && td !in used + {ts}
    ensures used + {ts} + {td} == used + {ts, td}
    ensures used + {ts, td} - {td} - {ts} == used
  {
  }

  lemma ReleasedOne(used: set<Gpr>, a: Gpr)
    requires a !in used
    ensures used + {a} - {a} == used
  {
  }

  lemma AppendTwo<T>(c0: seq<T>, a: seq<T>, b: seq<T>)
    ensures c0 + a + b == c0 + (a + b)
  {
  }

  /** `MemoryOpCode` step by step, in the order `memory_op` takes its
      temporaries. */
  lemma MemoryOpCodeSteps(addr: Location, memarg: MemArg, checkAlignment: bool, vs: nat, needCheck: bool,
                          imported: bool, vmOffset: int, oob: Label, cb: Gpr -> seq<Instr>, used: set<Gpr>)
    ensures var r := MemoryOpCode(addr, memarg, checkAlignment, vs, needCheck, imported, vmOffset, oob, cb, used);
            var ta := FirstFree(TempGprs, used);
            (ta.None? ==> r == Fail(NoTempRegister)) &&
            (ta.Some? ==>
               var ind := IndirectCode(false, imported, vmOffset, ta.value, used + {ta.value});
               (ind.Fail? ==> r == Fail(ind.error)) &&
               (ind.Ok? ==>
                  var tb := FirstFree(TempGprs, used + {ta.value});
                  (tb.None? ==> r == Fail(NoTempRegister)) &&
                  (tb.Some? ==>
                     var tbd := FirstFree(TempGprs, used + {ta.value} + {tb.value});
                     (tbd.None? ==> r == Fail(NoTempRegister)) &&
                     (tbd.Some? ==>
                        r == Ok(MemOp(ind.value + (BaseBoundCode(false, needCheck, vs, TableReg(imported, ta.value), TableOff(imported, vmOffset), ta.value, tb.value, tbd.value) +
                                                   TailCode(addr, memarg, checkAlignment, needCheck, oob, ta.value, tb.value, tbd.value)),
                                      cb(ta.value), [ta.value, tb.value, tbd.value]))))))
  {
    var ta := FirstFree(TempGprs, used);
    if ta.Some? {
      var tb := FirstFree(TempGprs, used + {ta.value});
      if tb.Some? {
        AddTwo(used, ta.value, tb.value);
        var tbd := FirstFree(TempGprs, used + {ta.value} + {tb.value});
        var ind := IndirectCode(false, imported, vmOffset, ta.value, used + {ta.value});
        if ind.Ok? && tbd.Some? {
          var bb := BaseBoundCode(false, needCheck, vs, TableReg(imported, ta.value), TableOff(imported, vmOffset), ta.value, tb.value, tbd.value);
          var tail := TailCode(addr, memarg, checkAlignment, needCheck, oob, ta.value, tb.value, tbd.value);
          assert ind.value + bb + tail == ind.value + (bb + tail);
        }
      }
    }
  }

  /** `i32_load*` is `memory_op` with a one-load callback on `tmp_addr`. */
  lemma I32LoadCodeSteps(k: I32Load, addr: Location, memarg: MemArg, ret: Location, needCheck: bool,
                         imported: bool, vmOffset: int, oob: Label, used: set<Gpr>)
    ensures var r := I32LoadCode(k, addr, memarg, ret, needCheck, imported, vmOffset, oob, used);
            r == MemoryOpCode(addr, memarg, false, ValueSize(k), needCheck, imported, vmOffset, oob, Callback(k, ret), used) &&
            (r.Ok? ==> |r.value.taken| == 3 && r.value.access == [AccessInstr(k, ret, r.value.taken[0])])
  {
  }

  /** `RelaxedBinopCode` for an arm with one temporary. */
  lemma RelaxedOneTempSteps(op: BinOp, sz: Size, src: Location, dst: Location, used: set<Gpr>)
    requires RelaxedTemps(src, dst) == Some(1)
    ensures var r := RelaxedBinopCode(op, sz, src, dst, used);
            var t := FirstFree(TempGprs, used);
            (t.None? ==> r == Fail(NoTempRegister)) &&
            (t.Some? ==> r == OneTempCode(op, sz, src, dst, t.value, FirstFree(TempGprs, used + {t.value})))
  {
  }

  /** `RelaxedBinopCode` for the memory/memory arm, in the order the two
      temporaries are taken. */
  lemma RelaxedTwoTempsSteps(op: BinOp, sz: Size, src: Location, dst: Location, used: set<Gpr>)
    requires RelaxedTemps(src, dst) == Some(2)
    ensures var r := RelaxedBinopCode(op, sz, src, dst, used);
            var t1 := FirstFree(TempGprs, used);
            (t1.None? ==> r == Fail(NoTempRegister)) &&
            (t1.Some? ==>
               var t2 := FirstFree(TempGprs, used + {t1.value});
               (t2.None? ==> r == Fail(NoTempRegister)) &&
               (t2.Some? ==> r == TwoTempsCode(true, op, sz, src, dst, t1.value, t2.value, FirstFree(TempGprs, used + {t1.value} + {t2.value}))))
  {
    var t1 := FirstFree(TempGprs, used);
    if t1.Some? {
      var t2 := FirstFree(TempGprs, used + {t1.value});
      if t2.Some? {
        AddTwo(used, t1.value, t2.value);
      }
    }
  }

  lemma AddTwo(used: set<Gpr>, a: Gpr, b: Gpr)
    ensures used + {a} + {b} == used + {a, b}
  {
  }

  lemma AppendNested<T>(c0: seq<T>, a: seq<T>, b: seq<T>, c: seq<T>, d: seq<T>)
    ensures c0 + a + b + c + d == c0 + (a + (b + (c + d)))
  {
  }

  lemma CodeSizeAppend(a: seq<Instr>, b: seq<Instr>)
    ensures CodeSize(a + b) == CodeSize(a) + CodeSize(b)
  {
  }

  lemma AppendFour<T>(c0: seq<T>, a: seq<T>, b: seq<T>, c: seq<T>, d: seq<T>)
    ensures c0 + a + b + c + d == c0 + (a + b + c + d)
  {
  }

  lemma TakeOneMore<T>(c0: seq<T>, xs: seq<T>, i: nat)
    requires i < |xs|
    ensures c0 + xs[..i] + [xs[i]] == c0 + xs[..i + 1]
  {
    assert xs[..i + 1] == xs[..i] + [xs[i]];
  }

  lemma PushAllStep(c0: seq<Instr>, d: int, xs: seq<Location>, i: nat)
    requires i < |xs|
    ensures c0 + PushAllCode(d, xs[..i]) + PushCode(Odd(d + i), xs[i]) == c0 + PushAllCode(d, xs[..i + 1])
  {
    PushAllSnoc(d, xs[..i], xs[i]);
    assert xs[..i + 1] == xs[..i] + [xs[i]];
  }

  lemma PopAllStep(c0: seq<Instr>, d: int, xs: seq<Location>, i: nat)
    requires i < |xs|
    ensures c0 + PopAllCode(d, xs[..i]) + PopCode(Odd(d - i), xs[i]) == c0 + PopAllCode(d, xs[..i + 1])
  {
    PopAllSnoc(d, xs[..i], xs[i]);
    assert xs[..i + 1] == xs[..i] + [xs[i]];
  }

  lemma ReverseAt<T>(xs: seq<T>)
    ensures forall k :: 0 <= k < |xs| ==> Reverse(xs)[k] == xs[|xs| - 1 - k]
  {
    if xs != [] {
      ReverseAt(xs[1..]);
    }
  }

  /** Reversing a list of registers gives a list of registers. */
  lemma ReverseGprs(regs: seq<Location>, rev: seq<Location>)
    requires forall i :: 0 <= i < |regs| ==> regs[i].GPR?
    requires rev == Reverse(regs)
    ensures |rev| == |regs| && forall i :: 0 <= i < |rev| ==> rev[i].GPR?
  {
    ReverseAt(regs);
    forall i | 0 <= i < |regs| ensures rev[i].GPR? {
      assert rev[i] == regs[|regs| - 1 - i];
    }
  }


  class MachineARM64 {
    var code: seq<Instr>
    var usedGprs: set<Gpr>
    var usedSimd: set<Neon>
    var trapTable: map<nat, TrapCode>
    var addressMap: seq<AddressMapEntry>
    var srcLoc: U32Word
    var pushed: bool

    /** `MachineARM64::new`: no code, nothing in use, no metadata. */
    constructor ()
      ensures code == [] && usedGprs == {} && usedSimd == {}
      ensures trapTable == map[] && addressMap == [] && srcLoc == 0 && !pushed
    {
      code := [];
      usedGprs := {};
      usedSimd := {};
      trapTable := map[];
      addressMap := [];
      srcLoc := 0;
      pushed := false;
    }

    /** `assembler.get_offset()`: the size of the code so far, in bytes. */
    function Offset(): nat
      reads this
    {
      CodeSize(code)
    }

    /** Append instructions to the assembler. */
    method Emit(instrs: seq<Instr>)
      modifies this
      ensures code == old(code) + instrs
      ensures usedGprs == old(usedGprs) && usedSimd == old(usedSimd) && trapTable == old(trapTable) && addressMap == old(addressMap) && srcLoc == old(srcLoc) && pushed == old(pushed)
    {
      code := code + instrs;
    }

    // -------------------------------------------------------------------
    // Register allocation

    /** `pick_gpr`: the first of X0..X15 not in use. */
    method PickGpr() returns (r: Option<Gpr>)
      ensures r == FirstFree(PickGprs, usedGprs)
    {
      r := Pick(PickGprs, usedGprs);
    }

    /** `pick_temp_gpr`: the first of X0..X7 not in use. */
    method PickTempGpr() returns (r: Option<Gpr>)
      ensures r == FirstFree(TempGprs, usedGprs)
    {
      r := Pick(TempGprs, usedGprs);
    }

    /** `pick_simd`: the first of V8..V12 not in use. */
    method PickSimd() returns (r: Option<Neon>)
      ensures r == FirstFree(PickSimds, usedSimd)
    {
      r := Pick(PickSimds, usedSimd);
    }

    /** `pick_temp_simd`: the first of V0..V7 not in use. */
    method PickTempSimd() returns (r: Option<Neon>)
      ensures r == FirstFree(TempSimds, usedSimd)
    {
      r := Pick(TempSimds, usedSimd);
    }

    /** `acquire_temp_gpr`: pick a temporary and mark exactly it in use;
        with X0..X7 all in use, return None and change nothing. */
    method AcquireTempGpr() returns (r: Option<Gpr>)
      modifies this
      ensures r == FirstFree(TempGprs, old(usedGprs))
      ensures usedGprs == old(usedGprs) + TempSet(r)
      ensures code == old(code) && usedSimd == old(usedSimd) && pushed == old(pushed) && trapTable == old(trapTable) && addressMap == old(addressMap) && srcLoc == old(srcLoc)
    {
      r := PickTempGpr();
      if r.Some? {
        usedGprs := usedGprs + {r.value};
      }
    }

    /** `release_gpr`: the register must be in use; only it is freed. */
    method ReleaseGpr(g: Gpr)
      requires g in usedGprs
      modifies this
      ensures usedGprs == old(usedGprs) - {g}
      ensures code == old(code) && usedSimd == old(usedSimd) && pushed == old(pushed) && trapTable == old(trapTable) && addressMap == old(addressMap) && srcLoc == old(srcLoc)
    {
      usedGprs := usedGprs - {g};
    }

    /** `reserve_unused_temp_gpr`: the register must be free; it is marked
        in use and returned. */
    method ReserveUnusedTempGpr(g: Gpr) returns (r: Gpr)
      requires g !in usedGprs
      modifies this
      ensures r == g && usedGprs == old(usedGprs) + {g}
      ensures code == old(code) && usedSimd == old(usedSimd) && pushed == old(pushed) && trapTable == old(trapTable) && addressMap == old(addressMap) && srcLoc == old(srcLoc)
    {
      usedGprs := usedGprs + {g};
      r := g;
    }

    /** `reserve_gpr`: mark a register in use, whether or not it was. */
    method ReserveGpr(g: Gpr)
      modifies this
      ensures usedGprs == old(usedGprs) + {g}
      ensures code == old(code) && usedSimd == old(usedSimd) && pushed == old(pushed) && trapTable == old(trapTable) && addressMap == old(addressMap) && srcLoc == old(srcLoc)
    {
      usedGprs := usedGprs + {g};
    }

    /** `acquire_temp_simd`, over V0..V7. */
    method AcquireTempSimd() returns (r: Option<Neon>)
      modifies this
      ensures r == FirstFree(TempSimds, old(usedSimd))
      ensures usedSimd == old(usedSimd) + (if r.Some? then {r.value} else {})
      ensures code == old(code) && usedGprs == old(usedGprs) && pushed == old(pushed) && trapTable == old(trapTable) && addressMap == old(addressMap) && srcLoc == old(srcLoc)
    {
      r := PickTempSimd();
      if r.Some? {
        usedSimd := usedSimd + {r.value};
      }
    }

    /** `reserve_simd`. */
    method ReserveSimd(q: Neon)
      modifies this
      ensures usedSimd == old(usedSimd) + {q}
      ensures code == old(code) && usedGprs == old(usedGprs) && pushed == old(pushed) && trapTable == old(trapTable) && addressMap == old(addressMap) && srcLoc == old(srcLoc)
    {
      usedSimd := usedSimd + {q};
    }

    /** `release_simd`: the register must be in use; only it is freed. */
    method ReleaseSimd(q: Neon)
      requires q in usedSimd
      modifies this
      ensures usedSimd == old(usedSimd) - {q}
      ensures code == old(code) && usedGprs == old(usedGprs) && pushed == old(pushed) && trapTable == old(trapTable) && addressMap == old(addressMap) && srcLoc == old(srcLoc)
    {
      usedSimd := usedSimd - {q};
    }

    // -------------------------------------------------------------------
    // Pushes and pops

    /** `emit_push`: only a 64-bit register can be pushed; the code opens a
        slot or fills the open one, and the parity flips. */
    method EmitPush(sz: Size, src: Location) returns (o: Outcome)
      modifies this
      ensures o.Done? <==> PushOperand(sz, src)
      ensures o.Abort? ==> o.error == Unsupported && code == old(code) && pushed == old(pushed)
      ensures o.Done? ==> code == old(code) + PushCode(old(pushed), src) && pushed == !old(pushed)
      ensures usedGprs == old(usedGprs) && usedSimd == old(usedSimd) && trapTable == old(trapTable) && addressMap == old(addressMap) && srcLoc == old(srcLoc)
    {
      if !PushOperand(sz, src) {
        return Abort(Unsupported);
      }
      var offset := 8;
      if !pushed {
        Emit([Sub(S64, GPR(XzrSp), Imm8(16), GPR(XzrSp))]);
        offset := 0;
      }
      Emit([Str(S64, src, Memory(XzrSp, offset))]);
      pushed := !pushed;
      return Done;
    }

    /** `emit_pop`: the mirror of `emit_push`. */
    method EmitPop(sz: Size, dst: Location) returns (o: Outcome)
      modifies this
      ensures o.Done? <==> PushOperand(sz, dst)
      ensures o.Abort? ==> o.error == Unsupported && code == old(code) && pushed == old(pushed)
      ensures o.Done? ==> code == old(code) + PopCode(old(pushed), dst) && pushed == !old(pushed)
      ensures usedGprs == old(usedGprs) && usedSimd == old(usedSimd) && trapTable == old(trapTable) && addressMap == old(addressMap) && srcLoc == old(srcLoc)
    {
      if !PushOperand(sz, dst) {
        return Abort(Unsupported);
      }
      var offset := if pushed then 0 else 8;
      Emit([Ldr(S64, dst, Memory(XzrSp, offset))]);
      if pushed {
        Emit([Add(S64, GPR(XzrSp), Imm8(16), GPR(XzrSp))]);
      }
      pushed := !pushed;
      return Done;
    }

    /** `emit_double_push`: one STP for two registers at an even depth,
        two pushes otherwise; either way the parity is kept. */
    method EmitDoublePush(sz: Size, a: Location, b: Location) returns (o: Outcome)
      modifies this
      ensures o.Done? <==> DoublePushCode(old(pushed), sz, a, b).Ok?
      ensures o.Abort? ==> o.error == Unsupported
      ensures o.Done? ==> code == old(code) + DoublePushCode(old(pushed), sz, a, b).value && pushed == old(pushed)
      ensures usedGprs == old(usedGprs) && usedSimd == old(usedSimd) && trapTable == old(trapTable) && addressMap == old(addressMap) && srcLoc == old(srcLoc)
    {
      if !pushed && sz == S64 && a.GPR? && b.GPR? {
        Emit([Stpbd(S64, a, b, XzrSp, 16)]);
        return Done;
      }
      o := EmitPush(sz, a);
      if o.Abort? {
        return;
      }
      o := EmitPush(sz, b);
    }

    /** `emit_double_pop`: one LDP, or pop `b` then `a`. */
    method EmitDoublePop(sz: Size, a: Location, b: Location) returns (o: Outcome)
      modifies this
      ensures o.Done? <==> DoublePopCode(old(pushed), sz, a, b).Ok?
      ensures o.Abort? ==> o.error == Unsupported
      ensures o.Done? ==> code == old(code) + DoublePopCode(old(pushed), sz, a, b).value && pushed == old(pushed)
      ensures usedGprs == old(usedGprs) && usedSimd == old(usedSimd) && trapTable == old(trapTable) && addressMap == old(addressMap) && srcLoc == old(srcLoc)
    {
      if !pushed && sz == S64 && a.GPR? && b.GPR? {
        Emit([Ldpai(S64, a, b, XzrSp, 16)]);
        return Done;
      }
      o := EmitPop(sz, b);
      if o.Abort? {
        return;
      }
      o := EmitPop(sz, a);
    }

    /** One iteration of `push_used_gpr`'s loop. */
    method PushUsedStep(ghost c0: seq<Instr>, ghost d: int, ghost dep: int, regs: seq<Location>, i: nat)
      modifies this
      requires i < |regs| && regs[i].GPR? && dep == d + i
      requires code == c0 + PushAllCode(d, regs[..i]) && pushed == Odd(dep)
      ensures code == c0 + PushAllCode(d, regs[..i + 1]) && pushed == Odd(dep + 1)
      ensures usedGprs == old(usedGprs) && usedSimd == old(usedSimd) && trapTable == old(trapTable) && addressMap == old(addressMap) && srcLoc == old(srcLoc)
    {
      var o := EmitPush(S64, regs[i]);
      OddFlip(dep);
      PushAllStep(c0, d, regs, i);
    }

    /** One iteration of `pop_used_gpr`'s loop. */
    method PopUsedStep(ghost c0: seq<Instr>, ghost d: int, ghost dep: int, rev: seq<Location>, i: nat)
      modifies this
      requires i < |rev| && rev[i].GPR? && dep == d - i
      requires code == c0 + PopAllCode(d, rev[..i]) && pushed == Odd(dep)
      ensures code == c0 + PopAllCode(d, rev[..i + 1]) && pushed == Odd(dep - 1)
      ensures usedGprs == old(usedGprs) && usedSimd == old(usedSimd) && trapTable == old(trapTable) && addressMap == old(addressMap) && srcLoc == old(srcLoc)
    {
      var o := EmitPop(S64, rev[i]);
      OddFlipDown(dep);
      PopAllStep(c0, d, rev, i);
    }

    /** `push_used_gpr`: push every register in use. */
    method PushUsedGpr()
      modifies this
      ensures code == old(code) + PushAllCode(Depth(old(pushed)), UsedGprList(usedGprs))
      ensures pushed == Odd(Depth(old(pushed)) + |UsedGprList(usedGprs)|)
      ensures usedGprs == old(usedGprs) && usedSimd == old(usedSimd) && trapTable == old(trapTable) && addressMap == old(addressMap) && srcLoc == old(srcLoc)
    {
      var regs := UsedGprList(usedGprs);
      PushGprs(regs);
    }

    /** `push_used_gpr`'s loop: one `emit_push` per register, in order. */
    method PushGprs(regs: seq<Location>)
      requires forall i :: 0 <= i < |regs| ==> regs[i].GPR?
      modifies this
      ensures code == old(code) + PushAllCode(Depth(old(pushed)), regs)
      ensures pushed == Odd(Depth(old(pushed)) + |regs|)
      ensures usedGprs == old(usedGprs) && usedSimd == old(usedSimd) && trapTable == old(trapTable) && addressMap == old(addressMap) && srcLoc == old(srcLoc)
    {
      ghost var d := Depth(pushed);
      ghost var dep := d;
      for i := 0 to |regs|
        invariant dep == d + i
        invariant code == old(code) + PushAllCode(d, regs[..i])
        invariant pushed == Odd(dep)
        invariant usedGprs == old(usedGprs) && usedSimd == old(usedSimd) && trapTable == old(trapTable) && addressMap == old(addressMap) && srcLoc == old(srcLoc)
      {
        PushUsedStep(old(code), d, dep, regs, i);
        dep := dep + 1;
      }
      assert regs[..|regs|] == regs;
    }

    /** `pop_used_gpr`: pop every register in use, in the reverse order. */
    method PopUsedGpr()
      modifies this
      ensures code == old(code) + PopAllCode(Depth(old(pushed)), Reverse(UsedGprList(usedGprs)))
      ensures pushed == Odd(Depth(old(pushed)) - |UsedGprList(usedGprs)|)
      ensures usedGprs == old(usedGprs) && usedSimd == old(usedSimd) && trapTable == old(trapTable) && addressMap == old(addressMap) && srcLoc == old(srcLoc)
    {
      var regs := UsedGprList(usedGprs);
      var rev := Reverse(regs);
      ReverseGprs(regs, rev);
      ghost var depth := Depth(pushed) - |rev|;
      PopGprs(rev);
      assert depth == Depth(old(pushed)) - |UsedGprList(usedGprs)|;
    }

    /** `pop_used_gpr`'s loop: one `emit_pop` per register, in the order given. */
    method PopGprs(rev: seq<Location>)
      requires forall i :: 0 <= i < |rev| ==> rev[i].GPR?
      modifies this
      ensures code == old(code) + PopAllCode(Depth(old(pushed)), rev)
      ensures pushed == Odd(Depth(old(pushed)) - |rev|)
      ensures usedGprs == old(usedGprs) && usedSimd == old(usedSimd) && trapTable == old(trapTable) && addressMap == old(addressMap) && srcLoc == old(srcLoc)
    {
      ghost var d := Depth(pushed);
      ghost var dep := d;
      for i := 0 to |rev|
        invariant dep == d - i
        invariant code == old(code) + PopAllCode(d, rev[..i])
        invariant pushed == Odd(dep)
        invariant usedGprs == old(usedGprs) && usedSimd == old(usedSimd) && trapTable == old(trapTable) && addressMap == old(addressMap) && srcLoc == old(srcLoc)
      {
        PopUsedStep(old(code), d, dep, rev, i);
        dep := dep - 1;
      }
      assert rev[..|rev|] == rev;
    }

    /** `push_used_simd`: make room for every NEON register in use, then
        store register i at SP + 8 i. */
    method PushUsedSimd() returns (o: Outcome)
      modifies this
      ensures var regs := UsedSimdList(usedSimd);
              var adj := AdjustStackCode(8 * |regs|, FirstFree(TempGprs, usedGprs));
              (o.Done? <==> adj.Ok?) && (o.Abort? ==> o.error == adj.error) &&
              (o.Done? ==> code == old(code) + adj.value + SimdStoreCode(regs))
      ensures usedGprs == old(usedGprs) && usedSimd == old(usedSimd) && trapTable == old(trapTable) && addressMap == old(addressMap) && srcLoc == old(srcLoc) && pushed == old(pushed)
    {
      var regs := UsedSimdList(usedSimd);
      o := AdjustStack(8 * |regs|);
      if o.Abort? {
        return;
      }
      ghost var c0 := code;
      for i := 0 to |regs|
        invariant code == c0 + SimdStoreCode(regs)[..i]
        invariant usedGprs == old(usedGprs) && usedSimd == old(usedSimd) && trapTable == old(trapTable) && addressMap == old(addressMap) && srcLoc == old(srcLoc) && pushed == old(pushed)
      {
        Emit([Str(S64, SIMD(regs[i]), Memory(XzrSp, 8 * i))]);
        TakeOneMore(c0, SimdStoreCode(regs), i);
      }
      assert SimdStoreCode(regs)[..|regs|] == SimdStoreCode(regs);
    }

    /** `pop_used_simd`: load register i from SP + 8 i, then release the
        room. */
    method PopUsedSimd() returns (o: Outcome)
      modifies this
      ensures var regs := UsedSimdList(usedSimd);
              var rst := RestoreStackCode(8 * |regs|, FirstFree(TempGprs, usedGprs));
              (o.Done? <==> rst.Ok?) && (o.Abort? ==> o.error == rst.error) &&
              (o.Done? ==> code == old(code) + SimdLoadCode(regs) + rst.value)
      ensures usedGprs == old(usedGprs) && usedSimd == old(usedSimd) && trapTable == old(trapTable) && addressMap == old(addressMap) && srcLoc == old(srcLoc) && pushed == old(pushed)
    {
      var regs := UsedSimdList(usedSimd);
      for i := 0 to |regs|
        invariant code == old(code) + SimdLoadCode(regs)[..i]
        invariant usedGprs == old(usedGprs) && usedSimd == old(usedSimd) && trapTable == old(trapTable) && addressMap == old(addressMap) && srcLoc == old(srcLoc) && pushed == old(pushed)
      {
        Emit([Ldr(S64, SIMD(regs[i]), Memory(XzrSp, 8 * i))]);
        TakeOneMore(old(code), SimdLoadCode(regs), i);
      }
      assert SimdLoadCode(regs)[..|regs|] == SimdLoadCode(regs);
      o := RestoreStack(8 * |regs|);
    }

    // -------------------------------------------------------------------
    // Moves and stack adjustment

    /** `move_location`, with the temporary it would pick; the register set
        is never changed. */
    method MoveLocation(sz: Size, source: Location, dest: Location) returns (o: Outcome)
      modifies this
      ensures var r := MoveLocationCode(sz, source, dest, FirstFree(TempGprs, usedGprs));
              (o.Done? <==> r.Ok?) && (o.Abort? ==> o.error == r.error) &&
              (o.Done? ==> code == old(code) + r.value)
      ensures usedGprs == old(usedGprs) && usedSimd == old(usedSimd) && trapTable == old(trapTable) && addressMap == old(addressMap) && srcLoc == old(srcLoc) && pushed == old(pushed)
    {
      var tmp := PickTempGpr();
      var r := MoveLocationCode(sz, source, dest, tmp);
      if r.Fail? {
        return Abort(r.error);
      }
      Emit(r.value);
      return Done;
    }

    /** `adjust_stack`: SP := SP - delta. */
    method AdjustStack(delta: U32Word) returns (o: Outcome)
      modifies this
      ensures var r := AdjustStackCode(delta, FirstFree(TempGprs, usedGprs));
              (o.Done? <==> r.Ok?) && (o.Abort? ==> o.error == r.error) &&
              (o.Done? ==> code == old(code) + r.value)
      ensures usedGprs == old(usedGprs) && usedSimd == old(usedSimd) && trapTable == old(trapTable) && addressMap == old(addressMap) && srcLoc == old(srcLoc) && pushed == old(pushed)
    {
      var tmp := PickTempGpr();
      var r := AdjustStackCode(delta, tmp);
      if r.Fail? {
        return Abort(r.error);
      }
      Emit(r.value);
      return Done;
    }

    /** `restore_stack` and `pop_stack_locals`, which emit the same code:
        SP := SP + delta. */
    method RestoreStack(delta: U32Word) returns (o: Outcome)
      modifies this
      ensures var r := RestoreStackCode(delta, FirstFree(TempGprs, usedGprs));
              (o.Done? <==> r.Ok?) && (o.Abort? ==> o.error == r.error) &&
              (o.Done? ==> code == old(code) + r.value)
      ensures usedGprs == old(usedGprs) && usedSimd == old(usedSimd) && trapTable == old(trapTable) && addressMap == old(addressMap) && srcLoc == old(srcLoc) && pushed == old(pushed)
    {
      var tmp := PickTempGpr();
      var r := RestoreStackCode(delta, tmp);
      if r.Fail? {
        return Abort(r.error);
      }
      Emit(r.value);
      return Done;
    }

    /** `restore_saved_area`: SP := X27 - offset, through an acquired and
        released temporary when the offset does not fit in 8 bits. */
    method RestoreSavedArea(offset: int) returns (o: Outcome)
      modifies this
      ensures var r := RestoreSavedAreaCode(offset, FirstFree(TempGprs, old(usedGprs)));
              (o.Done? <==> r.Ok?) && (o.Abort? ==> o.error == r.error) &&
              (o.Done? ==> code == old(code) + r.value && usedGprs == old(usedGprs))
      ensures usedSimd == old(usedSimd) && trapTable == old(trapTable) && addressMap == old(addressMap) && srcLoc == old(srcLoc) && pushed == old(pushed)
    {
      if offset < 256 {
        Emit([Sub(S64, GPR(FrameReg), Imm8(AsU8(offset)), GPR(XzrSp))]);
        return Done;
      }
      var tmp := AcquireTempGpr();
      if tmp.None? {
        return Abort(NoTempRegister);
      }
      Emit([MovImm(GPR(tmp.value), offset), Sub(S64, GPR(FrameReg), GPR(tmp.value), GPR(XzrSp))]);
      ReleaseGpr(tmp.value);
      return Done;
    }

    /** `push_location_for_native`: a 64-bit immediate goes through X4,
        which must be free and is free again afterwards. */
    method PushLocationForNative(loc: Location) returns (o: Outcome)
      requires loc.Imm64? ==> NativeScratch !in usedGprs
      modifies this
      ensures var r := PushLocationForNativeCode(old(pushed), loc);
              (o.Done? <==> r.Ok?) && (o.Abort? ==> o.error == r.error) &&
              (o.Done? ==> code == old(code) + r.value && pushed == !old(pushed))
      ensures usedGprs == old(usedGprs) && usedSimd == old(usedSimd) && trapTable == old(trapTable) && addressMap == old(addressMap) && srcLoc == old(srcLoc)
    {
      if loc.Imm64? {
        var x4 := ReserveUnusedTempGpr(NativeScratch);
        var m := MoveLocation(S64, loc, GPR(x4));
        var p := EmitPush(S64, GPR(x4));
        ReleaseGpr(x4);
        return Done;
      }
      o := EmitPush(S64, loc);
    }

    /** `emit_function_prolog`: save X27 and X30, then X27 := SP. */
    method EmitFunctionProlog()
      modifies this
      ensures code == old(code) + PrologCode(old(pushed)) && pushed == old(pushed)
      ensures usedGprs == old(usedGprs) && usedSimd == old(usedSimd) && trapTable == old(trapTable) && addressMap == old(addressMap) && srcLoc == old(srcLoc)
    {
      var o := EmitDoublePush(S64, GPR(FrameReg), GPR(LinkReg));
      o := MoveLocation(S64, GPR(XzrSp), GPR(FrameReg));
    }

    /** `emit_function_epilog`: SP := X27, then restore X27 and X30. */
    method EmitFunctionEpilog()
      modifies this
      ensures code == old(code) + EpilogCode(old(pushed)) && pushed == old(pushed)
      ensures usedGprs == old(usedGprs) && usedSimd == old(usedSimd) && trapTable == old(trapTable) && addressMap == old(addressMap) && srcLoc == old(srcLoc)
    {
      var o := MoveLocation(S64, GPR(FrameReg), GPR(XzrSp));
      o := EmitDoublePop(S64, GPR(FrameReg), GPR(LinkReg));
    }

    // -------------------------------------------------------------------
    // Relaxed binary operations

    /** `emit_relaxed_binop` (with the memory/memory result stored back):
        it emits `RelaxedBinopCode` and hands back every temporary it took. */
    method EmitRelaxedBinop(op: BinOp, sz: Size, src: Location, dst: Location) returns (o: Outcome)
      modifies this
      ensures var r := RelaxedBinopCode(op, sz, src, dst, old(usedGprs));
              (o.Done? <==> r.Ok?) && (o.Abort? ==> o.error == r.error) &&
              (o.Done? ==> code == old(code) + r.value && usedGprs == old(usedGprs))
      ensures usedSimd == old(usedSimd) && trapTable == old(trapTable) && addressMap == old(addressMap) && srcLoc == old(srcLoc) && pushed == old(pushed)
    {
      if src.GPR? && dst.GPR? {
        Emit([OpInstr(op, sz, src, dst)]);
        return Done;
      } else if src.Memory? && dst.Memory? {
        o := EmitRelaxedMemMem(op, sz, src, dst);
      } else if ((src.Imm64? || src.Imm32?) && (dst.Memory? || dst.GPR?)) || dst.SIMD? {
        o := EmitRelaxedOneTemp(op, sz, src, dst);
      } else {
        return Abort(Unsupported);
      }
    }

    /** The memory/memory arm: both operands go through temporaries and the
        result is stored back into `dst`. */
    method EmitRelaxedMemMem(op: BinOp, sz: Size, src: Location, dst: Location) returns (o: Outcome)
      requires RelaxedTemps(src, dst) == Some(2)
      modifies this
      ensures var r := RelaxedBinopCode(op, sz, src, dst, old(usedGprs));
              (o.Done? <==> r.Ok?) && (o.Abort? ==> o.error == r.error) &&
              (o.Done? ==> code == old(code) + r.value && usedGprs == old(usedGprs))
      ensures usedSimd == old(usedSimd) && trapTable == old(trapTable) && addressMap == old(addressMap) && srcLoc == old(srcLoc) && pushed == old(pushed)
    {
      ghost var used0 := usedGprs;
      RelaxedTwoTempsSteps(op, sz, src, dst, used0);
      var ts := AcquireTempGpr();
      if ts.None? {
        return Abort(NoTempRegister);
      }
      var td := AcquireTempGpr();
      if td.None? {
        return Abort(NoTempRegister);
      }
      AcquiredTwo(used0, ts.value, td.value);
      o := EmitLoadOpStore(op, sz, src, dst, ts.value, td.value);
      if o.Abort? {
        return;
      }
      ReleaseGpr(td.value);
      ReleaseGpr(ts.value);
    }

    /** Load `src` into `ts` and `dst` into `td`, apply `op`, and store `td`
        back into `dst`; the temporaries stay acquired. */
    method EmitLoadOpStore(op: BinOp, sz: Size, src: Location, dst: Location, ts: Gpr, td: Gpr) returns (o: Outcome)
      modifies this
      ensures var r := TwoTempsCode(true, op, sz, src, dst, ts, td, FirstFree(TempGprs, usedGprs));
              (o.Done? <==> r.Ok?) && (o.Abort? ==> o.error == r.error) && (o.Done? ==> code == old(code) + r.value)
      ensures usedGprs == old(usedGprs) && usedSimd == old(usedSimd) && trapTable == old(trapTable) && addressMap == old(addressMap) && srcLoc == old(srcLoc) && pushed == old(pushed)
    {
      ghost var pick := FirstFree(TempGprs, usedGprs);
      o := MoveLocation(sz, src, GPR(ts));
      if o.Abort? {
        return;
      }
      ghost var c1 := code;
      o := MoveLocation(sz, dst, GPR(td));
      if o.Abort? {
        return;
      }
      ghost var c2 := code;
      Emit([OpInstr(op, sz, GPR(ts), GPR(td))]);
      ghost var c3 := code;
      o := MoveLocation(sz, GPR(td), dst);
      if o.Abort? {
        return;
      }
      AppendFour(old(code), c1[|old(code)|..], c2[|c1|..], [OpInstr(op, sz, GPR(ts), GPR(td))], code[|c3|..]);
    }

    /** The arms that take one temporary: an immediate into memory or a
        register, or anything into a SIMD register. */
    method EmitRelaxedOneTemp(op: BinOp, sz: Size, src: Location, dst: Location) returns (o: Outcome)
      requires RelaxedTemps(src, dst) == Some(1)
      modifies this
      ensures var r := RelaxedBinopCode(op, sz, src, dst, old(usedGprs));
              (o.Done? <==> r.Ok?) && (o.Abort? ==> o.error == r.error) &&
              (o.Done? ==> code == old(code) + r.value && usedGprs == old(usedGprs))
      ensures usedSimd == old(usedSimd) && trapTable == old(trapTable) && addressMap == old(addressMap) && srcLoc == old(srcLoc) && pushed == old(pushed)
    {
      ghost var used0 := usedGprs;
      RelaxedOneTempSteps(op, sz, src, dst, used0);
      var t := AcquireTempGpr();
      if t.None? {
        return Abort(NoTempRegister);
      }
      assert usedGprs == used0 + {t.value};
      o := EmitMoveThenOp(op, sz, src, dst, t.value);
      if o.Abort? {
        return;
      }
      ReleaseGpr(t.value);
      ReleasedOne(used0, t.value);
    }

    /** Move `src` into the temporary `t` and apply `op` from it to `dst`. */
    method EmitMoveThenOp(op: BinOp, sz: Size, src: Location, dst: Location, t: Gpr) returns (o: Outcome)
      modifies this
      ensures var r := OneTempCode(op, sz, src, dst, t, FirstFree(TempGprs, usedGprs));
              (o.Done? <==> r.Ok?) && (o.Abort? ==> o.error == r.error) && (o.Done? ==> code == old(code) + r.value)
      ensures usedGprs == old(usedGprs) && usedSimd == old(usedSimd) && trapTable == old(trapTable) && addressMap == old(addressMap) && srcLoc == old(srcLoc) && pushed == old(pushed)
    {
      ghost var pick := FirstFree(TempGprs, usedGprs);
      o := MoveLocation(sz, src, GPR(t));
      if o.Abort? {
        return;
      }
      ghost var mv := MoveLocationCode(sz, src, GPR(t), pick).value;
      Emit([OpInstr(op, sz, GPR(t), dst)]);
      AppendTwo(old(code), mv, [OpInstr(op, sz, GPR(t), dst)]);
    }

    /** `emit_binop_i32` (`sz` = S32) and `emit_binop_i64` (`sz` = S64):
        with `loc_a` other than `ret` it takes a temporary and stops at the
        unimplemented `emit_relaxed_mov`. */
    method EmitBinop(op: BinOp, sz: Size, locA: Location, locB: Location, ret: Location) returns (o: Outcome)
      modifies this
      ensures var r := BinopCode(op, sz, locA, locB, ret, old(usedGprs));
              (o.Done? <==> r.Ok?) && (o.Abort? ==> o.error == r.error) &&
              (o.Done? ==> code == old(code) + r.value && usedGprs == old(usedGprs))
      ensures usedSimd == old(usedSimd) && trapTable == old(trapTable) && addressMap == old(addressMap) && srcLoc == old(srcLoc) && pushed == old(pushed)
    {
      if locA != ret {
        var tmp := AcquireTempGpr();
        if tmp.None? {
          return Abort(NoTempRegister);
        }
        return Abort(Unimplemented);
      }
      o := EmitRelaxedBinop(op, sz, locB, ret);
    }

    // -------------------------------------------------------------------
    // Trap table and instruction address map

    /** `set_srcloc`. */
    method SetSrcloc(offset: U32Word)
      modifies this
      ensures srcLoc == offset
      ensures code == old(code) && usedGprs == old(usedGprs) && usedSimd == old(usedSimd) && pushed == old(pushed)
      ensures trapTable == old(trapTable) && addressMap == old(addressMap)
    {
      srcLoc := offset;
    }

    /** `mark_instruction_address_end`: record the code emitted since
        `begin` for the current source location. */
    method MarkInstructionAddressEnd(begin: nat)
      requires begin <= Offset()
      modifies this
      ensures code == old(code) && usedGprs == old(usedGprs) && usedSimd == old(usedSimd) && pushed == old(pushed)
      ensures trapTable == old(trapTable) && srcLoc == old(srcLoc)
      ensures addressMap == old(addressMap) + [AddressMapEntry(srcLoc, begin, Offset() - begin)]
    {
      addressMap := addressMap + [AddressMapEntry(srcLoc, begin, Offset() - begin)];
    }

    /** `mark_address_range_with_trap_code`: every offset in [begin, end)
        maps to `tc`, and one address-map entry from `begin` to the current
        offset is appended. */
    method MarkAddressRangeWithTrapCode(tc: TrapCode, begin: nat, end: nat)
      requires begin <= Offset()
      modifies this
      ensures code == old(code) && usedGprs == old(usedGprs) && usedSimd == old(usedSimd) && pushed == old(pushed) && srcLoc == old(srcLoc)
      ensures trapTable == MarkRange(old(trapTable), tc, begin, end)
      ensures addressMap == old(addressMap) + [AddressMapEntry(srcLoc, begin, Offset() - begin)]
    {
      var table := trapTable;
      ghost var t0 := table;
      var i := begin;
      while i < end
        invariant begin <= i && (begin <= end ==> i <= end) && (end < begin ==> i == begin)
        invariant table == MarkRange(t0, tc, begin, i)
        modifies {}
        decreases end - i
      {
        MarkRangeStep(t0, tc, begin, i);
        table := table[i := tc];
        i := i + 1;
      }
      trapTable := table;
      MarkInstructionAddressEnd(begin);
    }

    /** `mark_address_with_trap_code`: the current offset maps to `tc`, with
        an address-map entry of length 0. */
    method MarkAddressWithTrapCode(tc: TrapCode)
      modifies this
      ensures trapTable == old(trapTable)[Offset() := tc]
      ensures addressMap == old(addressMap) + [AddressMapEntry(srcLoc, Offset(), 0)]
      ensures code == old(code) && usedGprs == old(usedGprs) && usedSimd == old(usedSimd) && pushed == old(pushed) && srcLoc == old(srcLoc)
    {
      var offset := Offset();
      trapTable := trapTable[offset := tc];
      MarkInstructionAddressEnd(offset);
    }

    /** `mark_instruction_with_trap_code`: the current offset maps to `tc`
        and is returned; the address map is untouched. */
    method MarkInstructionWithTrapCode(tc: TrapCode) returns (offset: nat)
      modifies this
      ensures offset == Offset() && trapTable == old(trapTable)[offset := tc]
      ensures code == old(code) && usedGprs == old(usedGprs) && usedSimd == old(usedSimd) && pushed == old(pushed)
      ensures addressMap == old(addressMap) && srcLoc == old(srcLoc)
    {
      offset := Offset();
      trapTable := trapTable[offset := tc];
    }

    /** `insert_stackoverflow`: offset 0 maps to `StackOverflow`, with an
        address-map entry covering all the code so far. */
    method InsertStackoverflow()
      modifies this
      ensures trapTable == old(trapTable)[0 := StackOverflow]
      ensures addressMap == old(addressMap) + [AddressMapEntry(srcLoc, 0, Offset())]
      ensures code == old(code) && usedGprs == old(usedGprs) && usedSimd == old(usedSimd) && pushed == old(pushed) && srcLoc == old(srcLoc)
    {
      trapTable := trapTable[0 := StackOverflow];
      MarkInstructionAddressEnd(0);
    }

    /** `collect_trap_information`: one record per trap-table entry, in
        increasing offset order (the order of the ordered map). */
    method CollectTrapInformation() returns (r: seq<TrapInformation>)
      ensures r == TrapRecords(trapTable)
    {
      var table := trapTable;
      var rest := table.Keys;
      ghost var done: seq<nat> := [];
      r := [];
      while rest != {}
        invariant rest <= table.Keys
        invariant forall i :: 0 <= i < |done| ==> done[i] in table
        invariant done + Ascending(rest) == Ascending(table.Keys)
        invariant r == Records(table, done)
        decreases |rest|
      {
        ghost var least := Least(rest);
        var m :| m in rest && forall k :: k in rest ==> m <= k;
        CollectStep(table, done, rest, m);
        CollectFrame(table, done, rest, m);
        r := r + [TrapInformation(m % U32, table[m])];
        done := done + [m];
        rest := rest - {m};
      }
      assert done == Ascending(table.Keys);
    }

    /** `move_with_reloc`: four MOVKs into X26, each preceded by the
        relocation that patches it. */
    method MoveWithReloc(target: nat, relocs: seq<Relocation>) returns (relocs': seq<Relocation>)
      modifies this
      ensures code == old(code) + RelocMovks()
      ensures relocs' == relocs + RelocsAt(target, old(Offset()))
      ensures usedGprs == old(usedGprs) && usedSimd == old(usedSimd) && trapTable == old(trapTable) && addressMap == old(addressMap) && srcLoc == old(srcLoc) && pushed == old(pushed)
    {
      ghost var at := Offset();
      relocs' := relocs;
      var k := 0;
      while k < 4
        invariant 0 <= k <= 4
        invariant code == old(code) + RelocMovks()[..k]
        invariant relocs' == relocs + RelocsAt(target, at)[..k]
        invariant usedGprs == old(usedGprs) && usedSimd == old(usedSimd) && trapTable == old(trapTable) && addressMap == old(addressMap) && srcLoc == old(srcLoc) && pushed == old(pushed)
      {
        relocs' := relocs' + [Relocation(MovwKind(k), target, Offset() % U32, 0)];
        Emit([Movk(GPR(CallReg), 0, 16 * k)]);
        TakeOneMore(old(code), RelocMovks(), k);
        TakeOneMore(relocs, RelocsAt(target, at), k);
        k := k + 1;
      }
      assert RelocMovks()[..4] == RelocMovks();
    }

    // -------------------------------------------------------------------
    // Bounds-checked memory access

    /** `memory_op` (with the imported-memory load and the bound computation
        as evidently intended): the guard, then the callback's code on the
        address register, which alone is marked `HeapAccessOutOfBounds` and
        recorded in the address map; all three temporaries are released. */
    method MemoryOp(addr: Location, memarg: MemArg, checkAlignment: bool, vs: nat, needCheck: bool,
                    imported: bool, vmOffset: int, oob: Label, cb: Gpr -> seq<Instr>) returns (o: Outcome)
      modifies this
      ensures var r := MemoryOpCode(addr, memarg, checkAlignment, vs, needCheck, imported, vmOffset, oob, cb, old(usedGprs));
              (o.Done? <==> r.Ok?) && (o.Abort? ==> o.error == r.error) &&
              (o.Done? ==>
                 var start := CodeSize(old(code) + r.value.guard);
                 code == old(code) + r.value.guard + r.value.access && usedGprs == old(usedGprs) &&
                 trapTable == MarkRange(old(trapTable), HeapAccessOutOfBounds, start, Offset()) &&
                 addressMap == old(addressMap) + [AddressMapEntry(srcLoc, start, CodeSize(r.value.access))])
      ensures usedSimd == old(usedSimd) && srcLoc == old(srcLoc) && pushed == old(pushed)
    {
      var ta;
      o, ta := EmitGuard(addr, memarg, checkAlignment, vs, needCheck, imported, vmOffset, oob, cb);
      if o.Abort? {
        return;
      }
      EmitTrappingAccess(cb(ta.value));
      ReleaseGpr(ta.value);
      ReleasedOne(old(usedGprs), ta.value);
    }

    /** Everything `memory_op` emits before the callback: `tmp_addr` is
        acquired (and stays so), `tmp_base` and `tmp_bound` are acquired and
        handed back. */
    method EmitGuard(addr: Location, memarg: MemArg, checkAlignment: bool, vs: nat, needCheck: bool,
                     imported: bool, vmOffset: int, oob: Label, cb: Gpr -> seq<Instr>) returns (o: Outcome, ta: Option<Gpr>)
      modifies this
      ensures var r := MemoryOpCode(addr, memarg, checkAlignment, vs, needCheck, imported, vmOffset, oob, cb, old(usedGprs));
              (o.Done? <==> r.Ok?) && (o.Abort? ==> o.error == r.error) &&
              (o.Done? ==>
                 |r.value.taken| == 3 && ta == Some(r.value.taken[0]) && ta.value !in old(usedGprs) &&
                 r.value.access == cb(ta.value) &&
                 code == old(code) + r.value.guard && usedGprs == old(usedGprs) + {ta.value})
      ensures usedSimd == old(usedSimd) && trapTable == old(trapTable) && addressMap == old(addressMap) && srcLoc == old(srcLoc) && pushed == old(pushed)
    {
      MemoryOpCodeSteps(addr, memarg, checkAlignment, vs, needCheck, imported, vmOffset, oob, cb, usedGprs);
      ta := AcquireTempGpr();
      if ta.None? {
        return Abort(NoTempRegister), ta;
      }
      ghost var ind := IndirectCode(false, imported, vmOffset, ta.value, usedGprs);
      o := EmitIndirection(imported, vmOffset, ta.value);
      if o.Abort? {
        return;
      }
      ghost var c1 := code;
      o := EmitGuardBody(addr, memarg, checkAlignment, vs, needCheck, imported, vmOffset, oob, ta.value);
      if o.Abort? {
        return;
      }
      AppendTwo(old(code), ind.value, code[|c1|..]);
    }

    /** The indirection of an imported memory, `tmp_addr := [vmctx +
        vm_offset]`; nothing for a local memory. */
    method EmitIndirection(imported: bool, vmOffset: int, ta: Gpr) returns (o: Outcome)
      modifies this
      ensures var r := IndirectCode(false, imported, vmOffset, ta, usedGprs);
              (o.Done? <==> r.Ok?) && (o.Abort? ==> o.error == r.error) && (o.Done? ==> code == old(code) + r.value)
      ensures usedGprs == old(usedGprs) && usedSimd == old(usedSimd) && trapTable == old(trapTable) && addressMap == old(addressMap) && srcLoc == old(srcLoc) && pushed == old(pushed)
    {
      if imported {
        o := MoveLocation(S64, Memory(VmctxReg, vmOffset), GPR(ta));
      } else {
        o := Done;
      }
    }

    /** The rest of the guard: take `tmp_base` and `tmp_bound`, load the
        base and the bound, compute and test the address, and hand the two
        temporaries back. */
    method EmitGuardBody(addr: Location, memarg: MemArg, checkAlignment: bool, vs: nat, needCheck: bool,
                         imported: bool, vmOffset: int, oob: Label, ta: Gpr) returns (o: Outcome)
      modifies this
      ensures var tb := FirstFree(TempGprs, old(usedGprs));
              (o.Done? <==> tb.Some? && FirstFree(TempGprs, old(usedGprs) + {tb.value}).Some?) &&
              (o.Abort? ==> o.error == NoTempRegister) &&
              (o.Done? ==>
                 var tbd := FirstFree(TempGprs, old(usedGprs) + {tb.value}).value;
                 code == old(code) + (BaseBoundCode(false, needCheck, vs, TableReg(imported, ta), TableOff(imported, vmOffset), ta, tb.value, tbd) +
                                      TailCode(addr, memarg, checkAlignment, needCheck, oob, ta, tb.value, tbd)) &&
                 usedGprs == old(usedGprs))
      ensures usedSimd == old(usedSimd) && trapTable == old(trapTable) && addressMap == old(addressMap) && srcLoc == old(srcLoc) && pushed == old(pushed)
    {
      ghost var used0 := usedGprs;
      var tb := AcquireTempGpr();
      if tb.None? {
        return Abort(NoTempRegister);
      }
      var tbd := AcquireTempGpr();
      if tbd.None? {
        return Abort(NoTempRegister);
      }
      AcquiredTwo(used0, tb.value, tbd.value);
      var bb := BaseBoundCode(false, needCheck, vs, TableReg(imported, ta), TableOff(imported, vmOffset), ta, tb.value, tbd.value);
      var ad := AddressCode(addr, memarg.offset, oob, ta, tb.value);
      var ck := CheckCode(needCheck, oob, ta, tbd.value);
      var al := AlignCode(checkAlignment, memarg.align, oob, ta);
      Emit(bb);
      Emit(ad);
      Emit(ck);
      ReleaseGpr(tbd.value);
      ReleaseGpr(tb.value);
      Emit(al);
      AppendNested(old(code), bb, ad, ck, al);
      o := Done;
    }

    /** The access itself: the callback's code, every byte of which becomes
        a heap-access trap site, under one address-map entry. */
    method EmitTrappingAccess(access: seq<Instr>)
      modifies this
      ensures code == old(code) + access
      ensures trapTable == MarkRange(old(trapTable), HeapAccessOutOfBounds, CodeSize(old(code)), Offset())
      ensures addressMap == old(addressMap) + [AddressMapEntry(srcLoc, CodeSize(old(code)), CodeSize(access))]
      ensures usedGprs == old(usedGprs) && usedSimd == old(usedSimd) && srcLoc == old(srcLoc) && pushed == old(pushed)
    {
      var begin := Offset();
      Emit(access);
      var end := Offset();
      MarkAddressRangeWithTrapCode(HeapAccessOutOfBounds, begin, end);
    }

    /** `i32_load`, `i32_load_8u`, `i32_load_8s`, `i32_load_16u` and
        `i32_load_16s`: `memory_op` without alignment test, whose callback
        emits the one load of the kind's width into `ret`. */
    method I32Load(k: I32Load, addr: Location, memarg: MemArg, ret: Location, needCheck: bool,
                   imported: bool, vmOffset: int, oob: Label) returns (o: Outcome)
      modifies this
      ensures var r := I32LoadCode(k, addr, memarg, ret, needCheck, imported, vmOffset, oob, old(usedGprs));
              (o.Done? <==> r.Ok?) && (o.Abort? ==> o.error == r.error) &&
              (o.Done? ==>
                 var start := CodeSize(old(code) + r.value.guard);
                 |r.value.taken| == 3 && code == old(code) + r.value.guard + [AccessInstr(k, ret, r.value.taken[0])] &&
                 usedGprs == old(usedGprs) && Offset() == start + InstrBytes &&
                 trapTable == MarkRange(old(trapTable), HeapAccessOutOfBounds, start, Offset()) &&
                 addressMap == old(addressMap) + [AddressMapEntry(srcLoc, start, InstrBytes)])
      ensures usedSimd == old(usedSimd) && srcLoc == old(srcLoc) && pushed == old(pushed)
    {
      I32LoadCodeSteps(k, addr, memarg, ret, needCheck, imported, vmOffset, oob, usedGprs);
      ghost var r := I32LoadCode(k, addr, memarg, ret, needCheck, imported, vmOffset, oob, usedGprs);
      o := MemoryOp(addr, memarg, false, ValueSize(k), needCheck, imported, vmOffset, oob, Callback(k, ret));
      if o.Done? {
        CodeSizeAppend(old(code) + r.value.guard, r.value.access);
      }
    }
  }

}
