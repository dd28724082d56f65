/** The metadata the AArch64 back end records next to the code: the trap
    table (native code offset to trap code), the instruction address map
    (wasm source offset to the native code range emitted for it) and the
    relocations of `move_with_reloc`. The functions here say what the
    corresponding `MachineARM64` methods are meant to produce. */
module Traps {
  import opened Locations
  import opened Isa

  /** The trap codes this back end records. */
  datatype TrapCode = StackOverflow | HeapAccessOutOfBounds

  /** One `InstructionAddressMap` entry: the wasm source location and the
      native code range `[codeOffset, codeOffset + codeLen)` emitted for it. */
  datatype AddressMapEntry = AddressMapEntry(srcloc: U32Word, codeOffset: nat, codeLen: nat)

  /** A `TrapInformation` as `collect_trap_information` builds it: the code
      offset cast to `u32`, and the trap code. */
  datatype TrapInformation = TrapInformation(codeOffset: U32Word, trapCode: TrapCode)

  // ---------------------------------------------------------------------
  // mark_address_range_with_trap_code

  /** The offsets `begin <= i < end`. */
  function Span(begin: nat, end: nat): (r: set<nat>)
    ensures forall i :: i in r <==> begin <= i < end
    decreases end
  {
    if end <= begin then {} else Span(begin, end - 1) + {end - 1}
  }

  /** The trap table after `insert(i, code)` for i = begin, begin + 1, ..,
      end - 1, in that order. */
  function MarkRange(table: map<nat, TrapCode>, code: TrapCode, begin: nat, end: nat): map<nat, TrapCode>
    decreases end
  {
    if end <= begin then table else MarkRange(table, code, begin, end - 1)[end - 1 := code]
  }

  /** Marking `[begin, end)` adds exactly those offsets, maps each of them to
      `code` and leaves every other entry as it was. */
  lemma {:induction false} MarkRangeSpec(table: map<nat, TrapCode>, code: TrapCode, begin: nat, end: nat)
    ensures MarkRange(table, code, begin, end).Keys == table.Keys + Span(begin, end)
    ensures forall i :: begin <= i < end ==> MarkRange(table, code, begin, end)[i] == code
    ensures forall i :: i in table && !(begin <= i < end) ==> MarkRange(table, code, begin, end)[i] == table[i]
    decreases end
  {
    if end > begin {
      MarkRangeSpec(table, code, begin, end - 1);
    }
  }

  /** Marking one more offset at the end of a range. */
  lemma MarkRangeStep(table: map<nat, TrapCode>, code: TrapCode, begin: nat, end: nat)
    requires begin <= end
    ensures MarkRange(table, code, begin, end)[end := code] == MarkRange(table, code, begin, end + 1)
  {
  }

  /** Marking two adjacent ranges with the same code is marking their union. */
  lemma MarkRangeSplit(table: map<nat, TrapCode>, code: TrapCode, a: nat, b: nat, c: nat)
    requires a <= b <= c
    ensures MarkRange(MarkRange(table, code, a, b), code, b, c) == MarkRange(table, code, a, c)
  {
    var t := MarkRange(table, code, a, b);
    var l := MarkRange(t, code, b, c);
    var r := MarkRange(table, code, a, c);
    MarkRangeSpec(table, code, a, b);
    MarkRangeSpec(t, code, b, c);
    MarkRangeSpec(table, code, a, c);
    assert l.Keys == r.Keys;
    forall i | i in l ensures l[i] == r[i] {
      if b <= i < c {
      } else if a <= i < b {
      }
    }
  }

  // ---------------------------------------------------------------------
  // collect_trap_information

  /** The least offset of a non-empty set. */
  ghost function Least(s: set<nat>): (m: nat)
    requires s != {}
    ensures m in s && forall k :: k in s ==> m <= k
    decreases |s|
  {
    var x :| x in s;
    var rest := s - {x};
    assert forall k :: k in s ==> k == x || k in rest;
    if rest == {} then x
    else
      var y := Least(rest);
      if x <= y then x else y
  }

  /** The offsets of a set in increasing order: the iteration order of the
      ordered map behind the trap table. */
  ghost function Ascending(s: set<nat>): (r: seq<nat>)
    ensures |r| == |s|
    decreases |s|
  {
    if s == {} then [] else [Least(s)] + Ascending(s - {Least(s)})
  }

  predicate StrictlyIncreasing(xs: seq<int>) {
    forall i, j :: 0 <= i < j < |xs| ==> xs[i] < xs[j]
  }

  lemma ConsIncreasing(m: int, rest: seq<int>)
    requires StrictlyIncreasing(rest) && forall j :: 0 <= j < |rest| ==> m < rest[j]
    ensures StrictlyIncreasing([m] + rest)
  {
    var xs := [m] + rest;
    forall i, j | 0 <= i < j < |xs| ensures xs[i] < xs[j] {
      assert xs[j] == rest[j - 1];
      if i > 0 { assert xs[i] == rest[i - 1]; }
    }
  }

  /** `Ascending` lists every element exactly once, in increasing order. */
  lemma {:induction false} AscendingSpec(s: set<nat>)
    ensures StrictlyIncreasing(Ascending(s))
    ensures forall k :: k in s <==> k in Ascending(s)
    decreases |s|
  {
    if s != {} {
      var m := Least(s);
      var rest := Ascending(s - {m});
      AscendingSpec(s - {m});
      AscendingCons(s, m, rest);
      assert Ascending(s) == [m] + rest;
    }
  }

  /** The inductive step of `AscendingSpec`. */
  lemma AscendingCons(s: set<nat>, m: nat, rest: seq<nat>)
    requires m in s && forall k :: k in s ==> m <= k
    requires StrictlyIncreasing(rest) && forall k :: k in s - {m} <==> k in rest
    ensures StrictlyIncreasing([m] + rest)
    ensures forall k :: k in s <==> k in [m] + rest
  {
    forall j | 0 <= j < |rest| ensures m < rest[j] {
      assert rest[j] in s - {m};
    }
    ConsIncreasing(m, rest);
    forall k | k in s ensures k in [m] + rest {
      if k != m { assert k in rest; }
    }
  }


  /** The records for the given offsets of the table. */
  function Records(table: map<nat, TrapCode>, offsets: seq<nat>): (r: seq<TrapInformation>)
    requires forall i :: 0 <= i < |offsets| ==> offsets[i] in table
    ensures |r| == |offsets|
    ensures forall i :: 0 <= i < |offsets| ==> r[i] == TrapInformation(offsets[i] % U32, table[offsets[i]])
    decreases |offsets|
  {
    if offsets == [] then []
    else [TrapInformation(offsets[0] % U32, table[offsets[0]])] + Records(table, offsets[1..])
  }

  /** What `collect_trap_information` returns: one record per entry of the
      table, in increasing offset order (the table is an ordered map). */
  ghost function TrapRecords(table: map<nat, TrapCode>): seq<TrapInformation>
  {
    AscendingSpec(table.Keys);
    Records(table, Ascending(table.Keys))
  }

  /** The bookkeeping of one step of walking the table. */
  lemma CollectFrame(table: map<nat, TrapCode>, done: seq<nat>, rest: set<nat>, m: nat)
    requires rest <= table.Keys && forall i :: 0 <= i < |done| ==> done[i] in table
    requires m in rest
    ensures rest - {m} <= table.Keys && |rest - {m}| < |rest|
    ensures forall i :: 0 <= i < |done + [m]| ==> (done + [m])[i] in table
  {
    assert |rest - {m}| == |rest| - 1;
  }

  /** One step of walking the table in order: the least remaining offset
      `m` comes next, and its record is appended. */
  lemma CollectStep(table: map<nat, TrapCode>, done: seq<nat>, rest: set<nat>, m: nat)
    requires rest <= table.Keys && forall i :: 0 <= i < |done| ==> done[i] in table
    requires done + Ascending(rest) == Ascending(table.Keys)
    requires m in rest && forall k :: k in rest ==> m <= k
    ensures (done + [m]) + Ascending(rest - {m}) == Ascending(table.Keys)
    ensures Records(table, done + [m]) == Records(table, done) + [TrapInformation(m % U32, table[m])]
  {
    var l := Least(rest);
    assert m == l by {
      assert m <= l && l <= m;
    }
    assert Ascending(rest) == [m] + Ascending(rest - {m});
    assert (done + [m]) + Ascending(rest - {m}) == done + Ascending(rest);
  }

  /** `collect_trap_information` yields one record per marked offset, in
      increasing offset order while the offsets fit in 32 bits. */
  lemma CollectedInOrder(table: map<nat, TrapCode>)
    ensures |TrapRecords(table)| == |table|
    ensures (forall k :: k in table ==> k < U32) ==>
              var r := TrapRecords(table);
              (forall i, j :: 0 <= i < j < |r| ==> r[i].codeOffset < r[j].codeOffset) &&
              (forall k: nat :: k in table ==> exists i :: 0 <= i < |r| && r[i].codeOffset == k && r[i].trapCode == table[k])
  {
    AscendingSpec(table.Keys);
    assert |table.Keys| == |table|;
    if forall k :: k in table ==> k < U32 {
      RecordsInOrder(table, Ascending(table.Keys));
    }
  }

  lemma RecordsInOrder(table: map<nat, TrapCode>, offs: seq<nat>)
    requires forall k :: k in table <==> k in offs
    requires StrictlyIncreasing(offs) && forall k :: k in table ==> k < U32
    ensures var r := Records(table, offs);
            (forall i, j :: 0 <= i < j < |r| ==> r[i].codeOffset < r[j].codeOffset) &&
            (forall k: nat :: k in table ==> exists i :: 0 <= i < |r| && r[i].codeOffset == k && r[i].trapCode == table[k])
  {
    RecordsExact(table, offs);
    RecordsIncreasing(table, offs);
    RecordsComplete(table, offs, Records(table, offs));
  }

  /** Offsets below 2^32 survive the cast to `u32`. */
  lemma RecordsExact(table: map<nat, TrapCode>, offs: seq<nat>)
    requires forall i :: 0 <= i < |offs| ==> offs[i] in table && offs[i] < U32
    ensures forall i :: 0 <= i < |offs| ==> Records(table, offs)[i] == TrapInformation(offs[i], table[offs[i]])
  {
    forall i | 0 <= i < |offs| ensures Records(table, offs)[i] == TrapInformation(offs[i], table[offs[i]]) {
      assert offs[i] % U32 == offs[i];
    }
  }

  lemma RecordsIncreasing(table: map<nat, TrapCode>, offs: seq<nat>)
    requires StrictlyIncreasing(offs) && forall i :: 0 <= i < |offs| ==> offs[i] in table
    requires forall i :: 0 <= i < |offs| ==> Records(table, offs)[i].codeOffset == offs[i]
    ensures var r := Records(table, offs);
            forall i, j :: 0 <= i < j < |r| ==> r[i].codeOffset < r[j].codeOffset
  {
  }

  lemma RecordsComplete(table: map<nat, TrapCode>, offs: seq<nat>, r: seq<TrapInformation>)
    requires forall k :: k in table <==> k in offs
    requires |r| == |offs|
    requires forall i :: 0 <= i < |offs| ==> offs[i] in table && offs[i] < U32
    requires forall i :: 0 <= i < |offs| ==> r[i] == TrapInformation(offs[i], table[offs[i]])
    ensures forall k: nat :: k in table ==> exists i :: 0 <= i < |r| && r[i].codeOffset == k && r[i].trapCode == table[k]
  {
    forall k: nat | k in table
      ensures exists i :: 0 <= i < |r| && r[i].codeOffset == k && r[i].trapCode == table[k]
    {
      var i :| 0 <= i < |offs| && offs[i] == k;
      assert r[i] == TrapInformation(offs[i], table[offs[i]]);
    }
  }

  // ---------------------------------------------------------------------
  // move_with_reloc

  datatype RelocationKind = Arm64Movw0 | Arm64Movw1 | Arm64Movw2 | Arm64Movw3

  /** A relocation against an opaque target (a function or a libcall). */
  datatype Relocation = Relocation(kind: RelocationKind, target: nat, offset: U32Word, addend: int)

  /** The relocation kind that patches bits `[16 k, 16 k + 16)`. */
  function MovwKind(k: nat): RelocationKind
    requires k < 4
  {
    if k == 0 then Arm64Movw0 else if k == 1 then Arm64Movw1 else if k == 2 then Arm64Movw2 else Arm64Movw3
  }

  /** The four `movk X26, #0, lsl #(16 k)` of `move_with_reloc`. */
  function RelocMovks(): (code: seq<Instr>)
    ensures |code| == 4
    ensures forall k :: 0 <= k < 4 ==> code[k] == Movk(GPR(CallReg), 0, 16 * k)
  {
    [Movk(GPR(CallReg), 0, 0), Movk(GPR(CallReg), 0, 16), Movk(GPR(CallReg), 0, 32), Movk(GPR(CallReg), 0, 48)]
  }

  /** The four relocations pushed when the first `movk` lands at byte
      offset `at`; `reloc_at as u32` truncates. */
  function RelocsAt(target: nat, at: nat): seq<Relocation> {
    [Relocation(Arm64Movw0, target, at % U32, 0), Relocation(Arm64Movw1, target, (at + 4) % U32, 0),
     Relocation(Arm64Movw2, target, (at + 8) % U32, 0), Relocation(Arm64Movw3, target, (at + 12) % U32, 0)]
  }

  /** Relocation k has kind `Arm64Movw<k>`, the common target and addend 0,
      and its offset is that of the `movk` it patches, which sets bits
      `[16 k, 16 k + 16)`; so the offsets increase while they fit in 32 bits. */
  lemma RelocsPointAtMovks(code: seq<Instr>, target: nat)
    requires CodeSize(code) + 3 * InstrBytes < U32
    ensures var rs := RelocsAt(target, CodeSize(code));
            var all := code + RelocMovks();
            |rs| == 4 &&
            forall k :: 0 <= k < 4 ==>
              rs[k].kind == MovwKind(k) && rs[k].target == target && rs[k].addend == 0 &&
              rs[k].offset == InstrBytes * (|code| + k) && all[|code| + k] == Movk(GPR(CallReg), 0, 16 * k)
  {
    var all := code + RelocMovks();
    assert forall k :: 0 <= k < 4 ==> all[|code| + k] == RelocMovks()[k];
  }

  /** The 16-bit field k of a 64-bit value. */
  function Field(a: nat, k: nat): (f: nat)
    ensures f < 65536
  {
    if k == 0 then a % 65536 else Field(a / 65536, k - 1)
  }

  /** The four `movk` after the linker applied the relocations for the
      address `a`: relocation k writes field k into the `imm16` of the
      `movk` it points at. */
  function PatchedMovks(a: nat): (code: seq<Instr>)
    ensures |code| == 4
    ensures forall k :: 0 <= k < 4 ==> code[k] == RelocMovks()[k].(imm := Field(a, k))
  {
    [Movk(GPR(CallReg), Field(a, 0), 0), Movk(GPR(CallReg), Field(a, 1), 16),
     Movk(GPR(CallReg), Field(a, 2), 32), Movk(GPR(CallReg), Field(a, 3), 48)]
  }

  /** What `movk` leaves in a register holding `x`: the 16-bit field at
      bit `16 k` replaced by `d`, with `p = 2^(16 k)`. */
  function MovkValue(x: int, d: int, p: nat): int
    requires p > 0
  {
    x - ((x / p) % 65536) * p + d * p
  }

  /** `movk` replaces exactly field `k` of a value written as
      `(hi * 65536 + f) * 2^(16 k) + lo`. */
  lemma MovkReplacesField(x: int, p: int, hi: int, f: int, lo: int, d: int)
    requires p > 0 && 0 <= lo < p && 0 <= f < 65536 && 0 <= d < 65536
    requires x == (hi * 65536 + f) * p + lo
    ensures MovkValue(x, d, p) == (hi * 65536 + d) * p + lo
  {
    ModUnique(x, p, hi * 65536 + f, lo);
    ModUnique(hi * 65536 + f, 65536, hi, f);
  }

  lemma Pow2Fields()
    ensures Pow2(0) == 1 && Pow2(16) == 65536 && Pow2(32) == 65536 * 65536 && Pow2(48) == 65536 * 65536 * 65536
  {
    assert Pow2(4) == 16;
    Pow2Add(4, 4);
    Pow2Add(8, 8);
    Pow2Add(16, 16);
    Pow2Add(32, 16);
  }

  /** A value below 2^64 is the sum of its four fields. */
  lemma FieldsSum(a: nat)
    requires a < U64
    ensures a == ((Field(a, 3) * 65536 + Field(a, 2)) * 65536 + Field(a, 1)) * 65536 + Field(a, 0)
  {
    var b0 := a / 65536;
    var b1 := b0 / 65536;
    var b2 := b1 / 65536;
    assert Field(a, 3) == Field(b0, 2) == Field(b1, 1) == Field(b2, 0) == b2 % 65536;
    assert Field(a, 2) == Field(b0, 1) == Field(b1, 0);
    assert Field(a, 1) == Field(b0, 0);
    assert b2 < 65536;
  }

  /** Four `movk` replacing the four fields of a 64-bit value leave the
      value made of the new fields. */
  lemma FieldsCompose(x0: int, f0: nat, f1: nat, f2: nat, f3: nat)
    requires 0 <= x0 < U64 && f0 < 65536 && f1 < 65536 && f2 < 65536 && f3 < 65536
    ensures MovkValue(MovkValue(MovkValue(MovkValue(x0, f0, 1), f1, 65536), f2, 65536 * 65536), f3, 65536 * 65536 * 65536) ==
            ((f3 * 65536 + f2) * 65536 + f1) * 65536 + f0
  {
    var q0 := x0 / 65536;
    var q1 := q0 / 65536;
    var q2 := q1 / 65536;
    assert q2 < 65536;
    MovkReplacesField(x0, 1, q0, x0 % 65536, 0, f0);
    var x1 := q0 * 65536 + f0;
    assert x1 == (q1 * 65536 + q0 % 65536) * 65536 + f0;
    MovkReplacesField(x1, 65536, q1, q0 % 65536, f0, f1);
    var x2 := (q1 * 65536 + f1) * 65536 + f0;
    assert x2 == (q2 * 65536 + q1 % 65536) * (65536 * 65536) + (f1 * 65536 + f0);
    MovkReplacesField(x2, 65536 * 65536, q2, q1 % 65536, f1 * 65536 + f0, f2);
    var x3 := (q2 * 65536 + f2) * (65536 * 65536) + (f1 * 65536 + f0);
    assert x3 == (0 * 65536 + q2) * (65536 * 65536 * 65536) + ((f2 * 65536 + f1) * 65536 + f0);
    MovkReplacesField(x3, 65536 * 65536 * 65536, 0, q2, (f2 * 65536 + f1) * 65536 + f0, f3);
  }

  /** One `movk` into X26 with a 16-bit immediate. */
  lemma MovkStepAt(s: Cpu, d: int, shift: nat, p: nat)
    requires 0 <= d < 65536 && p == Pow2(shift)
    ensures Exec1(Movk(GPR(CallReg), d, shift), s) == Next(SetX(s, CallReg, MovkValue(XReg(s, CallReg), d, p)))
  {
  }

  /** Four instructions that each fall through, run in sequence. */
  lemma ExecFour(code: seq<Instr>, s: Cpu, s1: Cpu, s2: Cpu, s3: Cpu, t: Cpu)
    requires |code| == 4
    requires Exec1(code[0], s) == Next(s1) && Exec1(code[1], s1) == Next(s2)
    requires Exec1(code[2], s2) == Next(s3) && Exec1(code[3], s3) == Next(t)
    ensures Exec(code, s) == Finished(t)
  {
    assert code == [code[0], code[1]] + [code[2], code[3]];
    ExecPair(code[0], code[1], s, s1, s2);
    ExecPair(code[2], code[3], s2, s3, t);
    ExecChain([code[0], code[1]], [code[2], code[3]], s, s2, t);
  }

  lemma SetXTwice(s: Cpu, r: Gpr, v: int, w: int)
    ensures SetX(SetX(s, r, v), r, w) == SetX(s, r, w)
  {
  }

  /** Once the linker has patched the four `movk` with the fields of a
      64-bit address, they leave exactly that address in X26. */
  lemma PatchedMovksLoadAddress(s: Cpu, a: nat)
    requires a < U64 && 0 <= XReg(s, CallReg) < U64
    ensures Exec(PatchedMovks(a), s) == Finished(SetX(s, CallReg, a))
  {
    var v := MovkValue(MovkValue(MovkValue(MovkValue(XReg(s, CallReg), Field(a, 0), 1), Field(a, 1), 65536),
                                 Field(a, 2), 65536 * 65536), Field(a, 3), 65536 * 65536 * 65536);
    assert v == a by {
      FieldsCompose(XReg(s, CallReg), Field(a, 0), Field(a, 1), Field(a, 2), Field(a, 3));
      FieldsSum(a);
    }
    MovkChainRuns(s, a);
  }

  /** The four patched `movk` run one after the other. */
  lemma MovkChainRuns(s: Cpu, a: nat)
    ensures Exec(PatchedMovks(a), s) ==
            Finished(SetX(s, CallReg, MovkValue(MovkValue(MovkValue(MovkValue(XReg(s, CallReg), Field(a, 0), 1),
                                                                    Field(a, 1), 65536),
                                                          Field(a, 2), 65536 * 65536),
                                                Field(a, 3), 65536 * 65536 * 65536)))
  {
    Pow2Fields();
    var f0, f1, f2, f3 := Field(a, 0), Field(a, 1), Field(a, 2), Field(a, 3);
    var x1 := MovkValue(XReg(s, CallReg), f0, 1);
    var x2 := MovkValue(x1, f1, 65536);
    var x3 := MovkValue(x2, f2, 65536 * 65536);
    var x4 := MovkValue(x3, f3, 65536 * 65536 * 65536);
    var s1 := SetX(s, CallReg, x1);
    var s2 := SetX(s1, CallReg, x2);
    var s3 := SetX(s2, CallReg, x3);
    var t := SetX(s3, CallReg, x4);
    MovkStepAt(s, f0, 0, 1);
    MovkStepAt(s1, f1, 16, 65536);
    MovkStepAt(s2, f2, 32, 65536 * 65536);
    MovkStepAt(s3, f3, 48, 65536 * 65536 * 65536);
    ExecFour(PatchedMovks(a), s, s1, s2, s3, t);
    SetXTwice(s, CallReg, x1, x2);
    SetXTwice(s, CallReg, x2, x3);
    SetXTwice(s, CallReg, x3, x4);
  }
}
