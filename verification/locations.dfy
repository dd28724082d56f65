/** Registers, operand sizes and abstract operand locations of the AArch64
    single-pass back end. */
module Locations {

  type RegNum = n: int | 0 <= n <= 30
  type NeonNum = n: int | 0 <= n <= 31

  /** General-purpose registers X0..X30 and register 31, which is the stack
      pointer as an address/arithmetic operand and the zero register as a
      data operand of loads and stores. */
  datatype Gpr = X(n: RegNum) | XzrSp

  /** NEON/FP registers V0..V31. */
  datatype Neon = V(n: NeonNum)

  datatype Size = S8 | S16 | S32 | S64

  /** Where an operand lives. */
  datatype Location =
    | GPR(r: Gpr)
    | SIMD(v: Neon)
    | Memory(base: Gpr, offset: int)
    | Imm8(imm8: int)
    | Imm32(imm32: int)
    | Imm64(imm64: int)

  /** Registers with a fixed role. */
  const VmctxReg: Gpr := X(28)      // get_vmctx_reg
  const FrameReg: Gpr := X(27)      // local_pointer, the frame base
  const CallReg: Gpr := X(26)       // get_grp_for_call / get_gpr_for_ret
  const LinkReg: Gpr := X(30)
  const RetSimd: Neon := V(0)       // get_simd_for_ret

  /** Candidate lists searched by the allocator, in priority order. */
  const PickGprs: seq<Gpr> := [X(0), X(1), X(2), X(3), X(4), X(5), X(6), X(7),
                               X(8), X(9), X(10), X(11), X(12), X(13), X(14), X(15)]
  const TempGprs: seq<Gpr> := [X(0), X(1), X(2), X(3), X(4), X(5), X(6), X(7)]
  const PickSimds: seq<Neon> := [V(8), V(9), V(10), V(11), V(12)]
  const TempSimds: seq<Neon> := [V(0), V(1), V(2), V(3), V(4), V(5), V(6), V(7)]

  /** Registers holding locals 0..7 (get_local_location). */
  const LocalGprs: seq<Gpr> := [X(18), X(19), X(20), X(21), X(22), X(23), X(24), X(25)]

  /** Argument registers for parameters 0..7 (get_param_location). */
  const ParamGprs: seq<Gpr> := [X(0), X(1), X(2), X(3), X(4), X(5), X(6), X(7)]

  /** Number of a general-purpose register as the enum discriminant; register 31 is XzrSp. */
  function GprNumber(r: Gpr): (k: int)
    ensures 0 <= k <= 31
    ensures k == 31 <==> r == XzrSp
  {
    match r
    case X(n) => n
    case XzrSp => 31
  }

  /** index_from_gpr / index_from_simd: one register index space, GPRs in
      0..31 and NEON registers in 32..63. */
  function IndexFromGpr(r: Gpr): (i: nat)
    ensures i < 32
  {
    GprNumber(r)
  }

  function IndexFromSimd(v: Neon): (i: nat)
    ensures 32 <= i < 64
  {
    v.n + 32
  }

  lemma IndicesInjective(r1: Gpr, r2: Gpr, v1: Neon, v2: Neon)
    ensures IndexFromGpr(r1) == IndexFromGpr(r2) ==> r1 == r2
    ensures IndexFromSimd(v1) == IndexFromSimd(v2) ==> v1 == v2
    ensures IndexFromGpr(r1) != IndexFromSimd(v1)
  {
  }

  function SizeBits(sz: Size): (b: nat)
    ensures b in {8, 16, 32, 64}
  {
    match sz
    case S8 => 8
    case S16 => 16
    case S32 => 32
    case S64 => 64
  }

  predicate IsReg(l: Location) {
    l.GPR? || l.SIMD?
  }

  predicate IsImm(l: Location) {
    l.Imm8? || l.Imm32? || l.Imm64?
  }

  function ImmValue(l: Location): int
    requires IsImm(l)
  {
    match l
    case Imm8(k) => k
    case Imm32(k) => k
    case Imm64(k) => k
  }

  function Pow2(k: nat): (p: nat)
    ensures p >= 1
  {
    if k == 0 then 1 else 2 * Pow2(k - 1)
  }

  lemma {:induction false} Pow2Add(a: nat, b: nat)
    ensures Pow2(a + b) == Pow2(a) * Pow2(b)
  {
    if a > 0 {
      Pow2Add(a - 1, b);
    }
  }

  /** 2^32, the modulus of the 32-bit operations. */
  lemma Pow2Of32()
    ensures Pow2(32) == U32
  {
    assert Pow2(4) == 16;
    Pow2Add(4, 4);
    Pow2Add(8, 8);
    Pow2Add(16, 16);
  }

  const U32: nat := 0x1_0000_0000
  const U64: nat := 0x1_0000_0000_0000_0000

  /** A `u32` value. */
  type U32Word = x: int | 0 <= x < 0x1_0000_0000

  /** Rust `x as i32`: keep the low 32 bits and read them as two's complement. */
  function AsI32(x: int): (r: int)
    ensures -0x8000_0000 <= r < 0x8000_0000
    ensures (r - x) % U32 == 0
    ensures -0x8000_0000 <= x < 0x8000_0000 ==> r == x
  {
    var m := x % U32;
    if m < 0x8000_0000 then m else m - U32
  }

  /** Rust `x as u8`. */
  function AsU8(x: int): (r: int)
    ensures 0 <= r < 256
    ensures (r - x) % 256 == 0
    ensures 0 <= x < 256 ==> r == x
  {
    x % 256
  }

  /** Euclidean division is determined by quotient and remainder. */
  lemma ModUnique(a: int, m: int, q: int, r: int)
    requires m > 0 && 0 <= r < m && a == q * m + r
    ensures a % m == r && a / m == q
  {
    var d := a / m - q;
    assert d * m == r - a % m;
    assert d > 0 ==> d * m >= m;
    assert d < 0 ==> d * m <= -m;
  }
}
