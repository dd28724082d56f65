/** Frame layout: where locals and parameters live, and which memory
    offsets the scaled 12-bit immediate form of LDR/STR can encode. */
module Frame {
  import opened Locations

  /** `offset_is_ok`'s shift: log2 of the access size in bytes. */
  function ScaleShift(sz: Size): (k: nat)
    ensures Pow2(k) * 8 == SizeBits(sz)
  {
    match sz
    case S8 => 0
    case S16 => 1
    case S32 => 2
    case S64 => 3
  }

  /** Whether `offset` fits LDR/STR (immediate, unsigned offset), checked as
      `offset_is_ok` does: non-negative, below `0x1000 << shift`, and
      unchanged by `(offset >> shift) << shift`. */
  function OffsetIsOk(sz: Size, offset: int): bool {
    if offset < 0 then false
    else
      var scale := Pow2(ScaleShift(sz));
      if offset >= 0x1000 * scale then false
      else if (offset / scale) * scale != offset then false
      else true
  }

  /** The check accepts exactly the offsets `imm12 * scale` with a 12-bit
      unsigned `imm12`, the field the instruction encodes. */
  lemma OffsetIsOkMeansEncodable(sz: Size, offset: int)
    ensures OffsetIsOk(sz, offset) <==>
            exists imm12 :: 0 <= imm12 < 0x1000 && offset == imm12 * Pow2(ScaleShift(sz))
  {
    var scale := Pow2(ScaleShift(sz));
    if OffsetIsOk(sz, offset) {
      var imm12 := offset / scale;
      assert offset == imm12 * scale;
      assert imm12 >= 0x1000 ==> imm12 * scale >= 0x1000 * scale;
      assert 0 <= imm12 < 0x1000 && offset == imm12 * Pow2(ScaleShift(sz));
    }
    if exists imm12 :: 0 <= imm12 < 0x1000 && offset == imm12 * scale {
      var imm12 :| 0 <= imm12 < 0x1000 && offset == imm12 * scale;
      assert offset >= 0;
      assert offset < 0x1000 * scale by {
        assert (0x1000 - imm12) * scale >= scale;
      }
      ModUnique(offset, scale, imm12, 0);
      assert (offset / scale) * scale == offset;
      assert OffsetIsOk(sz, offset);
    }
  }

  /** Calling conventions of the target; the AArch64 back end places
      parameters the same way under every one of them. */
  datatype CallingConvention = SystemV | WindowsFastcall | AppleAarch64 | WasmBasicCAbi

  /** `is_local_on_stack`: locals 0..7 live in X18..X25, the rest in the frame. */
  predicate IsLocalOnStack(idx: nat) {
    idx > 7
  }

  /** `get_local_location`. The stack offset is computed in `usize` and cast
      to `i32` before negation. */
  function GetLocalLocation(idx: nat, calleeSavedRegsSize: nat): (l: Location)
    ensures IsLocalOnStack(idx) <==> l.Memory?
    ensures l.Memory? ==> l.base == FrameReg
    ensures l.GPR? ==> l.r in LocalGprs
  {
    if idx <= 7 then GPR(LocalGprs[idx])
    else Memory(FrameReg, -AsI32((idx - 3) * 8 + calleeSavedRegsSize))
  }

  /** Two different locals never share a location, as long as the frame stays
      below 2 GiB so that the `as i32` cast does not wrap. */
  lemma {:induction false} LocalLocationsDistinct(i: nat, j: nat, css: nat)
    requires i < j
    requires (j - 3) * 8 + css < 0x8000_0000
    ensures GetLocalLocation(i, css) != GetLocalLocation(j, css)
    ensures IsLocalOnStack(i) ==>
              GetLocalLocation(j, css).offset + 8 <= GetLocalLocation(i, css).offset < 0
  {
    if IsLocalOnStack(i) {
      assert (i - 3) * 8 + css < (j - 3) * 8 + css;
      assert AsI32((i - 3) * 8 + css) == (i - 3) * 8 + css;
      assert AsI32((j - 3) * 8 + css) == (j - 3) * 8 + css;
    } else if !IsLocalOnStack(j) {
      assert LocalGprs[i] != LocalGprs[j];
    }
  }

  /** `get_param_location`: parameters 0..7 arrive in X0..X7, the rest in the
      caller's outgoing area, 16 bytes above the frame base (above the saved
      X27/X30 pair). */
  function GetParamLocation(idx: nat, cc: CallingConvention): (l: Location)
    ensures idx < 8 <==> l.GPR?
    ensures l.GPR? ==> l.r == ParamGprs[idx]
  {
    if idx < 8 then GPR(ParamGprs[idx])
    else Memory(FrameReg, AsI32(16 + (idx - 8) * 8))
  }

  /** Stacked parameters sit at distinct, increasing 8-byte slots from
      [X27 + 16] upward, clear of the saved X27/X30 pair at [X27] and
      [X27 + 8]; the calling convention does not matter. */
  lemma {:induction false} ParamSlotsAboveSavedPair(i: nat, j: nat, cc1: CallingConvention, cc2: CallingConvention)
    requires 8 <= i < j
    requires 16 + (j - 8) * 8 < 0x8000_0000
    ensures GetParamLocation(i, cc1) == GetParamLocation(i, cc2)
    ensures GetParamLocation(i, cc1).base == FrameReg
    ensures 16 <= GetParamLocation(i, cc1).offset
    ensures GetParamLocation(i, cc1).offset + 8 <= GetParamLocation(j, cc1).offset
  {
    assert AsI32(16 + (i - 8) * 8) == 16 + (i - 8) * 8;
    assert AsI32(16 + (j - 8) * 8) == 16 + (j - 8) * 8;
  }

  /** `local_on_stack`: a stack slot addressed below the frame base. */
  function LocalOnStack(stackOffset: int): (l: Location)
    ensures l.Memory? && l.base == FrameReg && l.offset + stackOffset == 0
  {
    Memory(FrameReg, -stackOffset)
  }
}
