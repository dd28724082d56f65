/** The free-list register allocator, as a specification: the linear search
    `pick_*` performs over a fixed candidate list. */
module Allocator {
  import opened Wrappers
  import opened Locations

  /** The first candidate that is not in use, or None when every candidate is. */
  function FirstFree<T(==)>(cands: seq<T>, used: set<T>): (r: Option<T>)
    ensures r.Some? ==> r.value in cands && r.value !in used
  {
    if cands == [] then None
    else if cands[0] !in used then Some(cands[0])
    else
      var r := FirstFree(cands[1..], used);
      assert forall c :: c in cands[1..] ==> c in cands;
      r
  }

  /** `FirstFree` fails only when every candidate is in use, and otherwise
      yields the first candidate not in use. */
  lemma {:induction false} FirstFreeSpec<T>(cands: seq<T>, used: set<T>)
    ensures FirstFree(cands, used).None? <==> forall c :: c in cands ==> c in used
    ensures FirstFree(cands, used).Some? ==>
              exists i :: 0 <= i < |cands| && cands[i] == FirstFree(cands, used).value &&
                          forall j :: 0 <= j < i ==> cands[j] in used
  {
    if cands != [] && cands[0] in used {
      var r := FirstFree(cands[1..], used);
      FirstFreeSpec(cands[1..], used);
      assert forall c :: c in cands ==> c == cands[0] || c in cands[1..];
      if r.Some? {
        var i :| 0 <= i < |cands[1..]| && cands[1..][i] == r.value &&
                 forall j :: 0 <= j < i ==> cands[1..][j] in used;
        assert cands[i + 1] == r.value;
        forall j | 0 <= j < i + 1 ensures cands[j] in used {
          if j > 0 { assert cands[j] == cands[1..][j - 1]; }
        }
      }
    } else if cands != [] {
      assert cands[0] == FirstFree(cands, used).value;
    }
  }

  /** The loop of `pick_gpr`, `pick_temp_gpr`, `pick_simd` and
      `pick_temp_simd`: scan the candidates in order and return the first
      one that is free. */
  method Pick<T(==)>(cands: seq<T>, used: set<T>) returns (r: Option<T>)
    ensures r == FirstFree(cands, used)
    ensures r.Some? ==> r.value in cands && r.value !in used
  {
    var i := 0;
    while i < |cands|
      invariant 0 <= i <= |cands|
      invariant FirstFree(cands[i..], used) == FirstFree(cands, used)
    {
      if cands[i] !in used {
        return Some(cands[i]);
      }
      assert cands[i..][1..] == cands[i + 1..];
      i := i + 1;
    }
    return None;
  }

  /** Once a register is acquired, the next acquisition yields another one. */
  lemma SuccessiveAcquisitionsDiffer<T>(cands: seq<T>, used: set<T>)
    requires FirstFree(cands, used).Some?
    ensures var r1 := FirstFree(cands, used).value;
            var r2 := FirstFree(cands, used + {r1});
            r2.Some? ==> r2.value != r1 && r2.value !in used
  {
  }

  /** The temporary pool X0..X7 never overlaps the registers that hold
      locals, the call/return register X26, the frame base X27, the vmctx
      register X28 or the stack pointer. */
  lemma TempPoolIsolated(r: Gpr)
    requires r in TempGprs
    ensures r !in LocalGprs && r != CallReg && r != FrameReg && r != VmctxReg && r != XzrSp
  {
  }
}
