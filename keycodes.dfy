/** The keycode classifier: the IS_HID_KC / IS_RM_KC macros and the remote-macro enum. */
module Keycodes {
  import opened Types

  /** RM_BASE is `0xFFFF-16`, that is 0xFFEF. */
  const RmBase: uint16 := 0xFFFF - 16

  /** IS_HID_KC(x): a standard HID key, strictly between 0 and 0xFF. */
  predicate IsHidKc(x: uint16)
  {
    x > 0 && x < 0xFF
  }

  /** IS_RM_KC(x): a remote-macro code, from RM_BASE up to the top of the 16-bit range. */
  predicate IsRmKc(x: uint16)
  {
    x >= RmBase && x <= 0xFFFF
  }

  /** The enumerator RM_n of `enum remote_macros` (RM_1 = RM_BASE, each next one is one higher). */
  function RemoteMacro(n: nat): (k: uint16)
    requires 1 <= n <= 15
    ensures IsRmKc(k) && !IsHidKc(k)
    ensures k == 0xFFEE + n
  {
    RmBase + (n - 1)
  }

  lemma HidRange(x: uint16)
    ensures IsHidKc(x) <==> 1 <= x <= 254
  {
  }

  lemma RmRange(x: uint16)
    ensures IsRmKc(x) <==> 0xFFEF <= x <= 0xFFFF
  {
  }

  lemma ClassesDisjoint(x: uint16)
    ensures !(IsHidKc(x) && IsRmKc(x))
  {
  }

  /** 0, 0xFF and the codes between 0xFF and RM_BASE are in neither class. */
  lemma Unclassified(x: uint16)
    ensures !IsHidKc(x) && !IsRmKc(x) <==> x == 0 || 0xFF <= x < 0xFFEF
  {
  }

  /** The set of codes IS_RM_KC accepts. */
  function RmCodes(): (codes: set<int>)
  {
    set x: int | 0 <= x < 0x1_0000 && IsRmKc(x)
  }

  /** The codes lo, lo + 1, ..., hi - 1. */
  function Band(lo: int, hi: int): (b: set<int>)
    ensures forall x :: x in b <==> lo <= x < hi
    decreases hi - lo
  {
    if lo >= hi then {} else {lo} + Band(lo + 1, hi)
  }

  lemma {:induction false} BandSize(lo: int, hi: int)
    requires lo <= hi
    ensures |Band(lo, hi)| == hi - lo
    decreases hi - lo
  {
    if lo < hi {
      BandSize(lo + 1, hi);
      assert lo !in Band(lo + 1, hi);
    }
  }

  /**
   * IS_RM_KC accepts 17 codes, two more than the enum names (RM_1..RM_15 end at 0xFFFD):
   * 0xFFFE and 0xFFFF are remote-macro codes without a name.
   */
  lemma RmBandSize()
    ensures |RmCodes()| == 17
    ensures IsRmKc(0xFFFE) && IsRmKc(0xFFFF) && RemoteMacro(15) == 0xFFFD
  {
    assert RmCodes() == Band(0xFFEF, 0x1_0000);
    BandSize(0xFFEF, 0x1_0000);
  }
}
