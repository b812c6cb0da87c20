/**
 * The pure translations of cat.c between the radio's own values and the
 * bytes of the CAT protocol: operating modes, AGC modes and the IF filter
 * width index.
 */
module Translate {
  import opened CInt
  import opened Wrappers
  import opened Radio

  /** The CAT mode codes */
  const M_LSB: byte := 0x00
  const M_USB: byte := 0x01
  const M_AM: byte := 0x02
  const M_CW: byte := 0x03
  const M_NFM: byte := 0x05
  const M_CWR: byte := 0x07

  /** The modes the protocol has a code for */
  predicate Known(m: XMode)
  {
    !m.OtherMode?
  }

  /** The digital variants of LSB and USB */
  predicate IsData(m: XMode)
  {
    m == LsbDig || m == UsbDig
  }

  /**
   * ci_mode_2_x_mode: the mode a CAT code stands for, the data variant of
   * LSB and USB when `dataMode` is set; None for a code it has no case for,
   * where the C function returns an uninitialised value.
   */
  function CiToX(code: byte, dataMode: bool): (r: Option<XMode>)
    ensures r.Some? <==> code in {M_LSB, M_USB, M_AM, M_CW, M_NFM, M_CWR}
    ensures r.Some? ==> Known(r.value) && (IsData(r.value) <==> dataMode && code <= M_USB)
  {
    if code == M_LSB then Some(if dataMode then LsbDig else Lsb)
    else if code == M_USB then Some(if dataMode then UsbDig else Usb)
    else if code == M_AM then Some(Am)
    else if code == M_CW then Some(Cw)
    else if code == M_NFM then Some(Nfm)
    else if code == M_CWR then Some(Cwr)
    else None
  }

  /** x_mode_2_ci_mode: the CAT code of a mode, 0 (LSB) for a mode without one */
  function XToCi(m: XMode): byte
  {
    match m
    case Lsb => M_LSB
    case LsbDig => M_LSB
    case Usb => M_USB
    case UsbDig => M_USB
    case Cw => M_CW
    case Cwr => M_CWR
    case Am => M_AM
    case Nfm => M_NFM
    case OtherMode(_) => 0
  }

  /** A known mode survives the trip to its code and back, given its data flag */
  lemma ModeRoundTrip(m: XMode)
    requires Known(m)
    ensures CiToX(XToCi(m), IsData(m)) == Some(m)
  {
  }

  /** A code with a case survives the trip to its mode and back */
  lemma CodeRoundTrip(code: byte, dataMode: bool)
    requires CiToX(code, dataMode).Some?
    ensures XToCi(CiToX(code, dataMode).value) == code
  {
  }

  /** Two known modes share a code exactly when they differ only in the data flag */
  lemma XToCiCollisions(m1: XMode, m2: XMode)
    requires Known(m1) && Known(m2)
    ensures XToCi(m1) == XToCi(m2) <==> m1 == m2 || {m1, m2} == {Lsb, LsbDig} || {m1, m2} == {Usb, UsbDig}
  {
    if XToCi(m1) == XToCi(m2) && m1 != m2 {
      ModeRoundTrip(m1);
      ModeRoundTrip(m2);
    }
  }

  /** get_agc_mode: the CAT code of the AGC mode, 0 for one without a code */
  function AgcCode(a: Agc): (r: byte)
    ensures r <= 3
    ensures a.AgcOther? ==> r == 0
  {
    match a
    case AgcOff => 0x00
    case AgcFast => 0x01
    case AgcSlow => 0x02
    case AgcAuto => 0x03
    case AgcOther(_) => 0x00
  }

  /** The four named AGC modes have four distinct codes */
  lemma AgcCodeInjective(a: Agc, b: Agc)
    requires !a.AgcOther? && !b.AgcOther? && AgcCode(a) == AgcCode(b)
    ensures a == b
  {
  }

  /** Modes whose filter widths come in the SSB/CW table */
  predicate SsbLike(m: XMode)
  {
    m in {Cw, Cwr, Lsb, LsbDig, Usb, UsbDig}
  }

  /**
   * get_if_bandwidth: the index of the filter width `bw` of mode `m`. In
   * the uint32_t arithmetic of the C code a width below the table's first
   * offset wraps, and the result is cut to the uint8_t it returns.
   */
  function IfBandwidth(m: XMode, bw: u32): byte
  {
    if SsbLike(m) then
      if bw <= 500 then ToU8(ToU32(bw - 25) / 50)
      else ToU8(ToU32(bw - 50) / 100 + 5)
    else if m == Am || m == Nfm then ToU8(ToU32(bw - 100) / 200)
    else 31
  }

  /** The SSB/CW width with index i: 50 Hz steps up to 500 Hz, then 100 Hz steps */
  function SsbWidth(i: nat): nat
  {
    if i <= 9 then 50 * (i + 1) else 100 * (i - 4)
  }

  /** The AM/NFM width with index i: 200 Hz steps from 200 Hz */
  function AmWidth(i: nat): nat
  {
    200 * (i + 1)
  }

  /** Every width of the SSB/CW table reads back as its own index */
  lemma SsbIndexRoundTrip(m: XMode, i: nat)
    requires SsbLike(m) && i < 256
    ensures IfBandwidth(m, SsbWidth(i)) == i
  {
    DivModUnique(i, 0, i, 0x100);
    if i <= 9 {
      var x := 50 * i + 25;
      assert SsbWidth(i) - 25 == x;
      DivModUnique(x, 0, x, U32_MOD);
      DivModUnique(x, i, 25, 50);
    } else {
      var x := 100 * (i - 5) + 50;
      assert SsbWidth(i) - 50 == x && SsbWidth(i) > 500;
      DivModUnique(x, 0, x, U32_MOD);
      DivModUnique(x, i - 5, 50, 100);
    }
  }

  /** Every width of the AM/NFM table reads back as its own index */
  lemma AmIndexRoundTrip(m: XMode, i: nat)
    requires (m == Am || m == Nfm) && i < 256
    ensures IfBandwidth(m, AmWidth(i)) == i
  {
    DivModUnique(i, 0, i, 0x100);
    var x := 200 * i + 100;
    assert AmWidth(i) - 100 == x;
    DivModUnique(x, 0, x, U32_MOD);
    DivModUnique(x, i, 100, 200);
  }

  /** A width up to 500 Hz reads as the index of the nearest entry */
  lemma SsbIndexNearestNarrow(m: XMode, bw: u32)
    requires SsbLike(m) && 25 <= bw <= 500
    ensures var i := IfBandwidth(m, bw); SsbWidth(i) - 25 <= bw < SsbWidth(i) + 25
  {
    var i := (bw - 25) / 50;
    assert ToU32(bw - 25) == bw - 25;
    assert IfBandwidth(m, bw) == i;
  }

  /** A wider width reads as the index of the entry within 50 Hz */
  lemma SsbIndexNearestWide(m: XMode, bw: u32)
    requires SsbLike(m) && 500 < bw < 25150
    ensures var i := IfBandwidth(m, bw); SsbWidth(i) - 50 <= bw < SsbWidth(i) + 50
  {
    var k := (bw - 50) / 100;
    assert ToU32(bw - 50) == bw - 50;
    assert IfBandwidth(m, bw) == k + 5;
  }

  /** Modes outside both tables report index 31 */
  lemma OtherModeIndex(m: XMode, bw: u32)
    requires !SsbLike(m) && m != Am && m != Nfm
    ensures IfBandwidth(m, bw) == 31
  {
  }

  /** A width of 0 is below both tables' offsets and wraps: 81 for SSB/CW, 19 for AM/NFM */
  lemma ZeroWidthWraps()
    ensures IfBandwidth(Usb, 0) == 81
    ensures IfBandwidth(Am, 0) == 19
  {
    DivModUnique(0 - 25, -1, U32_MOD - 25, U32_MOD);
    DivModUnique(U32_MOD - 25, 85899345, 21, 50);
    DivModUnique(85899345, 335544, 81, 0x100);
    DivModUnique(0 - 100, -1, U32_MOD - 100, U32_MOD);
    DivModUnique(U32_MOD - 100, 21474835, 196, 200);
    DivModUnique(21474835, 83886, 19, 0x100);
  }
}
