/**
 * The part of the radio the CAT engine reads and drives. The radio and its
 * parameter store are code outside this model: what the engine reads from
 * them is the `State` value, and every call it makes into them is recorded
 * as an `Effect`, in order, without modelling what the call does.
 */
module Radio {
  import opened CInt
  import Levels

  /** x6100_mode_t; modes the CAT protocol has no code for are kept by their number */
  datatype XMode = Lsb | LsbDig | Usb | UsbDig | Cw | Cwr | Am | Nfm | OtherMode(code: nat)

  /** x6100_vfo_t */
  datatype Vfo = VfoA | VfoB

  /** x6100_agc_t */
  datatype Agc = AgcOff | AgcFast | AgcSlow | AgcAuto | AgcOther(code: nat)

  /**
   * What the engine reads: the active VFO, each VFO's frequency and mode in
   * the current band, the values the level controls hold, the TX power as
   * the level its query reports, whether the radio is receiving, the ATU,
   * attenuator, preamplifier, AGC, NR/NB/DNF switches, the split setting and
   * the filter width of the current mode.
   */
  datatype State = State(
    vfo: Vfo,
    freqA: u64, freqB: u64,
    modeA: XMode, modeB: XMode,
    vol: u16, rfg: u16, sql: u16, nrLevel: u16, nbLevel: u16, dnfCenter: u16,
    pwrLevel: u16,
    rx: bool,
    atu: nat, att: nat, pre: nat,
    agc: Agc,
    nr: bool, nb: bool, dnf: bool,
    split: nat,
    filterBw: u32)
  {
    /** params_band_vfo_freq_get */
    function VfoFreq(v: Vfo): u64
    {
      if v == VfoA then freqA else freqB
    }

    /** params_band_vfo_mode_get */
    function VfoMode(v: Vfo): XMode
    {
      if v == VfoA then modeA else modeB
    }

    /** params_band_cur_freq_get: the frequency of the active VFO */
    function CurFreq(): u64
    {
      VfoFreq(vfo)
    }

    /** params_band_cur_mode_get: the mode of the active VFO */
    function CurMode(): XMode
    {
      VfoMode(vfo)
    }

    /** The value a level control holds, as radio_change_*(0) returns it */
    function LevelValue(l: Levels.Level): u16
    {
      match l
      case Af => vol
      case Rf => rfg
      case Sql => sql
      case Nr => nrLevel
      case Nb => nbLevel
      case Dnf => dnfCenter
    }

    /** params_band_vfo_freq_set: only that VFO's frequency changes */
    function WithVfoFreq(v: Vfo, f: u64): (r: State)
      ensures r.VfoFreq(v) == f && r.VfoFreq(Other(v)) == VfoFreq(Other(v))
      ensures r.vfo == vfo && r.modeA == modeA && r.modeB == modeB
    {
      if v == VfoA then this.(freqA := f) else this.(freqB := f)
    }
  }

  /** The VFO that is not `v` */
  function Other(v: Vfo): (r: Vfo)
    ensures r != v
  {
    if v == VfoA then VfoB else VfoA
  }

  /** A change handed to scheduler_put, carried out later on the UI thread */
  datatype Deferred = SetFreq(freq: u64) | SetVfo(vfo: Vfo) | SetMode(mode: XMode)

  /** A call into the radio, in the order the engine makes them */
  datatype Effect =
    | Schedule(change: Deferred)
    | ChangeLevel(level: Levels.Level, step: i16)
    | ChangePwr(written: u64)
    | SetPtt(on: bool)
    | ChangeAtu
    | StartAtu
    | ChangeAtt
    | ChangePre
    | ChangeAgc
    | ChangeNr
    | ChangeNb
    | ChangeDnf
    | ToggleVfo
    | ToggleSplit
}
