/**
 * The CAT frame engine of cat.c as functions on its whole visible state:
 * the bytes still to be read from the serial line, the 256-byte frame
 * buffer, the writes made to the line, the calls made into the radio and
 * the radio state the engine reads. A frame is `FE FE <to> <from> <cmd>
 * [<sub>] [<data>...] FD`; the engine first echoes it, then turns the buffer
 * into the answer in place (addresses swapped, its own address 0xA4 as the
 * sender) and writes that.
 */
module Protocol {
  import opened CInt
  import opened Wrappers
  import opened Bcd
  import opened Levels
  import opened Radio
  import opened Translate

  const FRAME_SIZE: nat := 256
  const FRAME_PRE: byte := 0xFE
  const FRAME_END: byte := 0xFD
  const CODE_OK: byte := 0xFB
  const CODE_NG: byte := 0xFA
  /** The address the engine answers from */
  const OWN_ADDRESS: byte := 0xA4

  const C_RD_FREQ: byte := 0x03
  const C_RD_MODE: byte := 0x04
  const C_SET_FREQ: byte := 0x05
  const C_SET_MODE: byte := 0x06
  const C_SET_VFO: byte := 0x07
  const C_CTL_SPLT: byte := 0x0f
  const C_CTL_ATT: byte := 0x11
  const C_CTL_LVL: byte := 0x14
  const C_CTL_FUNC: byte := 0x16
  const C_RD_TRXID: byte := 0x19
  const C_CTL_MEM: byte := 0x1a
  const C_CTL_PTT: byte := 0x1c
  const C_SEND_SEL_FREQ: byte := 0x25
  const C_SEND_SEL_MODE: byte := 0x26

  const S_VFOA: byte := 0x00
  const S_VFOB: byte := 0x01
  const S_XCHNG: byte := 0xb0
  const MEM_IF_FW: byte := 0x03

  /** The engine's visible state */
  datatype Io = Io(
    input: seq<byte>,
    frame: seq<byte>,
    out: seq<seq<byte>>,
    effects: seq<Effect>,
    radio: State)

  predicate Framed(io: Io)
  {
    |io.frame| == FRAME_SIZE
  }

  function Zeros(n: nat): (z: seq<byte>)
    ensures |z| == n && forall i :: 0 <= i < n ==> z[i] == 0
  {
    if n == 0 then [] else Zeros(n - 1) + [0]
  }

  /* ---------- reading a frame (frame_get) ---------- */

  /** The index of the first FRAME_END in `s`, or |s| when there is none */
  function FrameEnd(s: seq<byte>): (k: nat)
    ensures k <= |s|
    ensures forall i :: 0 <= i < k ==> s[i] != FRAME_END
    ensures k < |s| ==> s[k] == FRAME_END
  {
    if s == [] || s[0] == FRAME_END then 0 else 1 + FrameEnd(s[1..])
  }

  /** The end found by scanning one byte at a time is FrameEnd */
  lemma {:induction false} FrameEndIs(s: seq<byte>, k: nat)
    requires k <= |s| && forall i :: 0 <= i < k ==> s[i] != FRAME_END
    requires k < |s| ==> s[k] == FRAME_END
    ensures FrameEnd(s) == k
  {
    if k > 0 {
      FrameEndIs(s[1..], k - 1);
    }
  }

  /**
   * What frame_get leaves: the buffer, the length it returns, the input
   * not yet read, and whether it returned at all. It zeroes the buffer and
   * stores bytes until one is FRAME_END (the length read is returned) or
   * the buffer is full without one (0 is returned). When the input runs
   * out first the C code waits for more; `complete` is false then.
   */
  datatype Fetch = Fetch(frame: seq<byte>, len: u16, rest: seq<byte>, complete: bool)

  function FetchFrame(input: seq<byte>): (f: Fetch)
    ensures |f.frame| == FRAME_SIZE
  {
    var n := if |input| < FRAME_SIZE then |input| else FRAME_SIZE;
    var k := FrameEnd(input[..n]);
    if k < n then Fetch(input[..k + 1] + Zeros(FRAME_SIZE - k - 1), k + 1, input[k + 1..], true)
    else Fetch(input[..n] + Zeros(FRAME_SIZE - n), 0, input[n..], n == FRAME_SIZE)
  }

  /** A FRAME_END at index `len - 1`, the first one, ends the frame: `len` is returned, the rest of the buffer is zero */
  lemma FetchEnded(input: seq<byte>, len: nat)
    requires 1 <= len <= |input| && len <= FRAME_SIZE && input[len - 1] == FRAME_END
    requires forall i :: 0 <= i < len - 1 ==> input[i] != FRAME_END
    ensures FetchFrame(input) == Fetch(input[..len] + Zeros(FRAME_SIZE - len), len, input[len..], true)
  {
    var n := if |input| < FRAME_SIZE then |input| else FRAME_SIZE;
    FrameEndIs(input[..n], len - 1);
  }

  /** 256 bytes without FRAME_END fill the buffer and 0 is returned */
  lemma FetchFull(input: seq<byte>)
    requires |input| >= FRAME_SIZE
    requires forall i :: 0 <= i < FRAME_SIZE ==> input[i] != FRAME_END
    ensures FetchFrame(input) == Fetch(input[..FRAME_SIZE], 0, input[FRAME_SIZE..], true)
  {
    FrameEndIs(input[..FRAME_SIZE], FRAME_SIZE);
    assert input[..FRAME_SIZE] + Zeros(0) == input[..FRAME_SIZE];
  }

  /** Input that ends before a FRAME_END and before 256 bytes is all stored, and frame_get waits */
  lemma FetchStarved(input: seq<byte>)
    requires |input| < FRAME_SIZE
    requires forall i :: 0 <= i < |input| ==> input[i] != FRAME_END
    ensures FetchFrame(input) == Fetch(input + Zeros(FRAME_SIZE - |input|), 0, [], false)
  {
    var n := |input|;
    assert input[..n] == input;
    FrameEndIs(input, n);
    assert FrameEnd(input[..n]) == n;
    assert input[n..] == [];
  }

  function FrameGet(io: Io): (r: Io)
    ensures Framed(r)
  {
    var f := FetchFrame(io.input);
    io.(input := f.rest, frame := f.frame)
  }

  /* ---------- writing (prepare_answer, send_frame, send_code) ---------- */

  /** send_frame(len): end the first `len` bytes with FRAME_END and write them */
  function SendFrame(io: Io, len: nat): (r: Io)
    requires Framed(io) && 1 <= len <= FRAME_SIZE
    ensures Framed(r)
  {
    var f := io.frame[len - 1 := FRAME_END];
    io.(frame := f, out := io.out + [f[..len]])
  }

  /** prepare_answer: the sender becomes the destination and 0xA4 the sender */
  function PrepareAnswer(io: Io): (r: Io)
    requires Framed(io)
    ensures Framed(r)
  {
    io.(frame := io.frame[2 := io.frame[3]][3 := OWN_ADDRESS])
  }

  /** send_code(code): the six-byte answer carrying `code` */
  function SendCode(io: Io, code: byte): (r: Io)
    requires Framed(io)
    ensures Framed(r)
  {
    SendFrame(io.(frame := io.frame[4 := code]), 6)
  }

  /** Store `b` at `i` of the buffer */
  function Put(io: Io, i: nat, b: byte): (r: Io)
    requires Framed(io) && i < FRAME_SIZE
    ensures Framed(r)
  {
    io.(frame := io.frame[i := b])
  }

  /** A call into the radio */
  function Emit(io: Io, e: Effect): Io
  {
    io.(effects := io.effects + [e])
  }

  /* ---------- the commands ---------- */

  /** C_RD_FREQ: the active frequency as 10 BCD digits, lowest pair first, at byte 5 */
  function RdFreq(io: Io): (r: Io)
    requires Framed(io)
    ensures Framed(r)
  {
    var f := ToBcdWrite(io.frame, 5, io.radio.CurFreq(), 10);
    SendFrame(io.(frame := f), 11)
  }

  /** C_RD_MODE: the active mode's code, twice */
  function RdMode(io: Io): (r: Io)
    requires Framed(io)
    ensures Framed(r)
  {
    var v := XToCi(io.radio.CurMode());
    SendFrame(Put(Put(io, 5, v), 6, v), 8)
  }

  /** C_SET_FREQ: schedule the frequency in bytes 5.. unless it is the active one */
  function SetFreqCmd(io: Io): (r: Io)
    requires Framed(io)
    ensures Framed(r)
  {
    var f := FromBcdValue(io.frame[5..], 10);
    var io1 := if f != io.radio.CurFreq() then Emit(io, Schedule(SetFreq(f))) else io;
    SendCode(io1, CODE_OK)
  }

  /**
   * C_SET_MODE: schedule the mode of code frame[5] unless it is the active
   * one. For a code ci_mode_2_x_mode has no case for, the C code goes on with
   * an uninitialised x6100_mode_t; `garbage` stands for that value.
   */
  function SetModeCmd(io: Io, garbage: XMode): (r: Io)
    requires Framed(io)
    ensures Framed(r)
  {
    var m := CiToX(io.frame[5], false).GetOr(garbage);
    var io1 := if m != io.radio.CurMode() then Emit(io, Schedule(SetMode(m))) else io;
    SendCode(io1, CODE_OK)
  }

  /**
   * One level of C_CTL_LVL: with FRAME_END at byte 6 a query, answered with
   * the level as 4 BCD digits, highest pair first, at byte 6; otherwise the
   * level written there is turned into a step for the radio and acknowledged.
   */
  function LevelCmd(io: Io, l: Level): (r: Io)
    requires Framed(io)
    ensures Framed(r)
  {
    var held := io.radio.LevelValue(l);
    if io.frame[6] == FRAME_END then
      SendFrame(io.(frame := DecimalToBcdWrite(io.frame, 6, QueryLevel(l, held), 4)), 9)
    else
      var q := BcdToDecimalValue(io.frame[6..], 4);
      SendFrame(Put(Emit(io, ChangeLevel(l, SetArg(l, q, held))), 4, CODE_OK), 6)
  }

  /** The TX power level of C_CTL_LVL, whose arithmetic is not modelled */
  function PwrCmd(io: Io): (r: Io)
    requires Framed(io)
    ensures Framed(r)
  {
    if io.frame[6] == FRAME_END then
      SendFrame(io.(frame := DecimalToBcdWrite(io.frame, 6, io.radio.pwrLevel, 4)), 9)
    else
      var q := BcdToDecimalValue(io.frame[6..], 4);
      SendFrame(Put(Emit(io, ChangePwr(q)), 4, CODE_OK), 6)
  }

  /** One `if` of the C_CTL_LVL chain: the level's branch when byte 5 holds its sub-command */
  function LevelIf(io: Io, l: Level): (r: Io)
    requires Framed(io)
    ensures Framed(r)
  {
    if io.frame[5] == SubCode(l) then LevelCmd(io, l) else io
  }

  /** The `if` of the chain for the TX power */
  function PwrIf(io: Io): (r: Io)
    requires Framed(io)
    ensures Framed(r)
  {
    if io.frame[5] == PWR_CODE then PwrCmd(io) else io
  }

  /**
   * C_CTL_LVL as the C code writes it: a chain of independent `if`s, each
   * testing byte 5 of the buffer as the previous one left it.
   */
  function CtlLvl(io: Io): (r: Io)
    requires Framed(io)
    ensures Framed(r)
  {
    LevelIf(PwrIf(LevelIf(LevelIf(LevelIf(LevelIf(LevelIf(io, Af), Rf), Sql), Nr), Nb)), Dnf)
  }

  /** A switch of C_CTL_PTT, C_CTL_FUNC: query its state at byte 6, or act and acknowledge */
  function SwitchCmd(io: Io, state: byte, act: seq<Effect>): (r: Io)
    requires Framed(io)
    ensures Framed(r)
  {
    if io.frame[6] == FRAME_END then SendFrame(Put(io, 6, state), 8)
    else SendFrame(Put(io.(effects := io.effects + act), 6, CODE_OK), 8)
  }

  function Flag(b: bool): byte
  {
    if b then 1 else 0
  }

  function NonZero(n: nat): byte
  {
    if n == 0 then 0 else 1
  }

  /** What C_CTL_PTT sub-command 0x00 does with the byte written: 0 receive, 1 transmit */
  function PttAct(b: byte): seq<Effect>
  {
    if b == 0 then [SetPtt(false)] else if b == 1 then [SetPtt(true)] else []
  }

  /** What C_CTL_PTT sub-command 0x01 does with the byte written: 0 or 1 toggles the ATU, 2 starts a tune */
  function AtuAct(b: byte): seq<Effect>
  {
    if b == 0 || b == 1 then [ChangeAtu] else if b == 2 then [StartAtu] else []
  }

  /** C_CTL_PTT: 0x00 transmit (1) or receive (0), 0x01 the ATU */
  function CtlPtt(io: Io): (r: Io)
    requires Framed(io)
    ensures Framed(r)
  {
    var a := if io.frame[5] == 0x00 then SwitchCmd(io, Flag(!io.radio.rx), PttAct(io.frame[6])) else io;
    if a.frame[5] == 0x01 then SwitchCmd(a, NonZero(a.radio.atu), AtuAct(a.frame[6])) else a
  }

  /** C_CTL_ATT and C_CTL_SPLT: FRAME_END at byte 5 queries the state, anything else toggles it */
  function ToggleCmd(io: Io, state: nat, act: Effect): (r: Io)
    requires Framed(io)
    ensures Framed(r)
  {
    if io.frame[5] == FRAME_END then SendFrame(Put(io, 5, NonZero(state)), 7)
    else SendFrame(Put(Emit(io, act), 5, CODE_OK), 8)
  }

  /** C_CTL_FUNC: 0x02 preamplifier, 0x12 AGC, 0x40 NR, 0x22 NB, 0x41 DNF */
  function CtlFunc(io: Io): (r: Io)
    requires Framed(io)
    ensures Framed(r)
  {
    var a := if io.frame[5] == 0x02 then SwitchCmd(io, NonZero(io.radio.pre), [ChangePre]) else io;
    var b := if a.frame[5] == 0x12 then SwitchCmd(a, AgcCode(a.radio.agc), [ChangeAgc]) else a;
    var c := if b.frame[5] == 0x40 then SwitchCmd(b, Flag(b.radio.nr), [ChangeNr]) else b;
    var d := if c.frame[5] == 0x22 then SwitchCmd(c, Flag(c.radio.nb), [ChangeNb]) else c;
    if d.frame[5] == 0x41 then SwitchCmd(d, Flag(d.radio.dnf), [ChangeDnf]) else d
  }

  /** C_SET_VFO: select VFO A or B (scheduled when it is not the active one), or swap them */
  function SetVfoCmd(io: Io): (r: Io)
    requires Framed(io)
    ensures Framed(r)
  {
    var sub := io.frame[5];
    if sub == S_VFOA then
      SendCode(if io.radio.vfo != VfoA then Emit(io, Schedule(SetVfo(VfoA))) else io, CODE_OK)
    else if sub == S_VFOB then
      SendCode(if io.radio.vfo != VfoB then Emit(io, Schedule(SetVfo(VfoB))) else io, CODE_OK)
    else if sub == S_XCHNG then
      SendCode(Emit(io, ToggleVfo), CODE_OK)
    else SendCode(io, CODE_NG)
  }

  /** The VFO bytes 5 selects for C_SEND_SEL_FREQ and C_SEND_SEL_MODE: 0 the active one, else the other */
  function TargetVfo(io: Io): Vfo
    requires Framed(io)
  {
    if io.frame[5] != 0 then Other(io.radio.vfo) else io.radio.vfo
  }

  /**
   * C_SEND_SEL_FREQ: read or set the target VFO's frequency, 10 BCD digits
   * at byte 6. A new frequency is stored, and scheduled too when the target
   * is the active VFO.
   */
  function SelFreq(io: Io): (r: Io)
    requires Framed(io)
    ensures Framed(r)
  {
    var t := TargetVfo(io);
    if io.frame[6] == FRAME_END then
      SendFrame(io.(frame := ToBcdWrite(io.frame, 6, io.radio.VfoFreq(t), 10)), 12)
    else
      var f := FromBcdValue(io.frame[6..], 10);
      var io1 :=
        if io.radio.VfoFreq(t) != f then
          var stored := io.(radio := io.radio.WithVfoFreq(t, f));
          if io.radio.vfo == t then Emit(stored, Schedule(SetFreq(f))) else stored
        else io;
      SendCode(io1, CODE_OK)
  }

  /**
   * C_SEND_SEL_MODE: read the target VFO's mode (code, data flag 0, filter 1)
   * or schedule the mode of code byte 6 with the data flag of byte 7.
   */
  function SelMode(io: Io, garbage: XMode): (r: Io)
    requires Framed(io)
    ensures Framed(r)
  {
    if io.frame[6] == FRAME_END then
      var v := XToCi(io.radio.VfoMode(TargetVfo(io)));
      SendFrame(Put(Put(Put(io, 6, v), 7, 0), 8, 1), 10)
    else
      var m := CiToX(io.frame[6], io.frame[7] != 0).GetOr(garbage);
      SendCode(Emit(io, Schedule(SetMode(m))), CODE_OK)
  }

  /** C_CTL_MEM: only the IF filter width query (sub-command 0x03) is answered */
  function CtlMem(io: Io): (r: Io)
    requires Framed(io)
    ensures Framed(r)
  {
    if io.frame[6] == FRAME_END && io.frame[5] == MEM_IF_FW then
      SendFrame(Put(io, 6, IfBandwidth(io.radio.CurMode(), io.radio.filterBw)), 8)
    else SendCode(io, CODE_NG)
  }

  /** C_RD_TRXID: sub-command 0 reads the transceiver id 0xA4 */
  function RdTrxId(io: Io): (r: Io)
    requires Framed(io)
    ensures Framed(r)
  {
    if io.frame[5] == 0 then SendFrame(Put(io, 6, 0xA4), 8) else io
  }

  /** The switch of frame_parse on the command byte */
  function Dispatch(io: Io, garbage: XMode): (r: Io)
    requires Framed(io)
    ensures Framed(r)
  {
    var cmd := io.frame[4];
    if cmd == C_RD_FREQ then RdFreq(io)
    else if cmd == C_RD_MODE then RdMode(io)
    else if cmd == C_SET_FREQ then SetFreqCmd(io)
    else if cmd == C_SET_MODE then SetModeCmd(io, garbage)
    else if cmd == C_CTL_LVL then CtlLvl(io)
    else if cmd == C_CTL_PTT then CtlPtt(io)
    else if cmd == C_CTL_ATT then ToggleCmd(io, io.radio.att, ChangeAtt)
    else if cmd == C_CTL_FUNC then CtlFunc(io)
    else if cmd == C_SET_VFO then SetVfoCmd(io)
    else if cmd == C_SEND_SEL_FREQ then SelFreq(io)
    else if cmd == C_CTL_SPLT then ToggleCmd(io, io.radio.split, ToggleSplit)
    else if cmd == C_SEND_SEL_MODE then SelMode(io, garbage)
    else if cmd == C_CTL_MEM then CtlMem(io)
    else if cmd == C_RD_TRXID then RdTrxId(io)
    else SendCode(io, CODE_NG)
  }

  /** A frame neither of whose first two bytes is the preamble is dropped */
  predicate Rejected(frame: seq<byte>)
    requires |frame| >= 2
  {
    frame[0] != FRAME_PRE && frame[1] != FRAME_PRE
  }

  /** The buffer after the echo and prepare_answer, before the command runs */
  function Answering(io: Io, len: nat): (r: Io)
    requires Framed(io) && 1 <= len <= FRAME_SIZE
    ensures Framed(r)
  {
    PrepareAnswer(SendFrame(io, len))
  }

  /** frame_parse(len): drop, or echo the frame, prepare the answer and run the command */
  function Parse(io: Io, len: nat, garbage: XMode): (r: Io)
    requires Framed(io) && 1 <= len <= FRAME_SIZE
    ensures Framed(r)
  {
    if Rejected(io.frame) then io
    else Dispatch(Answering(io, len), garbage)
  }

  /** How one turn of cat_thread ends */
  datatype Outcome =
    | Parsed
      /** frame_get found no FRAME_END in 256 bytes and returned 0; unless the
          frame is dropped, frame_parse(0) would then store FRAME_END before the
          buffer, which the model does not go into */
    | Overflow(outOfBounds: bool)
      /** the input ran out before the frame was complete */
    | Starved

  /** One turn of cat_thread: read a frame and parse it */
  function Step(io: Io, garbage: XMode): (r: Io)
  {
    var f := FetchFrame(io.input);
    var g := FrameGet(io);
    if f.complete && f.len >= 1 then Parse(g, f.len, garbage) else g
  }

  function StepOutcome(io: Io): Outcome
  {
    var f := FetchFrame(io.input);
    if !f.complete then Starved
    else if f.len == 0 then Overflow(!Rejected(f.frame))
    else Parsed
  }
}
