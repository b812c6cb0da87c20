/**
 * The CAT engine as cat.c runs it: one object owning the static 256-byte
 * frame buffer, reading bytes from the serial line into it, rewriting it in
 * place into answers and writing those out. Each method is proved to leave
 * the engine in the state the matching function of module Protocol gives.
 */
module Cat {
  import opened CInt
  import opened Wrappers
  import opened Bcd
  import opened Levels
  import opened Radio
  import opened Translate
  import opened Protocol

  class Engine {
    /** The static 256-byte frame buffer */
    const frame: array<byte>
    /** The bytes the serial line will deliver */
    var input: seq<byte>
    /** Every write made to the serial line so far */
    var out: seq<seq<byte>>
    /** Every call made into the radio so far */
    var effects: seq<Effect>
    /** The radio and parameter state the engine reads */
    var radio: State

    predicate Valid()
    {
      frame.Length == FRAME_SIZE
    }

    /** The engine's state as a value */
    ghost function Io(): Protocol.Io
      reads this, frame
    {
      Protocol.Io(input, frame[..], out, effects, radio)
    }

    /** A static buffer starts zeroed, and nothing has been written or called */
    constructor (input: seq<byte>, radio: State)
      ensures Valid()
      ensures Io() == Protocol.Io(input, Zeros(FRAME_SIZE), [], [], radio)
    {
      frame := new byte[FRAME_SIZE](_ => 0);
      this.input := input;
      this.radio := radio;
      out := [];
      effects := [];
    }

    /** memset(frame, 0, sizeof(frame)) */
    method Clear()
      requires Valid()
      modifies frame
      ensures frame[..] == Zeros(FRAME_SIZE)
    {
      var i := 0;
      while i < FRAME_SIZE
        invariant 0 <= i <= FRAME_SIZE
        invariant forall k :: 0 <= k < i ==> frame[k] == 0
      {
        frame[i] := 0;
        i := i + 1;
      }
    }

    /** frame_get: zero the buffer, then store bytes until FRAME_END or a full buffer */
    method FrameGet() returns (len: u16, complete: bool)
      requires Valid()
      modifies this, frame
      ensures Io() == Protocol.FrameGet(old(Io()))
      ensures len == FetchFrame(old(input)).len && complete == FetchFrame(old(input)).complete
    {
      ghost var in0 := input;
      ghost var f := FetchFrame(in0);
      Clear();
      len := 0;
      while true
        invariant 0 <= len < FRAME_SIZE && len <= |in0|
        invariant input == in0[len..]
        invariant frame[..] == in0[..len] + Zeros(FRAME_SIZE - len)
        invariant forall k :: 0 <= k < len ==> in0[k] != FRAME_END
        invariant out == old(out) && effects == old(effects) && radio == old(radio)
        decreases |input|
      {
        if input == [] {
          // the C code would wait here for more bytes
          assert in0[..len] == in0;
          FetchStarved(in0);
          assert f == Fetch(frame[..], 0, [], false);
          len := 0;
          complete := false;
          return;
        }
        var c := input[0];
        input := input[1..];
        frame[len] := c;
        len := len + 1;
        assert frame[..] == in0[..len] + Zeros(FRAME_SIZE - len);
        if c == FRAME_END {
          FetchEnded(in0, len);
          assert f == Fetch(frame[..], len, input, true);
          complete := true;
          return;
        }
        if len >= FRAME_SIZE {
          FetchFull(in0);
          assert in0[..len] + Zeros(0) == in0[..FRAME_SIZE];
          assert f == Fetch(frame[..], 0, input, true);
          len := 0;
          complete := true;
          return;
        }
      }
    }

    /** send_frame(len) */
    method SendFrame(len: nat)
      requires Valid() && 1 <= len <= FRAME_SIZE
      modifies this, frame
      ensures Io() == Protocol.SendFrame(old(Io()), len)
    {
      frame[len - 1] := FRAME_END;
      out := out + [frame[..len]];
    }

    /** prepare_answer() */
    method PrepareAnswer()
      requires Valid()
      modifies this, frame
      ensures Io() == Protocol.PrepareAnswer(old(Io()))
    {
      frame[2] := frame[3];
      frame[3] := OWN_ADDRESS;
    }

    /** send_code(code) */
    method SendCode(code: byte)
      requires Valid()
      modifies this, frame
      ensures Io() == Protocol.SendCode(old(Io()), code)
    {
      frame[4] := code;
      SendFrame(6);
    }

    method Emit(e: Effect)
      modifies this
      ensures input == old(input) && out == old(out) && radio == old(radio)
      ensures effects == old(effects) + [e]
    {
      effects := effects + [e];
    }

    method RdFreq()
      requires Valid()
      modifies this, frame
      ensures Io() == Protocol.RdFreq(old(Io()))
    {
      ToBcd(frame, 5, radio.CurFreq(), 10);
      SendFrame(11);
    }

    method RdMode()
      requires Valid()
      modifies this, frame
      ensures Io() == Protocol.RdMode(old(Io()))
    {
      var v := XToCi(radio.CurMode());
      frame[5] := v;
      frame[6] := v;
      SendFrame(8);
    }

    method SetFreqCmd()
      requires Valid()
      modifies this, frame
      ensures Io() == Protocol.SetFreqCmd(old(Io()))
    {
      var newFreq := FromBcd(frame, 5, 10);
      if newFreq != radio.CurFreq() {
        Emit(Schedule(SetFreq(newFreq)));
      }
      SendCode(CODE_OK);
    }

    method SetModeCmd(garbage: XMode)
      requires Valid()
      modifies this, frame
      ensures Io() == Protocol.SetModeCmd(old(Io()), garbage)
    {
      var newMode := CiToX(frame[5], false).GetOr(garbage);
      if newMode != radio.CurMode() {
        Emit(Schedule(SetMode(newMode)));
      }
      SendCode(CODE_OK);
    }

    method LevelCmd(l: Level)
      requires Valid()
      modifies this, frame
      ensures Io() == Protocol.LevelCmd(old(Io()), l)
    {
      var held := radio.LevelValue(l);
      if frame[6] == FRAME_END {
        DecimalToBcd(frame, 6, QueryLevel(l, held), 4);
        SendFrame(9);
      } else {
        var q := BcdToDecimal(frame, 6, 4);
        Emit(ChangeLevel(l, SetArg(l, q, held)));
        frame[4] := CODE_OK;
        SendFrame(6);
      }
    }

    method PwrCmd()
      requires Valid()
      modifies this, frame
      ensures Io() == Protocol.PwrCmd(old(Io()))
    {
      if frame[6] == FRAME_END {
        DecimalToBcd(frame, 6, radio.pwrLevel, 4);
        SendFrame(9);
      } else {
        var q := BcdToDecimal(frame, 6, 4);
        Emit(ChangePwr(q));
        frame[4] := CODE_OK;
        SendFrame(6);
      }
    }

    /** One `if` of the C_CTL_LVL chain */
    method LevelIf(l: Level)
      requires Valid()
      modifies this, frame
      ensures Io() == Protocol.LevelIf(old(Io()), l)
    {
      if frame[5] == SubCode(l) { LevelCmd(l); }
    }

    method CtlLvl()
      requires Valid()
      modifies this, frame
      ensures Io() == Protocol.CtlLvl(old(Io()))
    {
      LevelIf(Af);
      LevelIf(Rf);
      LevelIf(Sql);
      LevelIf(Nr);
      LevelIf(Nb);
      if frame[5] == PWR_CODE { PwrCmd(); }
      LevelIf(Dnf);
    }

    method SwitchCmd(state: byte, act: seq<Effect>)
      requires Valid()
      modifies this, frame
      ensures Io() == Protocol.SwitchCmd(old(Io()), state, act)
    {
      if frame[6] == FRAME_END {
        frame[6] := state;
        SendFrame(8);
      } else {
        effects := effects + act;
        frame[6] := CODE_OK;
        SendFrame(8);
      }
    }

    method CtlPtt()
      requires Valid()
      modifies this, frame
      ensures Io() == Protocol.CtlPtt(old(Io()))
    {
      if frame[5] == 0x00 { SwitchCmd(Flag(!radio.rx), PttAct(frame[6])); }
      if frame[5] == 0x01 { SwitchCmd(NonZero(radio.atu), AtuAct(frame[6])); }
    }

    method ToggleCmd(state: nat, act: Effect)
      requires Valid()
      modifies this, frame
      ensures Io() == Protocol.ToggleCmd(old(Io()), state, act)
    {
      if frame[5] == FRAME_END {
        frame[5] := NonZero(state);
        SendFrame(7);
      } else {
        Emit(act);
        frame[5] := CODE_OK;
        SendFrame(8);
      }
    }

    method CtlFunc()
      requires Valid()
      modifies this, frame
      ensures Io() == Protocol.CtlFunc(old(Io()))
    {
      if frame[5] == 0x02 { SwitchCmd(NonZero(radio.pre), [ChangePre]); }
      if frame[5] == 0x12 { SwitchCmd(AgcCode(radio.agc), [ChangeAgc]); }
      if frame[5] == 0x40 { SwitchCmd(Flag(radio.nr), [ChangeNr]); }
      if frame[5] == 0x22 { SwitchCmd(Flag(radio.nb), [ChangeNb]); }
      if frame[5] == 0x41 { SwitchCmd(Flag(radio.dnf), [ChangeDnf]); }
    }

    method SetVfoCmd()
      requires Valid()
      modifies this, frame
      ensures Io() == Protocol.SetVfoCmd(old(Io()))
    {
      var sub := frame[5];
      if sub == S_VFOA {
        if radio.vfo != VfoA {
          Emit(Schedule(SetVfo(VfoA)));
        }
        SendCode(CODE_OK);
      } else if sub == S_VFOB {
        if radio.vfo != VfoB {
          Emit(Schedule(SetVfo(VfoB)));
        }
        SendCode(CODE_OK);
      } else if sub == S_XCHNG {
        Emit(ToggleVfo);
        SendCode(CODE_OK);
      } else {
        SendCode(CODE_NG);
      }
    }

    method SelFreq()
      requires Valid()
      modifies this, frame
      ensures Io() == Protocol.SelFreq(old(Io()))
    {
      var curVfo := radio.vfo;
      var target := curVfo;
      if frame[5] != 0 {
        target := Other(curVfo);
      }
      if frame[6] == FRAME_END {
        ToBcd(frame, 6, radio.VfoFreq(target), 10);
        SendFrame(12);
      } else {
        var freq := FromBcd(frame, 6, 10);
        if radio.VfoFreq(target) != freq {
          radio := radio.WithVfoFreq(target, freq);
          if curVfo == target {
            Emit(Schedule(SetFreq(freq)));
          }
        }
        SendCode(CODE_OK);
      }
    }

    method SelMode(garbage: XMode)
      requires Valid()
      modifies this, frame
      ensures Io() == Protocol.SelMode(old(Io()), garbage)
    {
      var target := radio.vfo;
      if frame[5] != 0 {
        target := Other(radio.vfo);
      }
      if frame[6] == FRAME_END {
        var v := XToCi(radio.VfoMode(target));
        frame[6] := v;
        frame[7] := 0;
        frame[8] := 1;
        SendFrame(10);
      } else {
        var newMode := CiToX(frame[6], frame[7] != 0).GetOr(garbage);
        Emit(Schedule(SetMode(newMode)));
        SendCode(CODE_OK);
      }
    }

    method CtlMem()
      requires Valid()
      modifies this, frame
      ensures Io() == Protocol.CtlMem(old(Io()))
    {
      if frame[6] == FRAME_END {
        if frame[5] == MEM_IF_FW {
          frame[6] := IfBandwidth(radio.CurMode(), radio.filterBw);
          SendFrame(8);
        } else {
          SendCode(CODE_NG);
        }
      } else {
        SendCode(CODE_NG);
      }
    }

    method RdTrxId()
      requires Valid()
      modifies this, frame
      ensures Io() == Protocol.RdTrxId(old(Io()))
    {
      if frame[5] == 0 {
        frame[6] := 0xA4;
        SendFrame(8);
      }
    }

    /** frame_parse(len) */
    method FrameParse(len: nat, garbage: XMode)
      requires Valid() && 1 <= len <= FRAME_SIZE
      modifies this, frame
      ensures Io() == Parse(old(Io()), len, garbage)
    {
      if frame[0] != FRAME_PRE && frame[1] != FRAME_PRE {
        return;
      }
      SendFrame(len);
      PrepareAnswer();
      Dispatch(garbage);
    }

    /** The switch of frame_parse on the command byte */
    method Dispatch(garbage: XMode)
      requires Valid()
      modifies this, frame
      ensures Io() == Protocol.Dispatch(old(Io()), garbage)
    {
      var cmd := frame[4];
      if cmd == C_RD_FREQ {
        RdFreq();
      } else if cmd == C_RD_MODE {
        RdMode();
      } else if cmd == C_SET_FREQ {
        SetFreqCmd();
      } else if cmd == C_SET_MODE {
        SetModeCmd(garbage);
      } else if cmd == C_CTL_LVL {
        CtlLvl();
      } else if cmd == C_CTL_PTT {
        CtlPtt();
      } else if cmd == C_CTL_ATT {
        ToggleCmd(radio.att, ChangeAtt);
      } else if cmd == C_CTL_FUNC {
        CtlFunc();
      } else if cmd == C_SET_VFO {
        SetVfoCmd();
      } else if cmd == C_SEND_SEL_FREQ {
        SelFreq();
      } else if cmd == C_CTL_SPLT {
        ToggleCmd(radio.split, ToggleSplit);
      } else if cmd == C_SEND_SEL_MODE {
        SelMode(garbage);
      } else if cmd == C_CTL_MEM {
        CtlMem();
      } else if cmd == C_RD_TRXID {
        RdTrxId();
      } else {
        SendCode(CODE_NG);
      }
    }

    /** One turn of cat_thread */
    method Step(garbage: XMode) returns (outcome: Outcome)
      requires Valid()
      modifies this, frame
      ensures Io() == Protocol.Step(old(Io()), garbage)
      ensures outcome == StepOutcome(old(Io()))
    {
      var len, complete := FrameGet();
      if !complete {
        return Starved;
      }
      if len == 0 {
        return Overflow(!(frame[0] != FRAME_PRE && frame[1] != FRAME_PRE) );
      }
      FrameParse(len, garbage);
      return Parsed;
    }
  }
}
