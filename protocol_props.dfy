/**
 * What the CAT engine promises a host, proved about the functions of module
 * Protocol: how frames are cut from the serial stream, that every frame not
 * dropped is echoed and answered at most once with a well-formed reply, what
 * each command answers and which calls into the radio it makes.
 */
module ProtocolProps {
  import opened CInt
  import opened Wrappers
  import opened Bcd
  import opened Levels
  import opened Radio
  import opened Translate
  import opened Protocol

  /* ---------- frame_get ---------- */

  /** A frame frame_get returns ends in FRAME_END and has no FRAME_END before that */
  lemma FetchedFrameWellFormed(input: seq<byte>)
    requires FetchFrame(input).complete && FetchFrame(input).len > 0
    ensures var f := FetchFrame(input);
      && f.frame[f.len - 1] == FRAME_END
      && (forall i :: 0 <= i < f.len - 1 ==> f.frame[i] != FRAME_END)
      && input == f.frame[..f.len] + f.rest
  {
    var n := if |input| < FRAME_SIZE then |input| else FRAME_SIZE;
    var k := FrameEnd(input[..n]);
    assert input[..k + 1] + input[k + 1..] == input;
  }

  /* ---------- the shape of every answer ---------- */

  /** `n` more elements after the old ones */
  predicate Appended<T(==)>(before: seq<T>, after: seq<T>, n: nat)
  {
    |after| == |before| + n && after[..|before|] == before
  }

  /** A reply: at least six bytes, starting with the given header and ending in FRAME_END */
  predicate IsReply(hdr: seq<byte>, w: seq<byte>)
  {
    |w| >= 6 && w[..4] == hdr && w[|w| - 1] == FRAME_END
  }

  /**
   * A command handler run on the prepared buffer `a` has left `r`: the
   * header bytes as they were, the input not read, at most one reply
   * written, at most one call into the radio, and the radio state changed
   * only by C_SEND_SEL_FREQ.
   */
  predicate Answers(a: Io, r: Io)
    requires Framed(a)
  {
    && Framed(r) && r.input == a.input && r.frame[..4] == a.frame[..4]
    && (r.out == a.out || (Appended(a.out, r.out, 1) && IsReply(a.frame[..4], r.out[|a.out|])))
    && (r.effects == a.effects || Appended(a.effects, r.effects, 1))
    && (r.radio == a.radio || a.frame[4] == C_SEND_SEL_FREQ)
  }

  /** `c` is `a` with bytes from 4 on rewritten and at most one call made, ready to be sent */
  predicate Prepared(a: Io, c: Io)
    requires Framed(a)
  {
    && Framed(c) && c.input == a.input && c.out == a.out && c.frame[..4] == a.frame[..4]
    && (c.effects == a.effects || Appended(a.effects, c.effects, 1))
    && (c.radio == a.radio || a.frame[4] == C_SEND_SEL_FREQ)
  }

  lemma SendPrepared(a: Io, c: Io, len: nat)
    requires Framed(a) && Prepared(a, c) && 6 <= len <= FRAME_SIZE
    ensures Answers(a, SendFrame(c, len))
  {
    var r := SendFrame(c, len);
    assert r.frame[..4] == c.frame[..4];
    assert r.out[|a.out|][..4] == c.frame[..4];
  }

  lemma SendCodePrepared(a: Io, c: Io, code: byte)
    requires Framed(a) && Prepared(a, c) && code != FRAME_END
    ensures Answers(a, SendCode(c, code)) && SendCode(c, code).frame[5] == FRAME_END
  {
    var p := Put(c, 4, code);
    assert p.frame[..4] == c.frame[..4];
    SendPrepared(a, p, 6);
    assert SendCode(c, code).out[|a.out|][..4] == a.frame[..4];
  }

  /* ---------- the if-chains select exactly one branch ---------- */

  /** The level command of sub-command `sub`, taken once: what the chain of C_CTL_LVL means */
  function LevelSelect(io: Io): (r: Io)
    requires Framed(io)
  {
    var sub := io.frame[5];
    if sub == SubCode(Af) then LevelCmd(io, Af)
    else if sub == SubCode(Rf) then LevelCmd(io, Rf)
    else if sub == SubCode(Sql) then LevelCmd(io, Sql)
    else if sub == SubCode(Nr) then LevelCmd(io, Nr)
    else if sub == SubCode(Nb) then LevelCmd(io, Nb)
    else if sub == PWR_CODE then PwrCmd(io)
    else if sub == SubCode(Dnf) then LevelCmd(io, Dnf)
    else io
  }

  /** The BCD answer of a level query leaves bytes 0..5 alone */
  lemma LevelQueryKeepsHead(s: seq<byte>, v: u16)
    requires |s| == FRAME_SIZE
    ensures DecimalToBcdWrite(s, 6, v, 4)[..6] == s[..6]
  {
    DecimalToBcdLayout(s, 6, v, 4);
  }

  /** A level command leaves the sub-command byte as it was, or FRAME_END after an acknowledgement */
  lemma LevelCmdSub(io: Io, l: Level)
    requires Framed(io)
    ensures LevelCmd(io, l).frame[5] in {io.frame[5], FRAME_END}
  {
    LevelQueryKeepsHead(io.frame, QueryLevel(l, io.radio.LevelValue(l)));
  }

  /** So does the TX power command */
  lemma PwrCmdSub(io: Io)
    requires Framed(io)
    ensures PwrCmd(io).frame[5] in {io.frame[5], FRAME_END}
  {
    LevelQueryKeepsHead(io.frame, io.radio.pwrLevel);
  }

  /** An `if` of the C_CTL_LVL chain whose sub-command byte 5 does not hold passes the buffer on */
  lemma LevelIfPass(io: Io, l: Level)
    requires Framed(io) && io.frame[5] != SubCode(l)
    ensures LevelIf(io, l) == io
  {
  }

  /** So does the TX power `if` */
  lemma PwrIfPass(io: Io)
    requires Framed(io) && io.frame[5] != PWR_CODE
    ensures PwrIf(io) == io
  {
  }

  /** The `if`s after the one that fired pass on what it left */
  lemma AfterNb(r: Io, code: byte)
    requires Framed(r) && r.frame[5] in {code, FRAME_END} && code in {SubCode(Af), SubCode(Rf), SubCode(Sql), SubCode(Nr), SubCode(Nb)}
    ensures LevelIf(PwrIf(r), Dnf) == r
  {
    PwrIfPass(r);
    LevelIfPass(r, Dnf);
  }

  /** With a level's sub-command at byte 5 only that level's `if` fires */
  lemma CtlLvlLevel(io: Io, l: Level)
    requires Framed(io) && io.frame[5] == SubCode(l)
    ensures CtlLvl(io) == LevelCmd(io, l)
  {
    var r := LevelCmd(io, l);
    LevelCmdSub(io, l);
    match l
    case Af =>
      LevelIfPass(r, Rf); LevelIfPass(r, Sql); LevelIfPass(r, Nr); LevelIfPass(r, Nb); AfterNb(r, SubCode(Af));
    case Rf =>
      LevelIfPass(io, Af);
      LevelIfPass(r, Sql); LevelIfPass(r, Nr); LevelIfPass(r, Nb); AfterNb(r, SubCode(Rf));
    case Sql =>
      LevelIfPass(io, Af); LevelIfPass(io, Rf);
      LevelIfPass(r, Nr); LevelIfPass(r, Nb); AfterNb(r, SubCode(Sql));
    case Nr =>
      LevelIfPass(io, Af); LevelIfPass(io, Rf); LevelIfPass(io, Sql);
      LevelIfPass(r, Nb); AfterNb(r, SubCode(Nr));
    case Nb =>
      LevelIfPass(io, Af); LevelIfPass(io, Rf); LevelIfPass(io, Sql); LevelIfPass(io, Nr);
      AfterNb(r, SubCode(Nb));
    case Dnf =>
      LevelIfPass(io, Af); LevelIfPass(io, Rf); LevelIfPass(io, Sql); LevelIfPass(io, Nr); LevelIfPass(io, Nb);
      PwrIfPass(io);
  }

  /** With the TX power sub-command only its `if` fires */
  lemma CtlLvlPwr(io: Io)
    requires Framed(io) && io.frame[5] == PWR_CODE
    ensures CtlLvl(io) == PwrCmd(io)
  {
    var r := PwrCmd(io);
    PwrCmdSub(io);
    LevelIfPass(io, Af); LevelIfPass(io, Rf); LevelIfPass(io, Sql); LevelIfPass(io, Nr); LevelIfPass(io, Nb);
    LevelIfPass(r, Dnf);
  }

  /** The `if`s of C_CTL_LVL behave as one switch on the sub-command: no second branch fires */
  lemma CtlLvlExclusive(io: Io)
    requires Framed(io)
    ensures CtlLvl(io) == LevelSelect(io)
  {
    var sub := io.frame[5];
    if sub == SubCode(Af) {
      CtlLvlLevel(io, Af);
    } else if sub == SubCode(Rf) {
      CtlLvlLevel(io, Rf);
    } else if sub == SubCode(Sql) {
      CtlLvlLevel(io, Sql);
    } else if sub == SubCode(Nr) {
      CtlLvlLevel(io, Nr);
    } else if sub == SubCode(Nb) {
      CtlLvlLevel(io, Nb);
    } else if sub == PWR_CODE {
      CtlLvlPwr(io);
    } else if sub == SubCode(Dnf) {
      CtlLvlLevel(io, Dnf);
    }
  }

  /** C_CTL_PTT as one switch */
  function PttSelect(io: Io): (r: Io)
    requires Framed(io)
  {
    var sub := io.frame[5];
    if sub == 0x00 then SwitchCmd(io, Flag(!io.radio.rx), PttAct(io.frame[6]))
    else if sub == 0x01 then SwitchCmd(io, NonZero(io.radio.atu), AtuAct(io.frame[6]))
    else io
  }

  /** C_CTL_FUNC as one switch */
  function FuncSelect(io: Io): (r: Io)
    requires Framed(io)
  {
    var sub := io.frame[5];
    if sub == 0x02 then SwitchCmd(io, NonZero(io.radio.pre), [ChangePre])
    else if sub == 0x12 then SwitchCmd(io, AgcCode(io.radio.agc), [ChangeAgc])
    else if sub == 0x40 then SwitchCmd(io, Flag(io.radio.nr), [ChangeNr])
    else if sub == 0x22 then SwitchCmd(io, Flag(io.radio.nb), [ChangeNb])
    else if sub == 0x41 then SwitchCmd(io, Flag(io.radio.dnf), [ChangeDnf])
    else io
  }

  /** A switch command leaves the sub-command byte as it was */
  lemma SwitchCmdSub(io: Io, state: byte, act: seq<Effect>)
    requires Framed(io)
    ensures SwitchCmd(io, state, act).frame[5] == io.frame[5]
  {
  }

  /** The `if`s of C_CTL_PTT behave as one switch */
  lemma CtlPttExclusive(io: Io)
    requires Framed(io)
    ensures CtlPtt(io) == PttSelect(io)
  {
    SwitchCmdSub(io, Flag(!io.radio.rx), PttAct(io.frame[6]));
  }

  /** The `if`s of C_CTL_FUNC behave as one switch */
  lemma CtlFuncExclusive(io: Io)
    requires Framed(io)
    ensures CtlFunc(io) == FuncSelect(io)
  {
    SwitchCmdSub(io, NonZero(io.radio.pre), [ChangePre]);
    SwitchCmdSub(io, AgcCode(io.radio.agc), [ChangeAgc]);
    SwitchCmdSub(io, Flag(io.radio.nr), [ChangeNr]);
    SwitchCmdSub(io, Flag(io.radio.nb), [ChangeNb]);
  }

  /* ---------- every command answers at most once ---------- */

  lemma RdFreqAnswers(a: Io)
    requires Framed(a)
    ensures Answers(a, RdFreq(a))
  {
    ToBcdLayout(a.frame, 5, a.radio.CurFreq(), 10);
    var c := a.(frame := ToBcdWrite(a.frame, 5, a.radio.CurFreq(), 10));
    assert c.frame[..4] == a.frame[..4];
    SendPrepared(a, c, 11);
  }

  lemma RdModeAnswers(a: Io)
    requires Framed(a)
    ensures Answers(a, RdMode(a))
  {
    var v := XToCi(a.radio.CurMode());
    var c := Put(Put(a, 5, v), 6, v);
    assert c.frame[..4] == a.frame[..4];
    SendPrepared(a, c, 8);
  }

  lemma SetFreqAnswers(a: Io)
    requires Framed(a)
    ensures Answers(a, SetFreqCmd(a))
  {
    var f := FromBcdValue(a.frame[5..], 10);
    SendCodePrepared(a, if f != a.radio.CurFreq() then Emit(a, Schedule(SetFreq(f))) else a, CODE_OK);
  }

  lemma SetModeAnswers(a: Io, garbage: XMode)
    requires Framed(a)
    ensures Answers(a, SetModeCmd(a, garbage))
  {
    var m := CiToX(a.frame[5], false).GetOr(garbage);
    SendCodePrepared(a, if m != a.radio.CurMode() then Emit(a, Schedule(SetMode(m))) else a, CODE_OK);
  }

  /** The query of a level writes 4 BCD digits at byte 6, a set acknowledges with CODE_OK */
  lemma LevelReplyAnswers(a: Io, v: u16, e: Effect)
    requires Framed(a)
    ensures a.frame[6] == FRAME_END ==> Answers(a, SendFrame(a.(frame := DecimalToBcdWrite(a.frame, 6, v, 4)), 9))
    ensures Answers(a, SendFrame(Put(Emit(a, e), 4, CODE_OK), 6))
  {
    LevelQueryKeepsHead(a.frame, v);
    var c := a.(frame := DecimalToBcdWrite(a.frame, 6, v, 4));
    assert c.frame[..4] == a.frame[..4] by {
      assert c.frame[..6][..4] == c.frame[..4];
    }
    SendPrepared(a, c, 9);
    var d := Put(Emit(a, e), 4, CODE_OK);
    assert d.frame[..4] == a.frame[..4];
    SendPrepared(a, d, 6);
  }

  lemma CtlLvlAnswers(a: Io)
    requires Framed(a)
    ensures Answers(a, CtlLvl(a))
  {
    CtlLvlExclusive(a);
    var sub := a.frame[5];
    if sub == PWR_CODE {
      LevelReplyAnswers(a, a.radio.pwrLevel, ChangePwr(BcdToDecimalValue(a.frame[6..], 4)));
    } else {
      var l :=
        if sub == SubCode(Af) then Af else if sub == SubCode(Rf) then Rf
        else if sub == SubCode(Sql) then Sql else if sub == SubCode(Nr) then Nr
        else if sub == SubCode(Nb) then Nb else Dnf;
      var held := a.radio.LevelValue(l);
      LevelReplyAnswers(a, QueryLevel(l, held), ChangeLevel(l, SetArg(l, BcdToDecimalValue(a.frame[6..], 4), held)));
    }
  }

  lemma SwitchAnswers(a: Io, state: byte, act: seq<Effect>)
    requires Framed(a) && |act| <= 1
    ensures Answers(a, SwitchCmd(a, state, act))
  {
    var c := Put(a, 6, state);
    assert c.frame[..4] == a.frame[..4];
    SendPrepared(a, c, 8);
    var d := Put(a.(effects := a.effects + act), 6, CODE_OK);
    assert d.frame[..4] == a.frame[..4];
    if act == [] {
      assert d.effects == a.effects;
    }
    SendPrepared(a, d, 8);
  }

  lemma CtlPttAnswers(a: Io)
    requires Framed(a)
    ensures Answers(a, CtlPtt(a))
  {
    CtlPttExclusive(a);
    SwitchAnswers(a, Flag(!a.radio.rx), PttAct(a.frame[6]));
    SwitchAnswers(a, NonZero(a.radio.atu), AtuAct(a.frame[6]));
  }

  lemma CtlFuncAnswers(a: Io)
    requires Framed(a)
    ensures Answers(a, CtlFunc(a))
  {
    CtlFuncExclusive(a);
    SwitchAnswers(a, NonZero(a.radio.pre), [ChangePre]);
    SwitchAnswers(a, AgcCode(a.radio.agc), [ChangeAgc]);
    SwitchAnswers(a, Flag(a.radio.nr), [ChangeNr]);
    SwitchAnswers(a, Flag(a.radio.nb), [ChangeNb]);
    SwitchAnswers(a, Flag(a.radio.dnf), [ChangeDnf]);
  }

  lemma ToggleAnswers(a: Io, state: nat, act: Effect)
    requires Framed(a)
    ensures Answers(a, ToggleCmd(a, state, act))
  {
    var c := Put(a, 5, NonZero(state));
    assert c.frame[..4] == a.frame[..4];
    SendPrepared(a, c, 7);
    var d := Put(Emit(a, act), 5, CODE_OK);
    assert d.frame[..4] == a.frame[..4];
    SendPrepared(a, d, 8);
  }

  lemma SetVfoAnswers(a: Io)
    requires Framed(a)
    ensures Answers(a, SetVfoCmd(a))
  {
    SendCodePrepared(a, if a.radio.vfo != VfoA then Emit(a, Schedule(SetVfo(VfoA))) else a, CODE_OK);
    SendCodePrepared(a, if a.radio.vfo != VfoB then Emit(a, Schedule(SetVfo(VfoB))) else a, CODE_OK);
    SendCodePrepared(a, Emit(a, ToggleVfo), CODE_OK);
    SendCodePrepared(a, a, CODE_NG);
  }

  lemma SelFreqAnswers(a: Io)
    requires Framed(a) && a.frame[4] == C_SEND_SEL_FREQ
    ensures Answers(a, SelFreq(a))
  {
    var t := TargetVfo(a);
    if a.frame[6] == FRAME_END {
      ToBcdLayout(a.frame, 6, a.radio.VfoFreq(t), 10);
      var c := a.(frame := ToBcdWrite(a.frame, 6, a.radio.VfoFreq(t), 10));
      assert c.frame[..4] == a.frame[..4];
      SendPrepared(a, c, 12);
    } else {
      var f := FromBcdValue(a.frame[6..], 10);
      var stored := a.(radio := a.radio.WithVfoFreq(t, f));
      SendCodePrepared(a, if a.radio.VfoFreq(t) != f then (if a.radio.vfo == t then Emit(stored, Schedule(SetFreq(f))) else stored) else a, CODE_OK);
    }
  }

  lemma SelModeAnswers(a: Io, garbage: XMode)
    requires Framed(a)
    ensures Answers(a, SelMode(a, garbage))
  {
    var v := XToCi(a.radio.VfoMode(TargetVfo(a)));
    var c := Put(Put(Put(a, 6, v), 7, 0), 8, 1);
    assert c.frame[..4] == a.frame[..4];
    SendPrepared(a, c, 10);
    var m := CiToX(a.frame[6], a.frame[7] != 0).GetOr(garbage);
    SendCodePrepared(a, Emit(a, Schedule(SetMode(m))), CODE_OK);
  }

  lemma CtlMemAnswers(a: Io)
    requires Framed(a)
    ensures Answers(a, CtlMem(a))
  {
    var c := Put(a, 6, IfBandwidth(a.radio.CurMode(), a.radio.filterBw));
    assert c.frame[..4] == a.frame[..4];
    SendPrepared(a, c, 8);
    SendCodePrepared(a, a, CODE_NG);
  }

  lemma RdTrxIdAnswers(a: Io)
    requires Framed(a)
    ensures Answers(a, RdTrxId(a))
  {
    var c := Put(a, 6, 0xA4);
    assert c.frame[..4] == a.frame[..4];
    SendPrepared(a, c, 8);
  }

  /** Whatever the command, the engine writes at most one reply, carrying the prepared header, and makes at most one call */
  lemma DispatchAnswers(a: Io, garbage: XMode)
    requires Framed(a)
    ensures Answers(a, Dispatch(a, garbage))
  {
    var cmd := a.frame[4];
    if cmd == C_RD_FREQ { RdFreqAnswers(a); }
    else if cmd == C_RD_MODE { RdModeAnswers(a); }
    else if cmd == C_SET_FREQ { SetFreqAnswers(a); }
    else if cmd == C_SET_MODE { SetModeAnswers(a, garbage); }
    else if cmd == C_CTL_LVL { CtlLvlAnswers(a); }
    else if cmd == C_CTL_PTT { CtlPttAnswers(a); }
    else if cmd == C_CTL_ATT { ToggleAnswers(a, a.radio.att, ChangeAtt); }
    else if cmd == C_CTL_FUNC { CtlFuncAnswers(a); }
    else if cmd == C_SET_VFO { SetVfoAnswers(a); }
    else if cmd == C_SEND_SEL_FREQ { SelFreqAnswers(a); }
    else if cmd == C_CTL_SPLT { ToggleAnswers(a, a.radio.split, ToggleSplit); }
    else if cmd == C_SEND_SEL_MODE { SelModeAnswers(a, garbage); }
    else if cmd == C_CTL_MEM { CtlMemAnswers(a); }
    else if cmd == C_RD_TRXID { RdTrxIdAnswers(a); }
    else { SendCodePrepared(a, a, CODE_NG); }
  }

  /* ---------- frame_parse, as the host sees it ---------- */

  /** A frame as frame_get delivers it: `len` bytes ending in FRAME_END, not dropped */
  predicate Received(io: Io, len: nat)
  {
    Framed(io) && 1 <= len <= FRAME_SIZE && io.frame[len - 1] == FRAME_END && !Rejected(io.frame)
  }

  /** The header of every answer: the two preamble bytes, the sender as destination, 0xA4 as sender */
  function Header(frame: seq<byte>): (h: seq<byte>)
    requires |frame| >= 4
    ensures |h| == 4 && h[2] == frame[3] && h[3] == OWN_ADDRESS
  {
    [frame[0], frame[1], frame[3], OWN_ADDRESS]
  }

  /** The buffer Dispatch starts from carries the answer's header */
  lemma AnsweringHeader(io: Io, len: nat)
    requires Received(io, len)
    ensures var a := Answering(io, len);
      && a.frame[..4] == Header(io.frame) && a.frame[4..] == io.frame[4..]
      && a.out == io.out + [io.frame[..len]]
      && a.input == io.input && a.effects == io.effects && a.radio == io.radio
  {
    assert io.frame[len - 1 := FRAME_END] == io.frame;
  }

  /**
   * frame_parse on a frame it does not drop: the frame is echoed first, then
   * at most one reply follows, addressed back to the sender; at most one call
   * goes to the radio and only C_SEND_SEL_FREQ changes the radio state.
   */
  lemma ParseShape(io: Io, len: nat, garbage: XMode)
    requires Received(io, len)
    ensures ShapeOf(io, len, Parse(io, len, garbage))
  {
    var a := Answering(io, len);
    AnsweringHeader(io, len);
    DispatchAnswers(a, garbage);
    AnswersShape(io, len, a, Dispatch(a, garbage));
  }

  /** The echo, then at most one reply and one call, as ParseShape states them */
  predicate ShapeOf(io: Io, len: nat, r: Io)
    requires Received(io, len)
  {
    var n := |io.out|;
    && r.input == io.input
    && (Appended(io.out, r.out, 1) || Appended(io.out, r.out, 2))
    && r.out[n] == io.frame[..len]
    && (|r.out| == n + 2 ==> IsReply(Header(io.frame), r.out[n + 1]))
    && (r.effects == io.effects || Appended(io.effects, r.effects, 1))
    && (r.radio == io.radio || io.frame[4] == C_SEND_SEL_FREQ)
  }

  lemma AnswersShape(io: Io, len: nat, a: Io, r: Io)
    requires Received(io, len) && Framed(a)
    requires a.frame[..4] == Header(io.frame) && a.frame[4] == io.frame[4]
    requires a.out == io.out + [io.frame[..len]]
    requires a.input == io.input && a.effects == io.effects && a.radio == io.radio
    requires Answers(a, r)
    ensures ShapeOf(io, len, r)
  {
    var n := |io.out|;
    if r.out != a.out {
      assert r.out[..n] == r.out[..n + 1][..n];
    }
  }

  /** frame_parse drops exactly the frames whose first two bytes are both not the preamble */
  lemma ParseDropsIff(io: Io, len: nat, garbage: XMode)
    requires Framed(io) && 1 <= len <= FRAME_SIZE
    ensures Parse(io, len, garbage) == io <==> Rejected(io.frame)
  {
    if !Rejected(io.frame) {
      var a := Answering(io, len);
      DispatchAnswers(a, garbage);
      assert |Parse(io, len, garbage).out| > |io.out|;
    }
  }

  /* ---------- what each command answers ---------- */

  /** An even-length BCD number depends only on its own bytes */
  lemma BcdPrefix(s: seq<byte>, t: seq<byte>, len: nat)
    requires len % 2 == 0 && len / 2 <= |s| && len / 2 <= |t| && s[..len / 2] == t[..len / 2]
    ensures FromBcdValue(s, len) == FromBcdValue(t, len)
    ensures BcdToDecimalValue(s, len) == BcdToDecimalValue(t, len)
  {
  }

  /** The reply written last */
  function LastOut(r: Io): seq<byte>
    requires r.out != []
  {
    r.out[|r.out| - 1]
  }

  /** One reply written and nothing else done */
  predicate Replied(a: Io, r: Io)
  {
    Appended(a.out, r.out, 1) && r.input == a.input && r.effects == a.effects && r.radio == a.radio
  }

  /** One reply written, one call made */
  predicate RepliedWith(a: Io, r: Io, e: seq<Effect>)
  {
    Appended(a.out, r.out, 1) && r.input == a.input && r.effects == a.effects + e && r.radio == a.radio
  }

  /** C_RD_FREQ answers 11 bytes: the active frequency as 10 valid BCD digits that read back as it (mod 10^10) */
  lemma RdFreqReply(a: Io)
    requires Framed(a)
    ensures var r := RdFreq(a); var w := LastOut(r);
      && Replied(a, r)
      && |w| == 11 && w[..5] == a.frame[..5] && w[10] == FRAME_END
      && ValidBcd(w[5..10]) && FromBcdValue(w[5..], 10) == a.radio.CurFreq() % Pow10(10)
  {
    FreqReply(a, 5, a.radio.CurFreq());
  }

  /** A frequency answer from byte `off`: 10 valid BCD digits that read back as the frequency, then FRAME_END */
  lemma FreqReply(a: Io, off: nat, f: u64)
    requires Framed(a) && off in {5, 6}
    ensures var r := SendFrame(a.(frame := ToBcdWrite(a.frame, off, f, 10)), off + 6); var w := LastOut(r);
      && Replied(a, r)
      && |w| == off + 6 && w[..off] == a.frame[..off] && w[off + 5] == FRAME_END
      && ValidBcd(w[off..off + 5]) && FromBcdValue(w[off..], 10) == f % Pow10(10)
  {
    var lf := LowFirst(f, 5);
    var t := ToBcdWrite(a.frame, off, f, 10);
    assert t == a.frame[..off] + lf + a.frame[off + 5..];
    var w := LastOut(SendFrame(a.(frame := t), off + 6));
    assert w == t[off + 5 := FRAME_END][..off + 6];
    assert w[..off] == a.frame[..off];
    assert w[off..off + 5] == lf;
    assert w[off..][..5] == lf;
    DecodesLowFirst(w[off..], f);
  }

  /** C_RD_MODE answers 8 bytes: the active mode's code twice, which reads back as that mode */
  lemma RdModeReply(a: Io)
    requires Framed(a)
    ensures var r := RdMode(a); var v := XToCi(a.radio.CurMode());
      && Replied(a, r) && LastOut(r) == a.frame[..5] + [v, v, FRAME_END]
      && (Known(a.radio.CurMode()) ==> CiToX(v, IsData(a.radio.CurMode())) == Some(a.radio.CurMode()))
  {
    var v := XToCi(a.radio.CurMode());
    assert LastOut(RdMode(a)) == a.frame[..5] + [v, v, FRAME_END];
    if Known(a.radio.CurMode()) {
      ModeRoundTrip(a.radio.CurMode());
    }
  }

  /** C_SET_FREQ: the frequency written is scheduled exactly when it differs from the active one; always acknowledged */
  lemma SetFreqReply(a: Io)
    requires Framed(a)
    ensures var r := SetFreqCmd(a); var f := FromBcdValue(a.frame[5..], 10);
      && RepliedWith(a, r, if f != a.radio.CurFreq() then [Schedule(SetFreq(f))] else [])
      && LastOut(r) == a.frame[..4] + [CODE_OK, FRAME_END]
  {
    var r := SetFreqCmd(a);
    assert LastOut(r) == a.frame[..4] + [CODE_OK, FRAME_END];
  }

  /** The frequency a host writes with the encoding of C_RD_FREQ is the one C_SET_FREQ reads, modulo 10^10 */
  lemma SetFreqReadsEncoding(a: Io, x: u64)
    requires Framed(a) && a.frame[5..10] == LowFirst(x, 5)
    ensures FromBcdValue(a.frame[5..], 10) == x % Pow10(10)
  {
    assert a.frame[5..][..5] == LowFirst(x, 5);
    DecodesLowFirst(a.frame[5..], x);
  }

  /** Ten digits stored low pair first read back as the last ten digits of the number */
  lemma DecodesLowFirst(s: seq<byte>, x: u64)
    requires |s| >= 5 && s[..5] == LowFirst(x, 5)
    ensures FromBcdValue(s, 10) == x % Pow10(10)
  {
    LowFirstRoundTrip(x, 5);
    var v := x % Pow10(10);
    ModBelow(x, Pow10(10));
    DivModUnique(v, 0, v, U64_MOD);
    assert FromBcdValue(s, 10) == ToU64(v);
  }

  /** C_SET_MODE: the mode of the code written is scheduled when it differs from the active one */
  lemma SetModeReply(a: Io, garbage: XMode)
    requires Framed(a)
    ensures var r := SetModeCmd(a, garbage); var m := CiToX(a.frame[5], false).GetOr(garbage);
      && RepliedWith(a, r, if m != a.radio.CurMode() then [Schedule(SetMode(m))] else [])
      && LastOut(r) == a.frame[..4] + [CODE_OK, FRAME_END]
      && (a.frame[5] in {M_LSB, M_USB, M_AM, M_CW, M_NFM, M_CWR} ==> XToCi(m) == a.frame[5] && !IsData(m))
  {
    var r := SetModeCmd(a, garbage);
    assert LastOut(r) == a.frame[..4] + [CODE_OK, FRAME_END];
    if a.frame[5] in {M_LSB, M_USB, M_AM, M_CW, M_NFM, M_CWR} {
      CodeRoundTrip(a.frame[5], false);
    }
  }

  /** A level query answers 9 bytes: the level as 4 valid BCD digits, highest pair first, that read back as it */
  lemma LevelQueryReply(a: Io, l: Level)
    requires Framed(a) && a.frame[6] == FRAME_END
    ensures var r := LevelCmd(a, l); var w := LastOut(r); var v := QueryLevel(l, a.radio.LevelValue(l));
      && Replied(a, r)
      && |w| == 9 && w[..6] == a.frame[..6] && w[8] == FRAME_END
      && ValidBcd(w[6..8]) && BcdToDecimalValue(w[6..], 4) == v % 10000
  {
    var v := QueryLevel(l, a.radio.LevelValue(l));
    QueryReplyBcd(a, v);
  }

  /** The TX power query answers the stored level the same way */
  lemma PwrQueryReply(a: Io)
    requires Framed(a) && a.frame[6] == FRAME_END
    ensures var r := PwrCmd(a); var w := LastOut(r);
      && Replied(a, r)
      && |w| == 9 && w[..6] == a.frame[..6] && w[8] == FRAME_END
      && ValidBcd(w[6..8]) && BcdToDecimalValue(w[6..], 4) == a.radio.pwrLevel % 10000
  {
    QueryReplyBcd(a, a.radio.pwrLevel);
  }

  lemma QueryReplyBcd(a: Io, v: u16)
    requires Framed(a)
    ensures var r := SendFrame(a.(frame := DecimalToBcdWrite(a.frame, 6, v, 4)), 9); var w := LastOut(r);
      && Replied(a, r)
      && |w| == 9 && w[..6] == a.frame[..6] && w[8] == FRAME_END
      && ValidBcd(w[6..8]) && BcdToDecimalValue(w[6..], 4) == v % 10000
  {
    var t := DecimalToBcdWrite(a.frame, 6, v, 4);
    DecimalToBcdLayout(a.frame, 6, v, 4);
    DecimalToBcdRoundTrip(a.frame, 6, v, 4);
    var w := LastOut(SendFrame(a.(frame := t), 9));
    assert w == t[8 := FRAME_END][..9];
    assert w[6..8] == t[6..8];
    BcdPrefix(w[6..], t[6..], 4);
    assert w[..6] == a.frame[..6];
  }

  /** A level set turns the 4 digits written into one step for the radio and acknowledges */
  lemma LevelSetReply(a: Io, l: Level)
    requires Framed(a) && a.frame[6] != FRAME_END
    ensures var r := LevelCmd(a, l); var q := BcdToDecimalValue(a.frame[6..], 4);
      && RepliedWith(a, r, [ChangeLevel(l, SetArg(l, q, a.radio.LevelValue(l)))])
      && LastOut(r) == a.frame[..4] + [CODE_OK, FRAME_END]
  {
    assert LastOut(LevelCmd(a, l)) == a.frame[..4] + [CODE_OK, FRAME_END];
  }

  /** A TX power set hands the digits written to the radio and acknowledges */
  lemma PwrSetReply(a: Io)
    requires Framed(a) && a.frame[6] != FRAME_END
    ensures var r := PwrCmd(a);
      && RepliedWith(a, r, [ChangePwr(BcdToDecimalValue(a.frame[6..], 4))])
      && LastOut(r) == a.frame[..4] + [CODE_OK, FRAME_END]
  {
    assert LastOut(PwrCmd(a)) == a.frame[..4] + [CODE_OK, FRAME_END];
  }

  /** A switch answers its state at byte 6 to a query, or acts and acknowledges there */
  lemma SwitchReply(a: Io, state: byte, act: seq<Effect>)
    requires Framed(a)
    ensures var r := SwitchCmd(a, state, act);
      && RepliedWith(a, r, if a.frame[6] == FRAME_END then [] else act)
      && LastOut(r) == a.frame[..6] + [if a.frame[6] == FRAME_END then state else CODE_OK, FRAME_END]
  {
    var r := SwitchCmd(a, state, act);
    assert LastOut(r) == a.frame[..6] + [if a.frame[6] == FRAME_END then state else CODE_OK, FRAME_END];
  }

  /** C_CTL_ATT, C_CTL_SPLT: a query answers whether the setting is on, anything else toggles it */
  lemma ToggleReply(a: Io, state: nat, act: Effect)
    requires Framed(a)
    ensures var r := ToggleCmd(a, state, act);
      && (a.frame[5] == FRAME_END ==>
            RepliedWith(a, r, []) && LastOut(r) == a.frame[..5] + [NonZero(state), FRAME_END])
      && (a.frame[5] != FRAME_END ==>
            RepliedWith(a, r, [act]) && LastOut(r) == a.frame[..5] + [CODE_OK, a.frame[6], FRAME_END])
  {
    var r := ToggleCmd(a, state, act);
    if a.frame[5] == FRAME_END {
      assert LastOut(r) == a.frame[..5] + [NonZero(state), FRAME_END];
    } else {
      assert LastOut(r) == a.frame[..5] + [CODE_OK, a.frame[6], FRAME_END];
    }
  }

  /** C_SET_VFO: A or B is scheduled unless already active, 0xB0 swaps, anything else is refused */
  lemma SetVfoReply(a: Io)
    requires Framed(a)
    ensures var r := SetVfoCmd(a); var sub := a.frame[5];
      && RepliedWith(a, r,
           if sub == S_VFOA then (if a.radio.vfo != VfoA then [Schedule(SetVfo(VfoA))] else [])
           else if sub == S_VFOB then (if a.radio.vfo != VfoB then [Schedule(SetVfo(VfoB))] else [])
           else if sub == S_XCHNG then [ToggleVfo]
           else [])
      && LastOut(r) == a.frame[..4] + [if sub in {S_VFOA, S_VFOB, S_XCHNG} then CODE_OK else CODE_NG, FRAME_END]
  {
    var r := SetVfoCmd(a);
    assert LastOut(r) == a.frame[..4] + [if a.frame[5] in {S_VFOA, S_VFOB, S_XCHNG} then CODE_OK else CODE_NG, FRAME_END];
  }

  /** C_SEND_SEL_FREQ query: 12 bytes, the target VFO's frequency as 10 valid BCD digits from byte 6 */
  lemma SelFreqQueryReply(a: Io)
    requires Framed(a) && a.frame[6] == FRAME_END
    ensures var r := SelFreq(a); var w := LastOut(r); var f := a.radio.VfoFreq(TargetVfo(a));
      && Replied(a, r)
      && |w| == 12 && w[..6] == a.frame[..6] && w[11] == FRAME_END
      && ValidBcd(w[6..11]) && FromBcdValue(w[6..], 10) == f % Pow10(10)
  {
    FreqReply(a, 6, a.radio.VfoFreq(TargetVfo(a)));
  }

  /**
   * C_SEND_SEL_FREQ set: a frequency different from the target VFO's is
   * stored for that VFO, and scheduled too when the target is the active
   * VFO; the other VFO keeps its frequency; always acknowledged.
   */
  lemma SelFreqSetReply(a: Io)
    requires Framed(a) && a.frame[6] != FRAME_END
    ensures var r := SelFreq(a); var t := TargetVfo(a); var f := FromBcdValue(a.frame[6..], 10);
      && Appended(a.out, r.out, 1) && r.input == a.input
      && LastOut(r) == a.frame[..4] + [CODE_OK, FRAME_END]
      && r.radio.VfoFreq(t) == f
      && r.radio.VfoFreq(Other(t)) == a.radio.VfoFreq(Other(t))
      && (r.radio == a.radio <==> a.radio.VfoFreq(t) == f)
      && r.effects == a.effects + (if a.radio.VfoFreq(t) != f && t == a.radio.vfo then [Schedule(SetFreq(f))] else [])
  {
    var r := SelFreq(a);
    var t := TargetVfo(a);
    var f := FromBcdValue(a.frame[6..], 10);
    assert LastOut(r) == a.frame[..4] + [CODE_OK, FRAME_END];
    if a.radio.VfoFreq(t) != f {
      assert r.radio.VfoFreq(t) != a.radio.VfoFreq(t);
    }
  }

  /** C_SEND_SEL_MODE: a query answers the target's mode code, data flag 0 and filter 1; a set schedules the mode */
  lemma SelModeReply(a: Io, garbage: XMode)
    requires Framed(a)
    ensures var r := SelMode(a, garbage);
      && (a.frame[6] == FRAME_END ==>
            Replied(a, r) && LastOut(r) == a.frame[..6] + [XToCi(a.radio.VfoMode(TargetVfo(a))), 0, 1, FRAME_END])
      && (a.frame[6] != FRAME_END ==>
            RepliedWith(a, r, [Schedule(SetMode(CiToX(a.frame[6], a.frame[7] != 0).GetOr(garbage)))])
            && LastOut(r) == a.frame[..4] + [CODE_OK, FRAME_END])
  {
    var r := SelMode(a, garbage);
    if a.frame[6] == FRAME_END {
      assert LastOut(r) == a.frame[..6] + [XToCi(a.radio.VfoMode(TargetVfo(a))), 0, 1, FRAME_END];
    } else {
      assert LastOut(r) == a.frame[..4] + [CODE_OK, FRAME_END];
    }
  }

  /** C_CTL_MEM: the IF filter query answers the width's index, anything else is refused */
  lemma CtlMemReply(a: Io)
    requires Framed(a)
    ensures var r := CtlMem(a);
      && Replied(a, r)
      && LastOut(r) ==
           if a.frame[5] == MEM_IF_FW && a.frame[6] == FRAME_END
           then a.frame[..6] + [IfBandwidth(a.radio.CurMode(), a.radio.filterBw), FRAME_END]
           else a.frame[..4] + [CODE_NG, FRAME_END]
  {
    var r := CtlMem(a);
    if a.frame[5] == MEM_IF_FW && a.frame[6] == FRAME_END {
      assert LastOut(r) == a.frame[..6] + [IfBandwidth(a.radio.CurMode(), a.radio.filterBw), FRAME_END];
    } else {
      assert LastOut(r) == a.frame[..4] + [CODE_NG, FRAME_END];
    }
  }

  /** C_RD_TRXID: sub-command 0 answers the id 0xA4; any other sub-command gets no answer at all */
  lemma RdTrxIdReply(a: Io)
    requires Framed(a)
    ensures var r := RdTrxId(a);
      && (a.frame[5] == 0 ==> Replied(a, r) && LastOut(r) == a.frame[..6] + [0xA4, FRAME_END])
      && (a.frame[5] != 0 ==> r == a)
  {
    var r := RdTrxId(a);
    if a.frame[5] == 0 {
      assert LastOut(r) == a.frame[..6] + [0xA4, FRAME_END];
    }
  }

  /** The command codes frame_parse has a case for */
  predicate KnownCommand(cmd: byte)
  {
    cmd in {C_RD_FREQ, C_RD_MODE, C_SET_FREQ, C_SET_MODE, C_CTL_LVL, C_CTL_PTT, C_CTL_ATT, C_CTL_FUNC,
            C_SET_VFO, C_SEND_SEL_FREQ, C_CTL_SPLT, C_SEND_SEL_MODE, C_CTL_MEM, C_RD_TRXID}
  }

  /** Any other command is refused with CODE_NG and nothing else */
  lemma UnknownCommandReply(a: Io, garbage: XMode)
    requires Framed(a) && !KnownCommand(a.frame[4])
    ensures var r := Dispatch(a, garbage);
      Replied(a, r) && LastOut(r) == a.frame[..4] + [CODE_NG, FRAME_END]
  {
    assert LastOut(SendCode(a, CODE_NG)) == a.frame[..4] + [CODE_NG, FRAME_END];
  }

  /** The frames that get no answer besides their echo */
  predicate Silent(frame: seq<byte>)
    requires |frame| >= 6
  {
    var cmd := frame[4];
    var sub := frame[5];
    || (cmd == C_RD_TRXID && sub != 0)
    || (cmd == C_CTL_LVL && sub !in {SubCode(Af), SubCode(Rf), SubCode(Sql), SubCode(Nr), SubCode(Nb), PWR_CODE, SubCode(Dnf)})
    || (cmd == C_CTL_PTT && sub !in {0x00, 0x01})
    || (cmd == C_CTL_FUNC && sub !in {0x02, 0x12, 0x40, 0x22, 0x41})
  }

  /** C_CTL_LVL writes no reply exactly when the sub-command is none of its seven */
  lemma CtlLvlSilent(a: Io)
    requires Framed(a)
    ensures var sub := a.frame[5]; var quiet := sub !in {SubCode(Af), SubCode(Rf), SubCode(Sql), SubCode(Nr), SubCode(Nb), PWR_CODE, SubCode(Dnf)};
      && (CtlLvl(a).out == a.out <==> quiet)
      && (quiet ==> CtlLvl(a) == a)
  {
    CtlLvlExclusive(a);
    var sub := a.frame[5];
    if sub == PWR_CODE {
      if a.frame[6] == FRAME_END { PwrQueryReply(a); } else { PwrSetReply(a); }
    } else if sub in {SubCode(Af), SubCode(Rf), SubCode(Sql), SubCode(Nr), SubCode(Nb), SubCode(Dnf)} {
      var l :=
        if sub == SubCode(Af) then Af else if sub == SubCode(Rf) then Rf
        else if sub == SubCode(Sql) then Sql else if sub == SubCode(Nr) then Nr
        else if sub == SubCode(Nb) then Nb else Dnf;
      if a.frame[6] == FRAME_END { LevelQueryReply(a, l); } else { LevelSetReply(a, l); }
    }
  }

  /** C_CTL_PTT writes no reply exactly when the sub-command is neither 0x00 nor 0x01 */
  lemma CtlPttSilent(a: Io)
    requires Framed(a)
    ensures (CtlPtt(a).out == a.out <==> a.frame[5] !in {0x00, 0x01})
    ensures a.frame[5] !in {0x00, 0x01} ==> CtlPtt(a) == a
  {
    CtlPttExclusive(a);
    SwitchReply(a, Flag(!a.radio.rx), PttAct(a.frame[6]));
    SwitchReply(a, NonZero(a.radio.atu), AtuAct(a.frame[6]));
  }

  /** C_CTL_FUNC writes no reply exactly when the sub-command is none of its five */
  lemma CtlFuncSilent(a: Io)
    requires Framed(a)
    ensures (CtlFunc(a).out == a.out <==> a.frame[5] !in {0x02, 0x12, 0x40, 0x22, 0x41})
    ensures a.frame[5] !in {0x02, 0x12, 0x40, 0x22, 0x41} ==> CtlFunc(a) == a
  {
    CtlFuncExclusive(a);
    SwitchReply(a, NonZero(a.radio.pre), [ChangePre]);
    SwitchReply(a, AgcCode(a.radio.agc), [ChangeAgc]);
    SwitchReply(a, Flag(a.radio.nr), [ChangeNr]);
    SwitchReply(a, Flag(a.radio.nb), [ChangeNb]);
    SwitchReply(a, Flag(a.radio.dnf), [ChangeDnf]);
  }

  /** A silent frame leaves everything as it was */
  lemma DispatchQuiet(a: Io, garbage: XMode)
    requires Framed(a) && Silent(a.frame)
    ensures Dispatch(a, garbage) == a
  {
    var cmd := a.frame[4];
    if cmd == C_CTL_LVL { CtlLvlSilent(a); }
    else if cmd == C_CTL_PTT { CtlPttSilent(a); }
    else if cmd == C_CTL_FUNC { CtlFuncSilent(a); }
  }

  /** Every other frame is answered */
  lemma DispatchReplies(a: Io, garbage: XMode)
    requires Framed(a) && !Silent(a.frame)
    ensures Dispatch(a, garbage).out != a.out
  {
    var cmd := a.frame[4];
    if cmd == C_RD_FREQ { RdFreqReply(a); }
    else if cmd == C_RD_MODE { RdModeReply(a); }
    else if cmd == C_SET_FREQ { SetFreqReply(a); }
    else if cmd == C_SET_MODE { SetModeReply(a, garbage); }
    else if cmd == C_CTL_LVL { CtlLvlSilent(a); }
    else if cmd == C_CTL_PTT { CtlPttSilent(a); }
    else if cmd == C_CTL_ATT { ToggleReply(a, a.radio.att, ChangeAtt); }
    else if cmd == C_CTL_FUNC { CtlFuncSilent(a); }
    else if cmd == C_SET_VFO { SetVfoReply(a); }
    else if cmd == C_SEND_SEL_FREQ {
      if a.frame[6] == FRAME_END { SelFreqQueryReply(a); } else { SelFreqSetReply(a); }
    }
    else if cmd == C_CTL_SPLT { ToggleReply(a, a.radio.split, ToggleSplit); }
    else if cmd == C_SEND_SEL_MODE { SelModeReply(a, garbage); }
    else if cmd == C_CTL_MEM { CtlMemReply(a); }
    else if cmd == C_RD_TRXID { RdTrxIdReply(a); }
    else { UnknownCommandReply(a, garbage); }
  }

  /** A command writes no reply exactly for the silent frames, and then does nothing at all */
  lemma DispatchSilentIff(a: Io, garbage: XMode)
    requires Framed(a)
    ensures Dispatch(a, garbage).out == a.out <==> Silent(a.frame)
    ensures Silent(a.frame) ==> Dispatch(a, garbage) == a
  {
    if Silent(a.frame) { DispatchQuiet(a, garbage); } else { DispatchReplies(a, garbage); }
  }

  /** frame_parse on a received frame: the buffer the command sees and the echo written before it runs */
  lemma ParseDispatches(io: Io, len: nat, garbage: XMode)
    requires Received(io, len)
    ensures var a := Answering(io, len);
      && Parse(io, len, garbage) == Dispatch(a, garbage)
      && a.frame[..4] == Header(io.frame) && a.frame[4..] == io.frame[4..]
      && a.out == io.out + [io.frame[..len]]
      && a.input == io.input && a.effects == io.effects && a.radio == io.radio
  {
    AnsweringHeader(io, len);
  }

  /** Only the echo is written exactly for the silent frames */
  lemma ParseSilentIff(io: Io, len: nat, garbage: XMode)
    requires Received(io, len)
    ensures |Parse(io, len, garbage).out| == |io.out| + 1 <==> Silent(io.frame)
  {
    var a := Answering(io, len);
    ParseDispatches(io, len, garbage);
    DispatchSilentIff(a, garbage);
    DispatchAnswers(a, garbage);
    SilentCount(io, a, Dispatch(a, garbage));
  }

  lemma SilentCount(io: Io, a: Io, d: Io)
    requires Framed(io) && Framed(a) && a.frame[4..] == io.frame[4..] && |a.out| == |io.out| + 1
    requires d.out == a.out || Appended(a.out, d.out, 1)
    requires d.out == a.out <==> Silent(a.frame)
    ensures |d.out| == |io.out| + 1 <==> Silent(io.frame)
  {
    assert a.frame[4] == a.frame[4..][0] && a.frame[5] == a.frame[4..][1];
  }

  /** A host reading the frequency: the second frame written is the reply carrying it */
  lemma ParseRdFreq(io: Io, len: nat, garbage: XMode)
    requires Received(io, len) && io.frame[4] == C_RD_FREQ
    ensures var r := Parse(io, len, garbage); var w := r.out[|io.out| + 1];
      && |r.out| == |io.out| + 2 && r.out[|io.out|] == io.frame[..len]
      && |w| == 11 && w[..4] == Header(io.frame) && w[4] == C_RD_FREQ && w[10] == FRAME_END
      && FromBcdValue(w[5..], 10) == io.radio.CurFreq() % Pow10(10)
      && r.effects == io.effects && r.radio == io.radio
  {
    var a := Answering(io, len);
    ParseDispatches(io, len, garbage);
    RdFreqReply(a);
    assert a.frame[4] == io.frame[4];
  }

  /** C_SET_FREQ with the frequency written in the encoding of C_RD_FREQ schedules that frequency unless it is active */
  lemma SetFreqOfEncoding(a: Io, x: u64)
    requires Framed(a) && a.frame[5..10] == LowFirst(x, 5) && x < Pow10(10)
    ensures var r := SetFreqCmd(a);
      && RepliedWith(a, r, if x != a.radio.CurFreq() then [Schedule(SetFreq(x))] else [])
      && LastOut(r) == a.frame[..4] + [CODE_OK, FRAME_END]
  {
    SetFreqReadsEncoding(a, x);
    DivModUnique(x, 0, x, Pow10(10));
    var f := FromBcdValue(a.frame[5..], 10);
    assert f == x;
    SetFreqReply(a);
  }

  /** A host setting the frequency with the encoding it reads it in: that frequency is scheduled unless already active */
  lemma ParseSetFreq(io: Io, len: nat, garbage: XMode, x: u64)
    requires Received(io, len) && io.frame[4] == C_SET_FREQ && io.frame[5..10] == LowFirst(x, 5)
    requires x < Pow10(10)
    ensures var r := Parse(io, len, garbage);
      && |r.out| == |io.out| + 2
      && r.out[|io.out| + 1] == Header(io.frame) + [CODE_OK, FRAME_END]
      && r.effects == io.effects + (if x != io.radio.CurFreq() then [Schedule(SetFreq(x))] else [])
      && r.radio == io.radio
  {
    var a := Answering(io, len);
    ParseDispatches(io, len, garbage);
    assert a.frame[4] == io.frame[4];
    assert a.frame[5..10] == io.frame[5..10] by {
      assert a.frame[4..][1..6] == a.frame[5..10];
      assert io.frame[4..][1..6] == io.frame[5..10];
    }
    SetFreqOfEncoding(a, x);
  }

  /** A host sending an unknown command gets its echo, then CODE_NG */
  lemma ParseUnknown(io: Io, len: nat, garbage: XMode)
    requires Received(io, len) && !KnownCommand(io.frame[4])
    ensures var r := Parse(io, len, garbage);
      && r.out == io.out + [io.frame[..len], Header(io.frame) + [CODE_NG, FRAME_END]]
      && r.effects == io.effects && r.radio == io.radio
  {
    var a := Answering(io, len);
    ParseDispatches(io, len, garbage);
    assert a.frame[4] == io.frame[4];
    UnknownCommandReply(a, garbage);
  }

  /* ---------- one turn of cat_thread ---------- */

  /**
   * A frame that reaches FRAME_END within 256 bytes and is not dropped is
   * parsed with its own length: the echo is exactly the bytes read, and
   * reading resumes right after them.
   */
  lemma StepParses(io: Io, garbage: XMode, k: nat)
    requires 1 <= k < |io.input| && k < FRAME_SIZE && io.input[k] == FRAME_END
    requires forall i :: 0 <= i < k ==> io.input[i] != FRAME_END
    requires io.input[0] == FRAME_PRE || io.input[1] == FRAME_PRE
    ensures StepOutcome(io) == Parsed
    ensures Received(FrameGet(io), k + 1)
    ensures Step(io, garbage) == Parse(FrameGet(io), k + 1, garbage)
    ensures var r := Step(io, garbage);
      && r.input == io.input[k + 1..]
      && |r.out| > |io.out| && r.out[|io.out|] == io.input[..k + 1]
  {
    FetchEnded(io.input, k + 1);
    var g := FrameGet(io);
    assert g.frame[..k + 1][0] == g.frame[0] && g.frame[..k + 1][1] == g.frame[1];
    ParseShape(g, k + 1, garbage);
  }

  /** A frame that starts with neither preamble byte is read and dropped: nothing is written or called */
  lemma StepDrops(io: Io, garbage: XMode, k: nat)
    requires 1 <= k < |io.input| && k < FRAME_SIZE && io.input[k] == FRAME_END
    requires forall i :: 0 <= i < k ==> io.input[i] != FRAME_END
    requires io.input[0] != FRAME_PRE && io.input[1] != FRAME_PRE
    ensures var r := Step(io, garbage);
      && r.input == io.input[k + 1..] && r.out == io.out && r.effects == io.effects && r.radio == io.radio
  {
    FetchEnded(io.input, k + 1);
    var g := FrameGet(io);
    assert g.frame[..k + 1][0] == g.frame[0] && g.frame[..k + 1][1] == g.frame[1];
  }
}
