# CAT engine of the X6100 GUI, modelled in Dafny

The firmware lets a host computer control the radio over a serial line with
CI-V style frames:

    FE FE <to> <from> <cmd> [<sub>] [<data>...] FD

The engine in `src/cat.c` works in a loop. It reads bytes into a static
256-byte buffer until `FD` arrives. It drops a frame whose first two bytes
are both not the preamble `FE`. Otherwise it echoes the frame and rewrites
the same buffer into the answer: the sender becomes the destination and
`0xA4` the sender. Then it runs the command. A command either writes one
reply or writes nothing, and it calls into the radio at most once. Numbers
travel as binary-coded decimal, using the helpers of `src/util.c`.

The project models both files:

| module | what it holds |
|---|---|
| `CInt` | the C integer types as ranges, with explicit wrap-around, `int16_t` casts, and C's truncating `/` and `%` |
| `Bcd` | the two BCD codecs of `util.c` (`to_bcd`/`from_bcd`, which put the low digit pair first, and `decimalToBCD`/`bcdToDecimal`, which put the high digit pair first) as array methods proved against functions on the buffer, with their round trips |
| `Util` | `ceil_uint64`, `round_up_to_next_50`, `align_int`, `align_long`, `limit`, `sign`, `split_freq`, and the cyclic search `loop_modes` as a loop proved against its specification |
| `Callsign` | `util_canonize_callsign`: the `strtok` token loop as a method, proved equal to a function on tokens, and the properties of that function |
| `Radio` | what the engine reads from the radio (`State`), and the calls it makes into the radio, kept in order as `Effect`s |
| `Translate` | the mode, AGC and filter-width translations of `cat.c` |
| `Levels` | the arithmetic of the `C_CTL_LVL` level queries and sets |
| `Protocol` | the engine as functions on its visible state `Io`: unread input, the frame buffer, the writes to the line, the radio calls and the radio state |
| `ProtocolProps` | what a host can rely on, proved about `Protocol` |
| `Cat` | class `Engine`: the static buffer as an `array`, with each C routine as a method proved to produce the state the matching `Protocol` function gives |

## Model

| member | source | states |
|---|---|---|
| Bcd.ToBcd | src/util.c:90-106 | the buffer afterwards is the old buffer with the `len/2` digit pairs of `data` written from `off`, units pair first; for an odd `len`, the leading digit is or-ed into the low nibble of byte `len/2` |
| Bcd.WriteLowPairs | src/util.c:93-100 | the loop writes exactly `LowFirst(data, m)` into `[off, off+m)`, leaves every other byte alone, and returns what is left of `data` |
| Bcd.TakeLowPair | src/util.c:94-98 | one pass of the loop: the byte holds the two lowest digits, units low and tens high, and the value loses two digits |
| Bcd.FromBcd | src/util.c:125-141 | returns the `uint64_t` value of the digits, read highest pair first from byte `len/2 - 1` down, with the odd leading digit from the low nibble of byte `len/2`, wrapping modulo 2^64 |
| Bcd.PairStep | src/util.c:134-137 | one pass of the decoder loops tracks `100*v + 10*hi + lo` modulo 2^64 |
| Bcd.DecimalToBcd | src/util.c:108-123 | the buffer afterwards is the old one with the `len/2` digit pairs of `data` written from `off`, units pair last; for an odd `len`, the leftover digit replaces the low nibble of byte 0 |
| Bcd.WriteHighPairs | src/util.c:111-117 | the loop writes exactly `HighFirst(data, m)` into `[off, off+m)`, leaves every other byte alone, and returns what is left of `data` |
| Bcd.HighStep | src/util.c:111-117 | each pass puts the next digit pair in front of the pairs already written |
| Bcd.PackPair | src/util.c:112-114 | the byte built holds the tens digit high and the units digit low |
| Bcd.BcdToDecimal | src/util.c:143-159 | returns the `uint64_t` value of the digits, read from byte 0 upward, with the odd leading digit from byte `len/2`, wrapping modulo 2^64 |
| Bcd.LowFirstRoundTrip | src/util.c:90-141 | decoding the low-pair-first bytes of `d` gives back the last `2m` digits of `d` |
| Bcd.HighFirstRoundTrip | src/util.c:108-159 | decoding the high-pair-first bytes of `d` gives back the last `2m` digits of `d` |
| Bcd.LowFirstOfValue | src/util.c:90-141 | valid low-pair-first BCD bytes are re-encoded from their value byte for byte |
| Bcd.HighFirstOfValue | src/util.c:108-159 | valid high-pair-first BCD bytes are re-encoded from their value byte for byte |
| Bcd.ToBcdRoundTrip | src/util.c:90-141 | for every even length n, `from_bcd` after `to_bcd` gives the data modulo 10^n |
| Bcd.DecimalToBcdRoundTrip | src/util.c:108-159 | for every even length n, `bcdToDecimal` after `decimalToBCD` gives the data modulo 10^n |
| Bcd.ToBcdLayout | src/util.c:90-106 | an even-length `to_bcd` writes valid BCD into its `n/2` bytes only, with the units pair in the first byte |
| Bcd.DecimalToBcdLayout | src/util.c:108-123 | an even-length `decimalToBCD` writes valid BCD into its `n/2` bytes only, with the top pair first and the units pair last |
| Bcd.ToBcdOddLength | src/util.c:102-105 | an odd length keeps the old low nibble: writing 2 over a byte `0x01` reads back as 3 |
| Bcd.DecimalToBcdOddLength | src/util.c:119-122 | an odd length writes the leftover digit into byte 0, but the decoder reads it from byte `n/2`: 123 reads back as 21 |
| Util.CeilU64Bounds | src/util.c:161-163 | without wrap-around, `ceil_uint64` returns the least quotient whose multiple covers the numerator |
| Util.CeilU64Wraps | src/util.c:161-163 | the sum wraps first: `ceil_uint64(2^64-1, 2)` is 0 |
| Util.RoundUpToNext50Bounds | src/util.c:165-167 | without wrap-around, the result is the least multiple of 50 at or above the input |
| Util.AlignIntBounds | src/util.c:45-51 | `x - x % step` with C's remainder lies between 0 and x, so it fits in `int32_t` |
| Util.AlignIntSpec | src/util.c:45-51 | step 0 returns x; otherwise the result is a multiple of the step, less than one step from x toward zero |
| Util.AlignLongSpec | src/util.c:53-59 | step 0 returns x; otherwise the result is the largest multiple of the step at or below x |
| Util.LimitSpec | src/util.c:61-69 | with min <= max the result lies in [min, max], equals x inside that range, and equals the bound x crosses |
| Util.SignSpec | src/util.c:202-204 | the result is -1, 0 or 1, zero exactly for 0 and positive exactly for positive x |
| Util.SplitFreqSpec | src/util.c:39-43 | the kHz and Hz parts are below 1000; the MHz part wraps in `uint16_t`; below 65536 MHz the parts recompose the frequency |
| Util.LoopModes | src/util.c:169-200 | returns an enabled mode in 0..max_val; no enabled mode is passed over on the way (from the current mode upward for dir 0, from the next mode in the direction of dir otherwise) |
| Util.PassedOver | src/util.c:169-200 | the modes the loop tested are those ahead of or behind the start, as the direction says |
| Util.Move | src/util.c:171-184 | one move of the loop goes up or down one place on the cycle 0..max_val, as dir says |
| Util.Up | src/util.c:172-176 | the upward move wraps from max_val to 0 |
| Util.Down | src/util.c:180-184 | the downward move wraps from 0 to max_val |
| Util.Reach | src/util.c:169-200 | from any mode, counting steps up or down to a target and taking them lands on the target within one turn, so the loop ends |
| Util.Moves | src/util.c:169-200 | counting the steps back after k moves gives k |
| Callsign.CanonizeCallsign | src/util.c:280-315 | the token loop returns what `Canonize` gives: NULL stays NULL, otherwise the first qualifying token, the unbracketed call, or a copy |
| Callsign.RunLengthAt | src/util.c:287-299 | the run the loop measures is the token `strtok` returns next |
| Callsign.TokensWellFormed | src/util.c:287-299 | `strtok` tokens are non-empty and contain no `/` |
| Callsign.TokensOfJoin | src/util.c:287-299 | `strtok` recovers the tokens a callsign was written from |
| Callsign.FirstQualifyingSpec | src/util.c:289-296 | the search returns nothing exactly when no token qualifies; otherwise it returns a qualifying token that no earlier token beats |
| Callsign.StripSpec | src/util.c:286-314 | with slash stripping, the callsign is kept whole when no token qualifies; otherwise the result is the first qualifying token, which contains no `/` |
| Callsign.UnwrapSpec | src/util.c:302-314 | without slash stripping, `<t>` gives t, and a callsign not in angle brackets is copied unchanged |
| Callsign.StripIdempotent | src/util.c:286-314 | stripping slashes from the result again changes nothing |
| Callsign.PortableCall | src/util.c:286-314 | a prefix and a suffix that do not look like calls are dropped around a call that does |
| Callsign.NoCallKept | src/util.c:286-314 | two tokens neither of which looks like a call are kept together with their `/` |
| Callsign.PortableExample | src/util.c:286-314 | `EA/R2RFE/P` becomes `R2RFE` |
| Translate.CiToX | src/cat.c:198-225 | a mode results exactly for the six codes with a case, and it is a data mode exactly when the data flag is set and the code is LSB or USB |
| Translate.ModeRoundTrip | src/cat.c:198-254 | every mode with a code comes back from its code and its data flag |
| Translate.CodeRoundTrip | src/cat.c:198-254 | every code with a case comes back from its mode |
| Translate.XToCiCollisions | src/cat.c:227-254 | two known modes (those with a CAT code) share a code exactly when they are equal or differ only in the data flag |
| Translate.AgcCode | src/cat.c:256-277 | the code is at most 3, and 0 for an AGC mode without a case |
| Translate.AgcCodeInjective | src/cat.c:256-277 | the four named AGC modes have distinct codes |
| Translate.SsbIndexRoundTrip | src/cat.c:279-303 | every width of the SSB/CW table reads back as its own index |
| Translate.AmIndexRoundTrip | src/cat.c:279-303 | every width of the AM/NFM table reads back as its own index |
| Translate.SsbIndexNearestNarrow | src/cat.c:279-303 | an SSB/CW width up to 500 Hz reads as the index of the entry within 25 Hz |
| Translate.SsbIndexNearestWide | src/cat.c:279-303 | a wider SSB/CW width reads as the index of the entry within 50 Hz |
| Translate.OtherModeIndex | src/cat.c:279-303 | modes outside both tables report index 31 |
| Translate.ZeroWidthWraps | src/cat.c:279-303 | a zero width wraps in `uint32_t`: index 81 for SSB/CW, 19 for AM/NFM |
| Levels.QueryInRange | src/cat.c:370-460 | within its range, a level reads as 0..255, the floor of the value scaled by 255 over the span |
| Levels.ReadBackTarget | src/cat.c:370-434 | writing back the level just read aims at the value the radio holds |
| Levels.ReadBackNoChange | src/cat.c:370-434 | so the write asks the radio for a step of 0 |
| Levels.DnfReadBackNoChange | src/cat.c:448-460 | the same holds for a DNF centre on the 50 Hz grid from 100 to 3000 Hz |
| Levels.DnfReadBackCeil | src/cat.c:448-460 | scaling a DNF centre down and back up loses less than 12 Hz before the 100 Hz offset is added back |
| Levels.SetArgExact | src/cat.c:370-408 | for AF, RF and SQL, a step that fits in `int16_t` is exactly the target minus the stored value |
| Levels.StepUpExact | src/cat.c:409-434 | raising NR or NB asks for the difference in steps of 5 |
| Levels.TargetBound | src/cat.c:370-434 | a written level up to 9999 aims at most at 40000 |
| Levels.NrStepDownWraps | src/cat.c:409-421 | lowering NR from 60 to 0 wraps in `uint64_t` before the division: 13095 steps up instead of 12 down |
| Levels.DnfStepDownWraps | src/cat.c:448-460 | lowering the DNF centre from 1600 Hz to 0 asks for 7834 steps up |
| Levels.DnfMidScale | src/cat.c:448-460 | writing 128 aims at 1600 Hz: no step from 1600 Hz, two steps from 1500 Hz |
| Levels.DnfQueryBelowRange | src/cat.c:448-452 | a DNF centre of 0 reads as 65528, wrapped in `uint16_t` |
| Protocol.FrameEndIs | src/cat.c:138-156 | scanning byte by byte finds the first `FD`, or the end of the input |
| Protocol.FetchEnded | src/cat.c:132-157 | an `FD` at index len-1, the first one, ends the frame: `len` is returned, the rest of the buffer is zero, and reading resumes after it |
| Protocol.FetchFull | src/cat.c:147-149 | 256 bytes without `FD` fill the buffer, and 0 is returned |
| Protocol.FetchStarved | src/cat.c:138-154 | input that ends early is all stored, and `frame_get` keeps waiting |
| ProtocolProps.FetchedFrameWellFormed | src/cat.c:132-157 | a frame returned ends in its only `FD`, and the input is the frame followed by what is left |
| ProtocolProps.LevelCmdSub | src/cat.c:370-460 | a level branch leaves the sub-command byte as it was, or `FD` after an acknowledgement |
| ProtocolProps.PwrCmdSub | src/cat.c:435-447 | so does the TX power branch |
| ProtocolProps.LevelIfPass | src/cat.c:370-460 | an `if` whose sub-command is not in byte 5 passes the buffer on unchanged |
| ProtocolProps.PwrIfPass | src/cat.c:435-447 | so does the TX power `if` |
| ProtocolProps.CtlLvlLevel | src/cat.c:369-462 | with a level's sub-command in byte 5, only that level's branch takes effect |
| ProtocolProps.CtlLvlPwr | src/cat.c:369-462 | with the TX power sub-command, only its branch takes effect |
| ProtocolProps.CtlLvlExclusive | src/cat.c:369-462 | the chain of `if`s behaves as one switch on the sub-command: no second branch fires after the first rewrote byte 5 |
| ProtocolProps.SwitchCmdSub | src/cat.c:492-603 | a switch branch leaves the sub-command byte alone |
| ProtocolProps.CtlPttExclusive | src/cat.c:492-530 | the `if`s of `C_CTL_PTT` behave as one switch |
| ProtocolProps.CtlFuncExclusive | src/cat.c:543-603 | the `if`s of `C_CTL_FUNC` behave as one switch |
| ProtocolProps.DispatchAnswers | src/cat.c:338-728 | whatever the command, at most one reply is written, with the prepared header and a final `FD`; at most one radio call is made; only `C_SEND_SEL_FREQ` changes radio state |
| ProtocolProps.AnsweringHeader | src/cat.c:334-337 | before the command runs, the frame has been echoed and the header holds bytes 0 and 1 as received, then `<from> A4`; the rest of the frame is unchanged |
| ProtocolProps.ParseShape | src/cat.c:320-729 | a frame not dropped is echoed first, then answered at most once, to its sender; at most one radio call follows |
| ProtocolProps.ParseDropsIff | src/cat.c:321-324 | `frame_parse` changes nothing exactly when neither of the first two bytes is `FE` |
| ProtocolProps.RdFreqReply | src/cat.c:340-344 | the 11-byte reply carries the active frequency as 10 valid BCD digits that decode to it modulo 10^10 |
| ProtocolProps.FreqReply | src/cat.c:340-344 | a frequency written at byte 5 or 6 and sent decodes to the frequency modulo 10^10 |
| ProtocolProps.RdModeReply | src/cat.c:345-351 | the 8-byte reply carries the active mode's code twice, and that code decodes back to the mode |
| ProtocolProps.SetFreqReply | src/cat.c:352-360 | the frequency written is scheduled exactly when it differs from the active one; the command is always acknowledged with `FB` |
| ProtocolProps.SetFreqReadsEncoding | src/cat.c:340-360 | a frequency written in the encoding `C_RD_FREQ` uses is read back modulo 10^10 |
| ProtocolProps.DecodesLowFirst | src/cat.c:352-353 | ten digits stored low pair first decode to the last ten digits of the number |
| ProtocolProps.SetModeReply | src/cat.c:361-368 | the mode of the code is scheduled when it differs from the active one, and a known code gives a non-data mode with that code; always acknowledged |
| ProtocolProps.LevelQueryReply | src/cat.c:370-460 | a level query's 9-byte reply carries the scaled level as 4 valid BCD digits that decode to it modulo 10^4 |
| ProtocolProps.PwrQueryReply | src/cat.c:435-439 | the TX power query's reply carries the stored power level the same way |
| ProtocolProps.QueryReplyBcd | src/cat.c:372-374 | a level written at byte 6 and sent decodes to the level modulo 10^4 |
| ProtocolProps.LevelSetReply | src/cat.c:375-381 | a level set makes one radio call with the step computed from the 4 digits written and the stored value, then acknowledges |
| ProtocolProps.PwrSetReply | src/cat.c:440-446 | a TX power set hands the digits written to the radio and acknowledges |
| ProtocolProps.SwitchReply | src/cat.c:493-603 | a switch answers its state at byte 6 to a query, or acts and acknowledges there |
| ProtocolProps.ToggleReply | src/cat.c:531-542 | `C_CTL_ATT` and `C_CTL_SPLT` answer whether the setting is on, or toggle it and answer `FB` at byte 5 in an 8-byte frame |
| ProtocolProps.SetVfoReply | src/cat.c:604-638 | A or B is scheduled unless already active, `B0` swaps the VFOs, anything else is refused with `FA` |
| ProtocolProps.SelFreqQueryReply | src/cat.c:639-647 | the 12-byte reply carries the target VFO's frequency as 10 valid BCD digits |
| ProtocolProps.SelFreqSetReply | src/cat.c:639-659 | a new frequency is stored for the target VFO and scheduled when that VFO is active; the other VFO keeps its own frequency; the radio state changes exactly when the frequency differs |
| ProtocolProps.SelModeReply | src/cat.c:678-695 | a query answers the target VFO's mode code, data flag 0 and filter 1; a set schedules the mode of the code and the data flag |
| ProtocolProps.CtlMemReply | src/cat.c:696-716 | only the IF filter query is answered with the width index; everything else gets `FA` |
| ProtocolProps.RdTrxIdReply | src/cat.c:717-723 | sub-command 0 answers the id `A4`; any other sub-command gets no answer at all |
| ProtocolProps.UnknownCommandReply | src/cat.c:724-727 | an unknown command is refused with `FA` and nothing else |
| ProtocolProps.CtlLvlSilent | src/cat.c:369-462 | `C_CTL_LVL` writes no reply exactly when the sub-command is none of its seven, and then does nothing |
| ProtocolProps.CtlPttSilent | src/cat.c:492-530 | `C_CTL_PTT` writes no reply exactly when the sub-command is neither 0 nor 1 |
| ProtocolProps.CtlFuncSilent | src/cat.c:543-603 | `C_CTL_FUNC` writes no reply exactly when the sub-command is none of its five |
| ProtocolProps.DispatchQuiet | src/cat.c:338-728 | a frame that gets no reply leaves everything as it was |
| ProtocolProps.DispatchReplies | src/cat.c:338-728 | every other frame is answered |
| ProtocolProps.DispatchSilentIff | src/cat.c:338-728 | a command writes no reply exactly for the silent frames, and then does nothing at all |
| ProtocolProps.ParseDispatches | src/cat.c:320-339 | `frame_parse` echoes the frame, prepares the header, and runs the command on the rest of the frame unchanged |
| ProtocolProps.ParseSilentIff | src/cat.c:320-729 | only the echo is written exactly for the silent frames |
| ProtocolProps.ParseRdFreq | src/cat.c:334-344 | a host reading the frequency gets the echo, then an 11-byte reply to it that decodes to the active frequency |
| ProtocolProps.SetFreqOfEncoding | src/cat.c:352-360 | a frequency written in the `C_RD_FREQ` encoding is scheduled unless it is the active one |
| ProtocolProps.ParseSetFreq | src/cat.c:334-360 | a host setting the frequency in that encoding gets the echo and `FB`, and the frequency is scheduled unless active |
| ProtocolProps.ParseUnknown | src/cat.c:334-337 | a host sending an unknown command gets the echo, then `FA` |
| ProtocolProps.StepParses | src/cat.c:731-739 | a frame that ends within 256 bytes and is not dropped is parsed with its own length; the echo is exactly the bytes read, and reading resumes after them |
| ProtocolProps.StepDrops | src/cat.c:731-739 | a frame with neither preamble byte is read and dropped: nothing is written or called |
| Cat.Engine.constructor | src/cat.c:118-120 | the static buffer starts zeroed, and nothing has been written or called |
| Cat.Engine.Clear | src/cat.c:136 | the buffer is all zeros |
| Cat.Engine.FrameGet | src/cat.c:132-157 | the loop leaves the buffer, the returned length and the unread input exactly as `FetchFrame` describes |
| Cat.Engine.PrepareAnswer | src/cat.c:159-163 | the sender address becomes the destination and `A4` the sender |
| Cat.Engine.SendFrame | src/cat.c:165-168 | byte len-1 becomes `FD`, and the first len bytes are written |
| Cat.Engine.SendCode | src/cat.c:170-173 | the code goes to byte 4, and a 6-byte frame is sent |
| Cat.Engine.Emit | src/cat.c:355-356 | a radio call is appended to the calls made, and nothing else changes |
| Cat.Engine.RdFreq | src/cat.c:340-344 | the new state is `Protocol.RdFreq` of the old one |
| Cat.Engine.RdMode | src/cat.c:345-351 | the new state is `Protocol.RdMode` of the old one |
| Cat.Engine.SetFreqCmd | src/cat.c:352-360 | the new state is `Protocol.SetFreqCmd` of the old one |
| Cat.Engine.SetModeCmd | src/cat.c:361-368 | the new state is `Protocol.SetModeCmd` of the old one |
| Cat.Engine.LevelCmd | src/cat.c:370-460 | the new state is `Protocol.LevelCmd` of the old one |
| Cat.Engine.PwrCmd | src/cat.c:435-447 | the new state is `Protocol.PwrCmd` of the old one |
| Cat.Engine.LevelIf | src/cat.c:370-460 | one `if` of the chain leaves the state `Protocol.LevelIf` gives |
| Cat.Engine.CtlLvl | src/cat.c:369-462 | the new state is `Protocol.CtlLvl` of the old one |
| Cat.Engine.SwitchCmd | src/cat.c:493-603 | the new state is `Protocol.SwitchCmd` of the old one |
| Cat.Engine.CtlPtt | src/cat.c:492-530 | the new state is `Protocol.CtlPtt` of the old one |
| Cat.Engine.ToggleCmd | src/cat.c:531-542 | the new state is `Protocol.ToggleCmd` of the old one |
| Cat.Engine.CtlFunc | src/cat.c:543-603 | the new state is `Protocol.CtlFunc` of the old one |
| Cat.Engine.SetVfoCmd | src/cat.c:604-638 | the new state is `Protocol.SetVfoCmd` of the old one |
| Cat.Engine.SelFreq | src/cat.c:639-659 | the new state is `Protocol.SelFreq` of the old one |
| Cat.Engine.SelMode | src/cat.c:678-695 | the new state is `Protocol.SelMode` of the old one |
| Cat.Engine.CtlMem | src/cat.c:696-716 | the new state is `Protocol.CtlMem` of the old one |
| Cat.Engine.RdTrxId | src/cat.c:717-723 | the new state is `Protocol.RdTrxId` of the old one |
| Cat.Engine.Dispatch | src/cat.c:339-728 | the new state is `Protocol.Dispatch` of the old one |
| Cat.Engine.FrameParse | src/cat.c:320-729 | the new state is `Protocol.Parse` of the old one, so every `ProtocolProps` lemma about `Parse` holds of the engine |
| Cat.Engine.Step | src/cat.c:731-739 | one turn of the thread leaves the state `Protocol.Step` gives and reports how it ended |

## Left out

- `cat_init` is left out: it sets up the GPIO, the UART and the thread. The serial line is modelled as the input sequence and the list of frames written.
- The `read` retry with `usleep` is modelled as waiting: when the input runs out, a turn ends as `Starved`.
- `log_msg` and the `LV_LOG_*` messages are left out because they only produce diagnostics.
- UI side effects are left out: `info_params_set`, `waterfall_set_freq`, `spectrum_clear`, `main_screen_band_set`, `msg_update_text_fmt` and `msg_tiny_set_text_fmt`. They do not touch the frame or the radio state the engine reads.
- The bodies of the `radio_*`, `params_*` and `scheduler_put` calls are foreign code. The engine reads their results as the `State` value, and each call it makes is recorded as an `Effect`. Only `params_band_vfo_freq_set` changes the modelled state, because `C_SEND_SEL_FREQ` reads it back. The getters `params_band_cur_freq_get` and `params_band_cur_mode_get` are not part of this model; `Radio.State.CurFreq` and `Radio.State.CurMode` assume they read the entry of the active VFO.
- The callbacks `set_freq` and `set_vfo` run later on another thread. The model records what is scheduled, not what it does.
- Util.LoopModes: requires `0 <= mode <= max_val < 64` and at least one enabled mode in 0..max_val, and promises nothing outside them. On those inputs the C loop misbehaves. With no enabled mode in range (for example `modes == 0`) it never returns. With `mode > max_val` and `dir == 0` it can return a mode above `max_val`. With `max_val >= 64`, the shift `1LL << mode` is undefined.
- `handle_level_change` and the commented-out `C_CTL_LVL` variant are left out, because nothing calls them.
- `Radio.State.LevelValue` stands for two C values with one: the value `radio_change_*(0)` returns for a query, and the stored parameter a set subtracts. The model assumes they agree.
- Protocol.PwrCmd and Cat.Engine.PwrCmd: do not model the TX power arithmetic, because the power is a floating-point value in the radio code. The query reports the stored level `pwrLevel` directly, where the C code computes `pwr * 255 / 10`. The set records the decoded digits in `ChangePwr` instead of `(ceil(q*10/255) - pwr) * 10`.
- ProtocolProps.PwrQueryReply: states the reply in terms of the stored level, for the same reason.
- ProtocolProps.PwrSetReply: states the call made with the digits written, for the same reason.
- A 256-byte frame without `FD` makes `frame_get` return 0. `frame_parse(0)` then writes `FD` to `frame[-1]`, outside the buffer. The model stops there and reports `Overflow(true)` unless the frame is dropped.
- A mode code `ci_mode_2_x_mode` has no case for gives an uninitialised `x6100_mode_t` in C. The model takes that value as the parameter `garbage`.
- `util_canonize_callsign` reads `token[1]` and `token[2]` of a token shorter than three characters. For an inner token these are the NUL that `strtok` wrote and the next byte of the copy. For a one-character last token (the whole callsign `K`, or `EA/K`), `token[2]` is one byte past the copy `strdup` allocated: an out-of-bounds read, which is undefined behaviour. The length test rejects every such token anyway, so the model checks the digits only within the token.
- Callsign works on `string`, where the C code works on bytes and counts them with `strlen`. Each character stands for one byte of an ASCII string with no NUL. With multi-byte UTF-8 input the two counts differ: `1éé` is 5 bytes and qualifies in C, but is 3 characters in the model.
- The heap (`strdup`, `free`) is left out; a returned copy is a value.
- The other helpers of `util.c` (time formatting, RMS, DSP helpers) are not part of the CAT engine and are not modelled.
- Where the prose description of the protocol and the code differ, the model follows the code. For example, `C_RD_TRXID` with a sub-command other than 0 gets no answer at all, and `C_CTL_ATT` acknowledges in an 8-byte frame.
