/**
 * The level controls of command 0x14 (C_CTL_LVL). A host reads a level as a
 * number 0..255 scaled from the radio's own range, and writes one back the
 * same way; the firmware turns a written level into the signed step it hands
 * to the matching radio_change_* call, relative to the value the radio holds.
 * All of it is done in the C integer types, whose wrap-around is written out.
 */
module Levels {
  import opened CInt
  import opened Util

  /** The levels with their own arithmetic (TX power is handled apart) */
  datatype Level = Af | Rf | Sql | Nr | Nb | Dnf

  /** The sub-command byte (frame[5]) that selects the level */
  function SubCode(l: Level): byte
  {
    match l
    case Af => 0x01
    case Rf => 0x02
    case Sql => 0x03
    case Nr => 0x06
    case Nb => 0x12
    case Dnf => 0x0D
  }

  /** The sub-command byte of the TX power level */
  const PWR_CODE: byte := 0x0A

  /** The top of the radio's own range: 55 for AF, 60 for NR, 100 for RF, SQL and NB, 3000 Hz for the DNF centre */
  function MaxValue(l: Level): nat
  {
    match l
    case Af => 55
    case Nr => 60
    case Dnf => 3000
    case _ => 100
  }

  /** The bottom of the radio's own range: 100 Hz for the DNF centre, 0 for the others */
  function MinValue(l: Level): nat
  {
    if l == Dnf then 100 else 0
  }

  /**
   * The level a query reports for the radio value `v`, as the uint16_t the
   * C code stores it in: v scaled by 255/max, and v - 100 scaled by 255/2900
   * for the DNF centre, rounded toward zero in (signed) int arithmetic.
   */
  function QueryLevel(l: Level, v: u16): u16
  {
    if l == Dnf then ToU16(CDiv((v - 100) * 255, 2900))
    else ToU16(v * 255 / MaxValue(l))
  }

  /**
   * The argument radio_change_* receives when the host writes level `q`
   * while the radio holds `stored`: the target `ceil(q * max / 255)` minus
   * `stored`, all in uint64_t, divided by the step size 5 for NR and NB, and
   * for the DNF centre rounded up to 50 Hz, offset by 100 Hz and divided by
   * 50; the result is cast to int16_t.
   */
  function SetArg(l: Level, q: u64, stored: u16): i16
  {
    match l
    case Nr => ToI16(ToU64(CeilU64(ToU64(q * 60), 255) - stored) / 5)
    case Nb => ToI16(ToU64(CeilU64(ToU64(q * 100), 255) - stored) / 5)
    case Dnf => ToI16(ToU64(RoundUpToNext50(CeilU64(ToU64(q * 2900), 255)) + 100 - stored) / 50)
    case _ => ToI16(ToU64(CeilU64(ToU64(q * MaxValue(l)), 255) - stored))
  }

  /** The radio value a written level `q` aims at */
  function Target(l: Level, q: u64): int
    requires l != Dnf
  {
    CeilU64(ToU64(q * MaxValue(l)), 255)
  }

  /** `q` is `x / span` rounded down */
  predicate FloorQuotient(q: int, x: int, span: int)
  {
    q * span <= x < q * span + span
  }

  /** Within its range a level reads as 0..255, proportional to the value and rounded down */
  lemma QueryInRange(l: Level, v: u16)
    requires MinValue(l) <= v <= MaxValue(l)
    ensures QueryLevel(l, v) <= 255
    ensures FloorQuotient(QueryLevel(l, v), (v - MinValue(l)) * 255, MaxValue(l) - MinValue(l))
  {
    var span: int := MaxValue(l) - MinValue(l);
    var x: int := (v - MinValue(l)) * 255;
    ScaledQuotient(x, span);
    assert QueryLevel(l, v) == x / span by {
      if l == Dnf {
        assert CDiv(x, 2900) == x / 2900;
      }
      DivModUnique(x / span, 0, x / span, U16_MOD);
    }
  }

  /** `x / span` for `x` in 0..255 * span is a level 0..255, the floor of the quotient */
  lemma ScaledQuotient(x: int, span: int)
    requires span > 0 && 0 <= x <= 255 * span
    ensures 0 <= x / span <= 255
    ensures FloorQuotient(x / span, x, span)
  {
    var q := x / span;
    var r := x % span;
    assert x == q * span + r;
    MulAwayFromZero(q - 255, span);
    assert (q - 255) * span == q * span - 255 * span;
  }

  /** Writing back the level just read aims at the value held */
  lemma ReadBackTarget(l: Level, v: u16)
    requires l != Dnf && v <= MaxValue(l)
    ensures Target(l, QueryLevel(l, v)) == v
  {
    var m := MaxValue(l);
    QueryInRange(l, v);
    CeilOfFloor(v, m, QueryLevel(l, v));
  }

  /** Scaling `v` down by 255/m, rounding down, and back up, rounding up, gives `v` again when m <= 255 */
  lemma CeilOfFloor(v: nat, m: nat, q: nat)
    requires 0 < m <= 255 && v <= m && FloorQuotient(q, v * 255, m)
    ensures CeilU64(ToU64(q * m), 255) == v
  {
    var p: int := q * m;
    var r: int := v * 255 - p;
    assert 0 <= r < m;
    assert 0 <= p <= 255 * 255;
    DivModUnique(p, 0, p, U64_MOD);
    DivModUnique(p + 254, 0, p + 254, U64_MOD);
    DivModUnique(p + 254, v, 254 - r, 255);
  }

  /** ... so it asks radio_change_* for no change */
  lemma ReadBackNoChange(l: Level, v: u16)
    requires l != Dnf && v <= MaxValue(l)
    ensures SetArg(l, QueryLevel(l, v), v) == 0
  {
    ReadBackTarget(l, v);
    var q := QueryLevel(l, v);
    assert CeilU64(ToU64(q * MaxValue(l)), 255) - v == 0;
    assert ToU64(0) == 0;
    if l == Nr || l == Nb {
      assert SetArg(l, q, v) == ToI16(0 / 5);
    } else {
      assert SetArg(l, q, v) == ToI16(0);
    }
  }

  /** The same for the DNF centre, whose values lie on a 50 Hz grid from 100 to 3000 Hz */
  lemma DnfReadBackNoChange(v: u16)
    requires 100 <= v <= 3000 && v % 50 == 0
    ensures SetArg(Dnf, QueryLevel(Dnf, v), v) == 0
  {
    var q: int := QueryLevel(Dnf, v);
    var c: int := CeilU64(ToU64(q * 2900), 255);
    DnfReadBackCeil(v);
    var k := (v - 100) / 50;
    assert v - 100 == 50 * k;
    assert ToU64(c + 49) == c + 49;
    DivModUnique(c + 49, k, c + 49 - 50 * k, 50);
    assert ToU64(k * 50) == k * 50;
    assert RoundUpToNext50(c) == v - 100;
    assert ToU64(RoundUpToNext50(c) + 100 - v) == 0;
    assert SetArg(Dnf, q, v) == ToI16(0 / 50);
  }

  /** Scaling a DNF centre down to its level and back up loses less than 12 Hz */
  lemma DnfReadBackCeil(v: u16)
    requires 100 <= v <= 3000
    ensures var c := CeilU64(ToU64(QueryLevel(Dnf, v) * 2900), 255);
      v - 112 <= c <= v - 100
  {
    var q := (v - 100) * 255 / 2900;
    var r := (v - 100) * 255 % 2900;
    assert QueryLevel(Dnf, v) == q;
    assert (v - 100) * 255 == q * 2900 + r;
    assert ToU64(q * 2900) == q * 2900;
    assert ToU64(q * 2900 + 254) == q * 2900 + 254;
  }

  /** A write whose step fits in int16_t hands radio_change_* exactly the signed difference */
  lemma SetArgExact(l: Level, q: u64, stored: u16)
    requires l in {Af, Rf, Sql} && q <= 9999
    requires -0x8000 <= Target(l, q) - stored < 0x8000
    ensures SetArg(l, q, stored) == Target(l, q) - stored
  {
    var t := Target(l, q);
    assert SetArg(l, q, stored) == ToI16(ToU64(t - stored));
    var d: int := t - stored;
    if d >= 0 {
      DivModUnique(d, 0, d, U64_MOD);
      ToI16Exact(d, 0);
    } else {
      DivModUnique(d, -1, d + U64_MOD, U64_MOD);
      ToI16Exact(d, U64_MOD / U16_MOD);
    }
  }

  /** Raising the NR or NB level hands radio_change_* the number of steps of 5 */
  lemma StepUpExact(l: Level, q: u64, stored: u16)
    requires l in {Nr, Nb} && q <= 9999 && Target(l, q) >= stored
    ensures SetArg(l, q, stored) == (Target(l, q) - stored) / 5
  {
    var t := Target(l, q);
    assert SetArg(l, q, stored) == ToI16(ToU64(t - stored) / 5);
    var d: int := t - stored;
    TargetBound(l, q);
    DivModUnique(d, 0, d, U64_MOD);
    ToI16Exact(d / 5, 0);
  }

  /** A written level up to 9999 aims at most at 40000 */
  lemma TargetBound(l: Level, q: u64)
    requires l != Dnf && q <= 9999
    ensures 0 <= Target(l, q) <= 40000
  {
    var m := MaxValue(l);
    var p: int := q * m;
    assert p <= 9999 * 100;
    DivModUnique(p, 0, p, U64_MOD);
    DivModUnique(p + 254, 0, p + 254, U64_MOD);
    assert Target(l, q) == (p + 254) / 255;
  }

  /**
   * Lowering the NR level does not: the difference wraps in uint64_t before
   * it is divided by 5, so from 60 a written 0 asks for 13095 steps up
   * rather than 12 steps down.
   */
  lemma NrStepDownWraps()
    ensures Target(Nr, 0) - 60 == -60
    ensures SetArg(Nr, 0, 60) == 13095
  {
    assert CeilU64(ToU64(0 * 60), 255) == 0;
    assert SetArg(Nr, 0, 60) == ToI16(ToU64(-60) / 5);
    WrappedStep(-60, 5, 3689348814741910311, 1, 56294995342131, 13095);
  }

  /**
   * The DNF centre shows the same wrap: from 1600 Hz a written 0 asks for
   * 7834 steps up instead of 30 steps down.
   */
  lemma DnfStepDownWraps()
    ensures SetArg(Dnf, 0, 1600) == 7834
  {
    var c := CeilU64(ToU64(0 * 2900), 255);
    assert c == 0;
    var n: int := RoundUpToNext50(c);
    assert n == 0 by {
      assert ToU64(c + 49) == 49;
    }
    WrappedStep(n + 100 - 1600, 50, 368934881474191002, 16, 5629499534213, 7834);
  }

  /** int16_t of a negative uint64_t difference divided by a step, with the quotients given */
  lemma WrappedStep(d: int, step: int, q: int, r: int, hi: int, lo: int)
    requires -U64_MOD <= d < 0 && step > 0 && 0 <= r < step && 0 <= lo < 0x8000
    requires d + U64_MOD == q * step + r && q == hi * U16_MOD + lo
    ensures ToI16(ToU64(d) / step) == lo
  {
    DivModUnique(d, -1, d + U64_MOD, U64_MOD);
    DivModUnique(d + U64_MOD, q, r, step);
    DivModUnique(q, hi, lo, U16_MOD);
  }

  /**
   * Writing 128 aims at 1600 Hz: ceil(128 * 2900 / 255) = 1456, rounded up
   * to 1500, plus 100; from 1600 Hz that is no step, from 1500 Hz two steps.
   */
  lemma DnfMidScale()
    ensures SetArg(Dnf, 128, 1600) == 0
    ensures SetArg(Dnf, 128, 1500) == 2
  {
    assert ToU64(128 * 2900) == 371200;
    assert CeilU64(371200, 255) == 1456 by {
      DivModUnique(371200 + 254, 1456, 174, 255);
    }
    assert RoundUpToNext50(1456) == 1500 by {
      DivModUnique(1456 + 49, 30, 5, 50);
    }
  }

  /** Below 100 Hz the DNF query goes negative and wraps in uint16_t */
  lemma DnfQueryBelowRange()
    ensures QueryLevel(Dnf, 0) == 65528
  {
    assert CDiv(-25500, 2900) == -8;
  }
}
