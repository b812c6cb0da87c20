/**
 * The integer helpers of util.c: rounding divisions, alignment, clamping,
 * frequency splitting and the cyclic search over a bit mask of enabled modes.
 * Every C integer type is modelled by its range (module CInt) and every
 * wrap-around is written out.
 */
module Util {
  import opened CInt

  /** ceil_uint64: the quotient rounded up, by adding denominator - 1 first, in uint64_t */
  function CeilU64(numerator: u64, denominator: u64): u64
    requires denominator > 0
  {
    ToU64(numerator + denominator - 1) / denominator
  }

  /** round_up_to_next_50: add 49, divide by 50 and multiply back, in uint64_t */
  function RoundUpToNext50(number: u64): u64
  {
    ToU64((ToU64(number + 49) / 50) * 50)
  }

  /** align_int: x less its C remainder by the step, x itself for step 0 */
  function AlignInt(x: i32, step: u16): i32
  {
    if step == 0 then x
    else
      AlignIntBounds(x, step);
      x - CRem(x, step)
  }

  /** align_long: x less its remainder by the step, in uint64_t, x itself for step 0 */
  function AlignLong(x: u64, step: u16): u64
  {
    if step == 0 then x else x - x % step
  }

  /** limit */
  function Limit(x: i32, min: i32, max: i32): i32
  {
    if x < min then min
    else if x > max then max
    else x
  }

  /** sign: 1, 0 or -1 as x is positive, zero or negative, computed from the two comparisons */
  function Sign(x: i32): int
  {
    (if x > 0 then 1 else 0) - (if x < 0 then 1 else 0)
  }

  /** The three out-parameters of split_freq */
  datatype FreqParts = FreqParts(mhz: u16, khz: u16, hz: u16)

  /** split_freq: each part is stored into a uint16_t */
  function SplitFreq(freq: u64): FreqParts
  {
    FreqParts(ToU16(freq / 1000000), ToU16((freq / 1000) % 1000), ToU16(freq % 1000))
  }

  /** 2 to the power n */
  function Pow2(n: nat): (r: nat)
    ensures r >= 1
  {
    if n == 0 then 1 else 2 * Pow2(n - 1)
  }

  /** Bit m of the mask is set, so mode m is enabled */
  predicate Enabled(modes: u64, m: int)
  {
    0 <= m < 64 && (modes / Pow2(m)) % 2 == 1
  }

  /** The position `j` steps after `from` on the cycle 0..maxVal */
  function Ahead(from: int, j: int, maxVal: nat): int
  {
    (from + j) % (maxVal + 1)
  }

  /** The position `j` steps before `from` on the cycle 0..maxVal */
  function Behind(from: int, j: int, maxVal: nat): int
  {
    (from - j) % (maxVal + 1)
  }

  /** How many steps upward lead from `from` to `to` on the cycle 0..maxVal, none when they coincide */
  function Distance(from: int, to: int, maxVal: nat): int
  {
    if to >= from then to - from else to - from + maxVal + 1
  }

  /** How many steps upward lead from `from` to `to`, a full turn when they coincide */
  function StepsAhead(from: int, to: int, maxVal: nat): int
  {
    if to > from then to - from else to - from + maxVal + 1
  }

  /** How many steps downward lead from `from` to `to`, a full turn when they coincide */
  function StepsBehind(from: int, to: int, maxVal: nat): int
  {
    if from > to then from - to else from - to + maxVal + 1
  }

  /**
   * loop_modes: from `mode`, step through 0..max_val cyclically in the
   * direction of `dir` until an enabled mode is found; with dir == 0 the
   * current mode is tried first and the search goes upward. The result is
   * enabled and no enabled mode was passed over on the way.
   */
  method LoopModes(dir: i16, mode: int, modes: u64, maxVal: int) returns (r: int)
    requires 0 <= mode <= maxVal < 64
    requires exists e :: 0 <= e <= maxVal && Enabled(modes, e)
    ensures 0 <= r <= maxVal && Enabled(modes, r)
    ensures dir == 0 ==>
      forall j :: 0 <= j < Distance(mode, r, maxVal) ==> !Enabled(modes, Ahead(mode, j, maxVal))
    ensures dir > 0 ==>
      forall j :: 1 <= j < StepsAhead(mode, r, maxVal) ==> !Enabled(modes, Ahead(mode, j, maxVal))
    ensures dir < 0 ==>
      forall j :: 1 <= j < StepsBehind(mode, r, maxVal) ==> !Enabled(modes, Behind(mode, j, maxVal))
  {
    ghost var e :| 0 <= e <= maxVal && Enabled(modes, e);
    // the number of moves after which the search reaches `e`
    ghost var t := Steps(dir, mode, e, maxVal);
    Reach(mode, e, maxVal);
    r := mode;
    ghost var k := 0;
    Wrap(mode, maxVal + 1);
    while true
      invariant 0 <= k <= t <= maxVal + 1 && 0 <= r <= maxVal
      invariant r == Pos(dir, mode, k, maxVal)
      invariant dir != 0 ==> k < t
      invariant forall j :: First(dir) <= j < k + First(dir) ==> !Enabled(modes, Pos(dir, mode, j, maxVal))
      decreases t - k
    {
      if dir != 0 {
        r := Move(dir, r, maxVal, mode, k);
        k := k + 1;
      }
      if Enabled(modes, r) {
        PassedOver(dir, mode, modes, maxVal, k);
        Moves(mode, k, maxVal);
        break;
      }
      if dir == 0 {
        r := Move(dir, r, maxVal, mode, k);
        k := k + 1;
      }
    }
  }

  /** The positions passed over, in the terms of the direction searched */
  lemma PassedOver(dir: int, from: int, modes: u64, maxVal: nat, n: int)
    requires forall j :: First(dir) <= j < n ==> !Enabled(modes, Pos(dir, from, j, maxVal))
    ensures dir == 0 ==> forall j :: 0 <= j < n ==> !Enabled(modes, Ahead(from, j, maxVal))
    ensures dir > 0 ==> forall j :: 1 <= j < n ==> !Enabled(modes, Ahead(from, j, maxVal))
    ensures dir < 0 ==> forall j :: 1 <= j < n ==> !Enabled(modes, Behind(from, j, maxVal))
  {
    if dir == 0 {
      forall j | 0 <= j < n ensures !Enabled(modes, Ahead(from, j, maxVal)) {
        assert Pos(dir, from, j, maxVal) == Ahead(from, j, maxVal);
      }
    } else if dir > 0 {
      forall j | 1 <= j < n ensures !Enabled(modes, Ahead(from, j, maxVal)) {
        assert Pos(dir, from, j, maxVal) == Ahead(from, j, maxVal);
      }
    } else {
      forall j | 1 <= j < n ensures !Enabled(modes, Behind(from, j, maxVal)) {
        assert Pos(dir, from, j, maxVal) == Behind(from, j, maxVal);
      }
    }
  }

  /** Where loop_modes stands after `j` moves in the direction of `dir` */
  ghost function Pos(dir: int, from: int, j: int, maxVal: nat): int
  {
    if dir < 0 then Behind(from, j, maxVal) else Ahead(from, j, maxVal)
  }

  /** The moves it takes to reach `to`: with dir == 0, `from` itself is tried first */
  ghost function Steps(dir: int, from: int, to: int, maxVal: nat): int
  {
    if dir > 0 then StepsAhead(from, to, maxVal)
    else if dir < 0 then StepsBehind(from, to, maxVal)
    else Distance(from, to, maxVal)
  }

  /** The first position loop_modes tests: `from` itself with dir == 0, the next one otherwise */
  ghost function First(dir: int): int
  {
    if dir == 0 then 0 else 1
  }

  /** One move of loop_modes in the direction of `dir`, upward for dir == 0 */
  method Move(dir: int, r: int, maxVal: int, ghost from: int, ghost k: nat) returns (r': int)
    requires 0 <= from <= maxVal && k <= maxVal && r == Pos(dir, from, k, maxVal)
    ensures 0 <= r' <= maxVal && r' == Pos(dir, from, k + 1, maxVal)
  {
    if dir < 0 {
      r' := Down(r, maxVal, from, k);
    } else {
      r' := Up(r, maxVal, from, k);
    }
  }

  /** One upward move of loop_modes, wrapping from max_val to 0 */
  method Up(r: int, maxVal: int, ghost from: int, ghost k: nat) returns (r': int)
    requires 0 <= from <= maxVal && k <= maxVal && r == Ahead(from, k, maxVal)
    ensures 0 <= r' <= maxVal && r' == Ahead(from, k + 1, maxVal)
  {
    Wrap(from + k, maxVal + 1);
    Wrap(from + k + 1, maxVal + 1);
    if r == maxVal { r' := 0; } else { r' := r + 1; }
  }

  /** One downward move of loop_modes, wrapping from 0 to max_val */
  method Down(r: int, maxVal: int, ghost from: int, ghost k: nat) returns (r': int)
    requires 0 <= from <= maxVal && k <= maxVal && r == Behind(from, k, maxVal)
    ensures 0 <= r' <= maxVal && r' == Behind(from, k + 1, maxVal)
  {
    Wrap(from - k, maxVal + 1);
    Wrap(from - k - 1, maxVal + 1);
    if r == 0 { r' := maxVal; } else { r' := r - 1; }
  }

  /** Counting the steps to a target and taking them lands on the target */
  lemma Reach(from: int, to: int, maxVal: nat)
    requires 0 <= from <= maxVal && 0 <= to <= maxVal
    ensures 1 <= StepsAhead(from, to, maxVal) <= maxVal + 1
    ensures 1 <= StepsBehind(from, to, maxVal) <= maxVal + 1
    ensures 0 <= Distance(from, to, maxVal) <= maxVal
    ensures Ahead(from, StepsAhead(from, to, maxVal), maxVal) == to
    ensures Behind(from, StepsBehind(from, to, maxVal), maxVal) == to
    ensures Ahead(from, Distance(from, to, maxVal), maxVal) == to
  {
    Wrap(from + StepsAhead(from, to, maxVal), maxVal + 1);
    Wrap(from - StepsBehind(from, to, maxVal), maxVal + 1);
    Wrap(from + Distance(from, to, maxVal), maxVal + 1);
  }

  /** Taking k steps and then counting the steps back gives k */
  lemma Moves(from: int, k: int, maxVal: nat)
    requires 0 <= from <= maxVal && 0 <= k <= maxVal + 1
    ensures k <= maxVal ==> Distance(from, Ahead(from, k, maxVal), maxVal) == k
    ensures 1 <= k ==> StepsAhead(from, Ahead(from, k, maxVal), maxVal) == k
    ensures 1 <= k ==> StepsBehind(from, Behind(from, k, maxVal), maxVal) == k
  {
    Wrap(from + k, maxVal + 1);
    Wrap(from - k, maxVal + 1);
  }

  /** Reduction modulo n of a value at most one turn outside 0..n-1 */
  lemma Wrap(x: int, n: int)
    requires n > 0 && -n <= x < 2 * n
    ensures x % n == if x < 0 then x + n else if x < n then x else x - n
  {
    if x < 0 {
      DivModUnique(x, -1, x + n, n);
    } else if x < n {
      DivModUnique(x, 0, x, n);
    } else {
      DivModUnique(x, 1, x - n, n);
    }
  }

  /* ---------- properties ---------- */

  /** Without wrap-around, ceil_uint64 is the least multiple count covering the numerator */
  lemma CeilU64Bounds(n: u64, d: u64)
    requires d > 0 && n + d - 1 < U64_MOD
    ensures CeilU64(n, d) * d >= n
    ensures (CeilU64(n, d) - 1) * d < n
  {
    var x := n + d - 1;
    DivModUnique(x, 0, x, U64_MOD);
    var r := x / d;
    assert x == r * d + x % d;
    assert (r - 1) * d == r * d - d;
  }

  /** The sum wraps first: ceil_uint64(2^64 - 1, 2) is 0 */
  lemma CeilU64Wraps()
    ensures CeilU64(U64_MOD - 1, 2) == 0
  {
    assert ToU64(U64_MOD - 1 + 2 - 1) == 0;
  }

  /** Without wrap-around, round_up_to_next_50 gives the least multiple of 50 at or above `x` */
  lemma RoundUpToNext50Bounds(x: u64)
    requires x + 49 < U64_MOD
    ensures RoundUpToNext50(x) % 50 == 0
    ensures x <= RoundUpToNext50(x) < x + 50
  {
    var y := x + 49;
    DivModUnique(y, 0, y, U64_MOD);
    var q := y / 50;
    assert y == q * 50 + y % 50;
    DivModUnique(q * 50, 0, q * 50, U64_MOD);
    DivModUnique(q * 50, q, 0, 50);
  }

  /** x - CRem(x, step) lies between 0 and x, so it is an int32_t again */
  lemma AlignIntBounds(x: i32, step: u16)
    requires step > 0
    ensures x >= 0 ==> 0 <= x - CRem(x, step) <= x && CRem(x, step) < step
    ensures x < 0 ==> x <= x - CRem(x, step) <= 0 && -CRem(x, step) < step
  {
    CRemValue(x, step);
  }

  /** align_int rounds toward zero onto a multiple of the step */
  lemma AlignIntSpec(x: i32, step: u16)
    ensures step == 0 ==> AlignInt(x, step) == x
    ensures step > 0 ==> AlignInt(x, step) % step == 0
    ensures step > 0 && x >= 0 ==> AlignInt(x, step) <= x < AlignInt(x, step) + step
    ensures step > 0 && x < 0 ==> AlignInt(x, step) - step < x <= AlignInt(x, step) <= 0
  {
    if step > 0 {
      AlignIntBounds(x, step);
      var r := x - CRem(x, step);
      if x >= 0 {
        assert r == step * (x / step);
        DivModUnique(r, x / step, 0, step);
      } else {
        var y: int := -(x as int);
        assert r == -(step * (y / step));
        assert r == step * (-(y / step));
        DivModUnique(r, -(y / step), 0, step);
      }
    }
  }

  /** align_long rounds down onto a multiple of the step */
  lemma AlignLongSpec(x: u64, step: u16)
    ensures step == 0 ==> AlignLong(x, step) == x
    ensures step > 0 ==> AlignLong(x, step) % step == 0
    ensures step > 0 ==> AlignLong(x, step) <= x < AlignLong(x, step) + step
  {
    if step > 0 {
      assert x == step * (x / step) + x % step;
      DivModUnique(x - x % step, x / step, 0, step);
    }
  }

  /** With min <= max, limit clamps into [min, max] and keeps a value already inside */
  lemma LimitSpec(x: i32, min: i32, max: i32)
    requires min <= max
    ensures min <= Limit(x, min, max) <= max
    ensures min <= x <= max ==> Limit(x, min, max) == x
    ensures x < min ==> Limit(x, min, max) == min
    ensures x > max ==> Limit(x, min, max) == max
  {
  }

  /** sign is -1, 0 or 1 with the sign of its argument */
  lemma SignSpec(x: i32)
    ensures Sign(x) in {-1, 0, 1}
    ensures Sign(x) == 0 <==> x == 0
    ensures Sign(x) > 0 <==> x > 0
  {
  }

  /** split_freq's kHz and Hz parts are three-digit; below 65536 MHz the parts
      recompose the frequency, above it the MHz part wraps in uint16_t */
  lemma SplitFreqSpec(freq: u64)
    ensures SplitFreq(freq).khz < 1000 && SplitFreq(freq).hz < 1000
    ensures SplitFreq(freq).mhz == (freq / 1000000) % U16_MOD
    ensures freq < 65536 * 1000000 ==>
      SplitFreq(freq).mhz * 1000000 + SplitFreq(freq).khz * 1000 + SplitFreq(freq).hz == freq
  {
    var k := freq / 1000;
    assert freq == k * 1000 + freq % 1000;
    assert k == (k / 1000) * 1000 + k % 1000;
    DivModUnique(freq, k / 1000, k % 1000 * 1000 + freq % 1000, 1000000);
    DivModUnique(k % 1000, 0, k % 1000, U16_MOD);
    DivModUnique(freq % 1000, 0, freq % 1000, U16_MOD);
    if freq < 65536 * 1000000 {
      DivModUnique(freq / 1000000, 0, freq / 1000000, U16_MOD);
    }
  }
}
