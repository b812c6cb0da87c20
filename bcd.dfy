/**
 * The two binary-coded-decimal codecs of util.c. A byte holds two decimal
 * digits, the more significant one in the high nibble.
 *
 *  - to_bcd / from_bcd: the LOW digit pair goes into byte 0 (frequencies,
 *    10 digits in 5 bytes);
 *  - decimalToBCD / bcdToDecimal: the HIGH digit pair goes into byte 0
 *    (levels, 4 digits in 2 bytes).
 *
 * The C functions take a pointer into a caller's buffer; here they take the
 * array and an offset. Each method is proved against a function on the
 * buffer's contents, and the round trips are lemmas about those functions.
 */
module Bcd {
  import opened CInt

  function Pow10(n: nat): (r: nat)
    ensures r >= 1
  {
    if n == 0 then 1 else 10 * Pow10(n - 1)
  }

  /** The high nibble of a byte */
  function Hi(b: byte): nat { b / 16 }

  /** The low nibble of a byte */
  function Lo(b: byte): nat { b % 16 }

  /** The two lowest decimal digits of `d` in one byte: tens high, units low */
  function DigitPair(d: nat): (b: byte)
    ensures Hi(b) == d / 10 % 10 && Lo(b) == d % 10
  {
    16 * (d / 10 % 10) + d % 10
  }

  /** The number a byte stands for when read as a digit pair; a nibble above 9
      is not rejected, it simply counts 10..15 as the C arithmetic does */
  function PairValue(b: byte): nat { 10 * Hi(b) + Lo(b) }

  /** Every nibble is a decimal digit */
  predicate ValidBcd(s: seq<byte>)
  {
    forall k :: 0 <= k < |s| ==> Hi(s[k]) <= 9 && Lo(s[k]) <= 9
  }

  /** What is left of `d` once `m` digit pairs have been divided off */
  function DropPairs(d: nat, m: nat): nat
  {
    if m == 0 then d else DropPairs(d / 100, m - 1)
  }

  /* ---------- low pair first (to_bcd / from_bcd) ---------- */

  /** The `m` bytes to_bcd writes for `d`: the units pair first */
  function LowFirst(d: nat, m: nat): (s: seq<byte>)
    ensures |s| == m && ValidBcd(s)
  {
    if m == 0 then [] else [DigitPair(d)] + LowFirst(d / 100, m - 1)
  }

  /** The number a low-pair-first byte string stands for */
  function LowFirstValue(s: seq<byte>): nat
  {
    if s == [] then 0 else PairValue(s[0]) + 100 * LowFirstValue(s[1..])
  }

  /** The odd tail of to_bcd: the byte's high nibble is cleared, its old low
      nibble kept, and the leftover digit or-ed into it */
  function OrLowNibble(b: byte, digit: nat): byte
    requires digit < 10
  {
    (((b as bv8) & 0x0F) | (digit as bv8)) as int
  }

  /** The buffer after to_bcd(&s[off], data, len) */
  function ToBcdWrite(s: seq<byte>, off: nat, data: nat, len: nat): (r: seq<byte>)
    requires off + len / 2 + len % 2 <= |s|
    ensures |r| == |s|
  {
    var m := len / 2;
    var w := s[..off] + LowFirst(data, m) + s[off + m..];
    if len % 2 == 1 then w[off + m := OrLowNibble(s[off + m], DropPairs(data, m) % 10)] else w
  }

  /** The value from_bcd(&s[0], len) returns: an odd length takes the low
      nibble of byte len/2 as the leading digit; the sum wraps in uint64_t */
  function FromBcdValue(s: seq<byte>, len: nat): u64
    requires len / 2 + len % 2 <= |s|
  {
    var m := len / 2;
    var lead := if len % 2 == 1 then Lo(s[m]) else 0;
    ToU64(lead * Pow10(2 * m) + LowFirstValue(s[..m]))
  }

  /* ---------- high pair first (decimalToBCD / bcdToDecimal) ---------- */

  /** The `m` bytes decimalToBCD writes for `d`: the units pair last */
  function HighFirst(d: nat, m: nat): (s: seq<byte>)
    ensures |s| == m && ValidBcd(s)
  {
    if m == 0 then [] else HighFirst(d / 100, m - 1) + [DigitPair(d)]
  }

  /** The number a high-pair-first byte string stands for */
  function HighFirstValue(s: seq<byte>): nat
  {
    if s == [] then 0 else 100 * HighFirstValue(s[..|s| - 1]) + PairValue(s[|s| - 1])
  }

  /** The odd tail of decimalToBCD: the low nibble of byte 0 is cleared and
      the leftover digit or-ed into it */
  function ClearLowOr(b: byte, digit: nat): byte
    requires digit < 10
  {
    (((b as bv8) & 0xF0) | (digit as bv8)) as int
  }

  /** The buffer after decimalToBCD(&s[off], data, len) */
  function DecimalToBcdWrite(s: seq<byte>, off: nat, data: nat, len: nat): (r: seq<byte>)
    requires off + len / 2 <= |s| && (len % 2 == 1 ==> off < |s|)
    ensures |r| == |s|
  {
    var m := len / 2;
    var w := s[..off] + HighFirst(data, m) + s[off + m..];
    if len % 2 == 1 then w[off := ClearLowOr(w[off], DropPairs(data, m) % 10)] else w
  }

  /** The value bcdToDecimal(&s[0], len) returns: an odd length takes the low
      nibble of byte len/2 as the leading digit; the sum wraps in uint64_t */
  function BcdToDecimalValue(s: seq<byte>, len: nat): u64
    requires len / 2 + len % 2 <= |s|
  {
    var m := len / 2;
    var lead := if len % 2 == 1 then Lo(s[m]) else 0;
    ToU64(lead * Pow10(2 * m) + HighFirstValue(s[..m]))
  }

  /* ---------- the C functions ---------- */

  /** to_bcd */
  method ToBcd(a: array<byte>, off: nat, data: u64, len: byte)
    requires off + len / 2 + len % 2 <= a.Length
    modifies a
    ensures a[..] == ToBcdWrite(old(a[..]), off, data, len)
  {
    var d := WriteLowPairs(a, off, data, len / 2);
    if len % 2 == 1 {
      a[off + len / 2] := OrLowNibble(a[off + len / 2], d % 10);
    }
  }

  /** to_bcd's loop: `m` digit pairs of `data`, the units pair first, from a[off]; returns what is left of `data` */
  method WriteLowPairs(a: array<byte>, off: nat, data: nat, m: nat) returns (d: nat)
    requires off + m <= a.Length
    modifies a
    ensures a[..] == old(a[..])[..off] + LowFirst(data, m) + old(a[..])[off + m..]
    ensures d == DropPairs(data, m)
  {
    d := data;
    var i := 0;
    while i < m
      invariant 0 <= i <= m
      invariant LowFirst(data, m) == a[off..off + i] + LowFirst(d, m - i)
      invariant DropPairs(data, m) == DropPairs(d, m - i)
      invariant forall k :: 0 <= k < a.Length && !(off <= k < off + i) ==> a[k] == old(a[k])
    {
      var pair;
      pair, d := TakeLowPair(d);
      a[off + i] := pair;
      assert a[off..off + i + 1] == a[off..off + i] + [pair];
      i := i + 1;
    }
    Splice(old(a[..]), a[..], off, LowFirst(data, m));
  }

  /** The body of to_bcd's loop on the running value: the units digit goes
      to the low nibble, the tens digit to the high one, and two digits are
      dropped */
  method TakeLowPair(d: nat) returns (pair: byte, rest: nat)
    ensures pair == DigitPair(d) && rest == d / 100
  {
    var lo := d % 10;
    rest := d / 10;
    pair := lo + 16 * (rest % 10);    // or-ing into disjoint nibbles is adding
    rest := rest / 10;
    DivTen(d);
  }

  /** from_bcd */
  method FromBcd(a: array<byte>, off: nat, len: byte) returns (data: u64)
    requires off + len / 2 + len % 2 <= a.Length
    ensures data == FromBcdValue(a[off..], len)
  {
    ghost var m := len / 2;
    ghost var s := a[off..];
    ghost var lead := if len % 2 == 1 then Lo(s[m]) else 0;
    data := 0;
    if len % 2 == 1 {
      data := Lo(a[off + len / 2]);
    }
    var i := len / 2;            // the C loop index is i - 1
    while i > 0
      invariant 0 <= i <= m
      invariant data == ToU64(LowAcc(s, lead, i, m))
    {
      i := i - 1;
      LowAccStep(s, lead, i, m);
      data := PairStep(data, Hi(a[off + i]), Lo(a[off + i]), LowAcc(s, lead, i + 1, m));
    }
    assert s[..m] == s[0..m];
  }

  /** The number from_bcd has accumulated once bytes i..m-1 are in */
  ghost function LowAcc(s: seq<byte>, lead: nat, i: nat, m: nat): nat
    requires i <= m <= |s|
  {
    lead * Pow10(2 * (m - i)) + LowFirstValue(s[i..m])
  }

  lemma LowAccStep(s: seq<byte>, lead: nat, i: nat, m: nat)
    requires i < m <= |s|
    ensures LowAcc(s, lead, i, m) == 100 * LowAcc(s, lead, i + 1, m) + PairValue(s[i])
  {
    assert s[i..m][1..] == s[i + 1..m];
    var p := Pow10(2 * (m - i - 1));
    Pow10Pair(m - i - 1);
    var rest := LowFirstValue(s[i + 1..m]);
    assert LowAcc(s, lead, i, m) == lead * (100 * p) + (PairValue(s[i]) + 100 * rest);
    assert lead * (100 * p) == 100 * (lead * p);
  }

  /** One iteration of the decoders' loops: the running value times ten plus
      the high digit, times ten plus the low digit, each step wrapping in
      uint64_t, applied to the wrapped image of `v` */
  method PairStep(data: u64, hi: nat, lo: nat, ghost v: nat) returns (r: u64)
    requires data == ToU64(v)
    ensures r == ToU64(100 * v + 10 * hi + lo)
  {
    r := ToU64(data * 10);
    ModAffine(v, 10, 0, U64_MOD);
    r := ToU64(r + hi);
    ModAffine(v * 10, 1, hi, U64_MOD);
    r := ToU64(r * 10);
    ModAffine(v * 10 + hi, 10, 0, U64_MOD);
    r := ToU64(r + lo);
    ModAffine((v * 10 + hi) * 10, 1, lo, U64_MOD);
  }

  /** decimalToBCD; `data` is a uint16_t */
  method DecimalToBcd(a: array<byte>, off: nat, data: u16, len: byte)
    requires off + len / 2 <= a.Length && (len % 2 == 1 ==> off < a.Length)
    modifies a
    ensures a[..] == DecimalToBcdWrite(old(a[..]), off, data, len)
  {
    var d := WriteHighPairs(a, off, data, len / 2);
    if len % 2 == 1 {
      a[off] := ClearLowOr(a[off], d % 10);
    }
  }

  /** decimalToBCD's loop: `m` digit pairs of `data`, the units pair last, into a[off..off+m]; returns what is left of `data` */
  method WriteHighPairs(a: array<byte>, off: nat, data: nat, m: nat) returns (d: nat)
    requires off + m <= a.Length
    modifies a
    ensures a[..] == old(a[..])[..off] + HighFirst(data, m) + old(a[..])[off + m..]
    ensures d == DropPairs(data, m)
  {
    d := data;
    var i := 0;
    while i < m
      invariant 0 <= i <= m
      invariant HighFirst(data, m) == HighFirst(d, m - i) + a[off + m - i..off + m]
      invariant DropPairs(data, m) == DropPairs(d, m - i)
      invariant forall k :: 0 <= k < a.Length && !(off + m - i <= k < off + m) ==> a[k] == old(a[k])
    {
      var pair := PackPair(d);
      ghost var j := off + m - i;
      ghost var done := a[j..off + m];
      a[off + m - 1 - i] := pair;
      HighStep(data, m, d, m - i, pair, done, a[j - 1..off + m]);
      d := d / 100;
      i := i + 1;
    }
    Splice(old(a[..]), a[..], off, HighFirst(data, m));
  }

  /** One pass of decimalToBCD's loop puts the next pair in front of those written */
  lemma HighStep(data: nat, m: nat, d: nat, n: nat, pair: byte, done: seq<byte>, written: seq<byte>)
    requires n >= 1 && HighFirst(data, m) == HighFirst(d, n) + done
    requires pair == DigitPair(d) && written == [pair] + done
    ensures HighFirst(data, m) == HighFirst(d / 100, n - 1) + written
  {
    assert HighFirst(d, n) == HighFirst(d / 100, n - 1) + [pair];
  }

  /** The byte decimalToBCD's loop builds from the two lowest digits of `d`:
      the tens in the high nibble, the units in the low one */
  method PackPair(d: nat) returns (pair: byte)
    ensures pair == DigitPair(d)
  {
    pair := (d / 10) % 10;
    pair := pair * 16;
    pair := pair + d % 10;    // or-ing into the cleared low nibble is adding
  }

  /** bcdToDecimal */
  method BcdToDecimal(a: array<byte>, off: nat, len: byte) returns (data: u64)
    requires off + len / 2 + len % 2 <= a.Length
    ensures data == BcdToDecimalValue(a[off..], len)
  {
    ghost var m := len / 2;
    ghost var s := a[off..];
    ghost var lead := if len % 2 == 1 then Lo(s[m]) else 0;
    data := 0;
    if len % 2 == 1 {
      data := Lo(a[off + len / 2]);
    }
    var i := 0;
    while i < len / 2
      invariant 0 <= i <= m
      invariant data == ToU64(HighAcc(s, lead, i))
    {
      HighAccStep(s, lead, i);
      data := PairStep(data, Hi(a[off + i]), Lo(a[off + i]), HighAcc(s, lead, i));
      i := i + 1;
    }
  }

  /** The number bcdToDecimal has accumulated once bytes 0..i-1 are in */
  ghost function HighAcc(s: seq<byte>, lead: nat, i: nat): nat
    requires i <= |s|
  {
    lead * Pow10(2 * i) + HighFirstValue(s[..i])
  }

  lemma HighAccStep(s: seq<byte>, lead: nat, i: nat)
    requires i < |s|
    ensures HighAcc(s, lead, i + 1) == 100 * HighAcc(s, lead, i) + PairValue(s[i])
  {
    assert s[..i + 1][..i] == s[..i];
    var p := Pow10(2 * i);
    Pow10Pair(i);
    var acc := HighFirstValue(s[..i]);
    assert HighAcc(s, lead, i + 1) == lead * (100 * p) + (100 * acc + PairValue(s[i]));
    assert lead * (100 * p) == 100 * (lead * p);
  }

  /** A buffer that agrees with `s0` outside [off, off + |mid|) and holds
      `mid` inside it is `s0` with `mid` spliced in */
  lemma Splice(s0: seq<byte>, s1: seq<byte>, off: nat, mid: seq<byte>)
    requires |s0| == |s1| && off + |mid| <= |s0|
    requires s1[off..off + |mid|] == mid
    requires forall k :: 0 <= k < |s0| && !(off <= k < off + |mid|) ==> s1[k] == s0[k]
    ensures s1 == s0[..off] + mid + s0[off + |mid|..]
  {
    var w := s0[..off] + mid + s0[off + |mid|..];
    forall k | 0 <= k < |s1| ensures s1[k] == w[k] {
      if off <= k < off + |mid| {
        assert s1[k] == s1[off..off + |mid|][k - off];
      }
    }
  }

  /* ---------- properties ---------- */

  /** Decoding the low-pair-first bytes of `d` gives back its last 2m digits */
  lemma {:induction false} LowFirstRoundTrip(d: nat, m: nat)
    ensures LowFirstValue(LowFirst(d, m)) == d % Pow10(2 * m)
  {
    if m > 0 {
      var p := Pow10(2 * (m - 1));
      var tail := LowFirst(d / 100, m - 1);
      assert LowFirst(d, m) == [DigitPair(d)] + tail;
      assert LowFirstValue(LowFirst(d, m)) == PairValue(DigitPair(d)) + 100 * LowFirstValue(tail);
      LowFirstRoundTrip(d / 100, m - 1);
      PairValueOfDigitPair(d);
      ModSplit(d, p);
      Pow10Pair(m - 1);
    }
  }

  /** Decoding the high-pair-first bytes of `d` gives back its last 2m digits */
  lemma {:induction false} HighFirstRoundTrip(d: nat, m: nat)
    ensures HighFirstValue(HighFirst(d, m)) == d % Pow10(2 * m)
  {
    if m > 0 {
      var p := Pow10(2 * (m - 1));
      var front := HighFirst(d / 100, m - 1);
      assert HighFirst(d, m) == front + [DigitPair(d)];
      assert (front + [DigitPair(d)])[..m - 1] == front;
      assert HighFirstValue(HighFirst(d, m)) == 100 * HighFirstValue(front) + PairValue(DigitPair(d));
      HighFirstRoundTrip(d / 100, m - 1);
      PairValueOfDigitPair(d);
      ModSplit(d, p);
      Pow10Pair(m - 1);
    }
  }

  /** Re-encoding the value of valid low-pair-first bytes gives the same bytes */
  lemma {:induction false} LowFirstOfValue(s: seq<byte>)
    requires ValidBcd(s)
    ensures LowFirst(LowFirstValue(s), |s|) == s
  {
    if s != [] {
      var rest := LowFirstValue(s[1..]);
      var d := PairValue(s[0]) + 100 * rest;
      assert LowFirstValue(s) == d;
      DivModUnique(d, rest, PairValue(s[0]), 100);
      DigitPairOfValue(s[0], d);
      LowFirstOfValue(s[1..]);
      assert LowFirst(d, |s|) == [DigitPair(d)] + LowFirst(d / 100, |s| - 1);
      assert s == [s[0]] + s[1..];
    }
  }

  /** Re-encoding the value of valid high-pair-first bytes gives the same bytes */
  lemma {:induction false} HighFirstOfValue(s: seq<byte>)
    requires ValidBcd(s)
    ensures HighFirst(HighFirstValue(s), |s|) == s
  {
    if s != [] {
      var n := |s| - 1;
      var rest := HighFirstValue(s[..n]);
      var d := 100 * rest + PairValue(s[n]);
      DivModUnique(d, rest, PairValue(s[n]), 100);
      DigitPairOfValue(s[n], d);
      HighFirstOfValue(s[..n]);
      assert s == s[..n] + [s[n]];
    }
  }

  /** A valid byte is the digit pair of every number ending in its two digits */
  lemma DigitPairOfValue(b: byte, d: nat)
    requires Hi(b) <= 9 && Lo(b) <= 9 && d % 100 == PairValue(b)
    ensures DigitPair(d) == b
  {
    DivTen(d);
    DivModUnique(d % 100, Hi(b), Lo(b), 10);
    DivModUnique(d % 100, d / 10 % 10, d % 10, 10);
  }

  /** from_bcd(to_bcd(d, n), n) == d mod 10^n for every even n */
  lemma ToBcdRoundTrip(s: seq<byte>, off: nat, data: u64, len: nat)
    requires len % 2 == 0 && off + len / 2 <= |s|
    ensures FromBcdValue(ToBcdWrite(s, off, data, len)[off..], len) == data % Pow10(len)
  {
    var m := len / 2;
    var r := ToBcdWrite(s, off, data, len)[off..];
    assert r[..m] == LowFirst(data, m);
    LowFirstRoundTrip(data, m);
    assert len == 2 * m;
    var v := data % Pow10(len);
    ModBelow(data, Pow10(len));
    DivModUnique(v, 0, v, U64_MOD);
    assert FromBcdValue(r, len) == ToU64(v);
  }

  /** bcdToDecimal(decimalToBCD(d, n), n) == d mod 10^n for every even n */
  lemma DecimalToBcdRoundTrip(s: seq<byte>, off: nat, data: u16, len: nat)
    requires len % 2 == 0 && off + len / 2 <= |s|
    ensures BcdToDecimalValue(DecimalToBcdWrite(s, off, data, len)[off..], len) == data % Pow10(len)
  {
    var m := len / 2;
    var r := DecimalToBcdWrite(s, off, data, len)[off..];
    assert r[..m] == HighFirst(data, m);
    HighFirstRoundTrip(data, m);
    assert len == 2 * m;
    var v := data % Pow10(len);
    ModBelow(data, Pow10(len));
    DivModUnique(v, 0, v, U64_MOD);
    assert BcdToDecimalValue(r, len) == ToU64(v);
  }

  /** to_bcd with an even length writes valid BCD into bytes [0, n/2) only,
      the units pair into byte 0 */
  lemma ToBcdLayout(s: seq<byte>, off: nat, data: u64, len: nat)
    requires len % 2 == 0 && 2 <= len && off + len / 2 <= |s|
    ensures var r := ToBcdWrite(s, off, data, len);
      && ValidBcd(r[off..off + len / 2])
      && r[off] == DigitPair(data)
      && forall k :: 0 <= k < |s| && !(off <= k < off + len / 2) ==> r[k] == s[k]
  {
    var r := ToBcdWrite(s, off, data, len);
    assert r[off..off + len / 2] == LowFirst(data, len / 2);
  }

  /** decimalToBCD with an even length writes valid BCD into bytes [0, n/2)
      only, the most significant pair into byte 0 and the units pair last */
  lemma DecimalToBcdLayout(s: seq<byte>, off: nat, data: u16, len: nat)
    requires len % 2 == 0 && 2 <= len && off + len / 2 <= |s|
    ensures var r := DecimalToBcdWrite(s, off, data, len);
      && ValidBcd(r[off..off + len / 2])
      && r[off] == DigitPair(DropPairs(data, len / 2 - 1))
      && r[off + len / 2 - 1] == DigitPair(data)
      && forall k :: 0 <= k < |s| && !(off <= k < off + len / 2) ==> r[k] == s[k]
  {
    var r := DecimalToBcdWrite(s, off, data, len);
    assert r[off..off + len / 2] == HighFirst(data, len / 2);
    HighFirstHead(data, len / 2);
  }

  lemma {:induction false} HighFirstHead(d: nat, m: nat)
    requires m >= 1
    ensures HighFirst(d, m)[0] == DigitPair(DropPairs(d, m - 1))
  {
    if m > 1 {
      HighFirstHead(d / 100, m - 1);
    }
  }

  /** With an odd length to_bcd keeps the byte's old low nibble and ors the
      leftover digit into it: writing 2 over a byte 0x01 reads back as 3 */
  lemma ToBcdOddLength()
    ensures FromBcdValue(ToBcdWrite([0x01], 0, 2, 1), 1) == 3
  {
    assert ToBcdWrite([0x01], 0, 2, 1) == [0x03];
  }

  /** With an odd length decimalToBCD puts the leftover digit over the units of
      byte 0 while bcdToDecimal reads it from byte n/2: 123 reads back as 21 */
  lemma DecimalToBcdOddLength()
    ensures BcdToDecimalValue(DecimalToBcdWrite([0x00, 0x00], 0, 123, 3), 3) == 21
  {
    assert HighFirst(123, 1) == [0x23];
    assert DropPairs(123, 1) == 1;
    assert ClearLowOr(0x23, 1) == 0x21;
    var w := DecimalToBcdWrite([0x00, 0x00], 0, 123, 3);
    assert w == [0x21, 0x00];
    assert HighFirstValue(w[..1]) == 21;
  }

  lemma Pow10Pair(m: nat)
    ensures Pow10(2 * (m + 1)) == 100 * Pow10(2 * m)
  {
    assert Pow10(2 * m + 2) == 10 * Pow10(2 * m + 1);
  }

  lemma ModBelow(d: nat, p: nat)
    requires p >= 1
    ensures d % p <= d
  {
    if d < p {
      DivModUnique(d, 0, d, p);
    }
  }

  /* ---------- arithmetic facts ---------- */

  /** Dividing by ten twice is dividing by a hundred, and the last two digits
      are the last digit plus ten times the one before it */
  lemma DivTen(d: nat)
    ensures d / 10 / 10 == d / 100
    ensures d % 100 == 10 * (d / 10 % 10) + d % 10
  {
    var t := d / 10;
    assert d == 10 * t + d % 10;
    assert t == 10 * (t / 10) + t % 10;
    assert d == (t / 10) * 100 + (10 * (t % 10) + d % 10);
    DivModUnique(d, t / 10, 10 * (t % 10) + d % 10, 100);
  }

  /** Taking `d` modulo 100*p splits into its last pair and the rest modulo p */
  lemma ModSplit(d: nat, p: nat)
    requires p >= 1
    ensures d % (100 * p) == d % 100 + 100 * ((d / 100) % p)
  {
    var q := d / 100;
    assert d == 100 * q + d % 100;
    assert q == p * (q / p) + q % p;
    assert d == (q / p) * (100 * p) + (d % 100 + 100 * (q % p));
    assert 0 <= d % 100 + 100 * (q % p) < 100 * p by {
      assert q % p <= p - 1;
      assert 100 * (q % p) <= 100 * p - 100;
    }
    DivModUnique(d, q / p, d % 100 + 100 * (q % p), 100 * p);
  }

  lemma PairValueOfDigitPair(d: nat)
    ensures PairValue(DigitPair(d)) == d % 100
  {
    DivTen(d);
  }
}
