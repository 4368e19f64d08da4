/**
 * Conversion of a time_t to an MS FILETIME, section 2.3.3 of MS-DTYP: tenths of microseconds
 * since 1601 (lib/curl_ntlm_core.c).
 */
module FileTime {
  const W := 0x1_0000_0000

  /** An `unsigned int`. Arithmetic on it is proved not to overflow unless `Wrap` is written. */
  newtype uint32 = x: int | 0 <= x < 0x1_0000_0000

  function Wrap(x: int): uint32 {
    (x % W) as uint32
  }

  /** The time in tenths of microseconds since 1601. */
  function Ticks(t: int): int {
    (t + 11644473600) * 10000000
  }

  /** The form for a wide time_t: one product, split into its low and high word. */
  function Wide(t: int): (r: (uint32, uint32))
    ensures 0 <= Ticks(t) < W * W ==> r.1 as int * W + r.0 as int == Ticks(t)
  {
    (Wrap(Ticks(t)), Wrap(Ticks(t) / W))
  }

  /** The value of a shift by 0, 8, 16 or 24 bits. */
  function Scale(i: int): int
    requires i in {0, 8, 16, 24}
  {
    if i == 0 then 1 else if i == 8 then 0x100 else if i == 16 then 0x1_0000 else 0x100_0000
  }

  /** The words after the bytes of `low` from bit `i` on have been multiplied. */
  ghost predicate Multiplied(i: int, high0: int, low0: int, high: int, low: int)
    requires i in {0, 8, 16, 24, 32}
  {
    var s := if i == 32 then W else Scale(i);
    && low % s == low0 % s
    && high * W + low == high0 * W + (low0 - low0 % s) * 10000000 + low0 % s
  }

  /** The four scales bytes are read at. */
  predicate IsScale(k: int) {
    k == 1 || k == 0x100 || k == 0x1_0000 || k == 0x100_0000
  }

  /** A number in parts: its multiple of 256, the byte below that, and the rest. */
  lemma {:induction false} Digits(x: int, k: int)
    requires IsScale(k)
    ensures x % (256 * k) == x / k % 256 * k + x % k
  {
    if k == 0x100 {
      Digits8(x);
    } else if k == 0x1_0000 {
      Digits16(x);
    } else if k == 0x100_0000 {
      Digits24(x);
    }
  }

  lemma {:induction false} Digits8(x: int)
    ensures x % 0x1_0000 == x / 0x100 % 256 * 0x100 + x % 0x100
  {
    var q := x / 0x100;
    assert x == 0x100 * q + x % 0x100 && q == 256 * (q / 256) + q % 256;
  }

  lemma {:induction false} Digits16(x: int)
    ensures x % 0x100_0000 == x / 0x1_0000 % 256 * 0x1_0000 + x % 0x1_0000
  {
    var q := x / 0x1_0000;
    assert x == 0x1_0000 * q + x % 0x1_0000 && q == 256 * (q / 256) + q % 256;
  }

  lemma {:induction false} Digits24(x: int)
    ensures x % 0x1_0000_0000 == x / 0x100_0000 % 256 * 0x100_0000 + x % 0x100_0000
  {
    var q := x / 0x100_0000;
    assert x == 0x100_0000 * q + x % 0x100_0000 && q == 256 * (q / 256) + q % 256;
  }

  /** Adding on 32 bits, with the carry read off the wrapped sum. */
  lemma {:induction false} Carry(low: int, add: int)
    requires 0 <= low < W
    ensures (low + add % W) % W == (low + add) % W
    ensures (low + add) / W == add / W + if (low + add % W) % W < add % W then 1 else 0
  {
    var q, r := add / W, add % W;
    assert low + add == W * q + (low + r);
  }

  /** One more byte: the carry out of the low word makes up for what the low word drops. */
  lemma {:induction false} NextByte(i: int, high0: int, low0: int, high: int, low: int, b: int)
    requires i in {0, 8, 16, 24} && 0 <= low0 < W && 0 <= low < W && 0 <= high0 <= 30000000
    requires Multiplied(i + 8, high0, low0, high, low)
    requires b == low / Scale(i) % 256
    ensures var add := b * 9999999 * Scale(i);
      && Multiplied(i, high0, low0, high + (low + add) / W, (low + add) % W)
      && 0 <= high + (low + add) / W < W
  {
    var k := Scale(i);
    Widen(i);
    Digits(low, k);
    Digits(low0, k);
    SameLowDigits(low, low0, k);
    DropMultiple(i, low, b * 9999999);
    assert low0 % (256 * k) <= low0 by { ModBound(i, low0); }
    Totals(high0, low0, high, low, low0 % (256 * k), low0 % k, b * k, b * 9999999 * k);
  }

  lemma {:induction false} Widen(i: int)
    requires i in {0, 8, 16, 24}
    ensures (if i + 8 == 32 then W else Scale(i + 8)) == 256 * Scale(i)
  {
  }

  lemma {:induction false} ModBound(i: int, x: int)
    requires i in {0, 8, 16, 24} && 0 <= x
    ensures x % (256 * Scale(i)) <= x
  {
  }

  lemma {:induction false} Totals(high0: int, low0: int, high: int, low: int, m: int, c: int, bk: int, add: int)
    requires high * W + low == high0 * W + (low0 - m) * 10000000 + m
    requires m == bk + c && add == bk * 9999999 && 0 <= bk && 0 <= c && m <= low0
    requires 0 <= low0 < W && 0 <= low < W && 0 <= high0 <= 30000000
    ensures (high + (low + add) / W) * W + (low + add) % W
         == high0 * W + (low0 - c) * 10000000 + c
    ensures 0 <= high + (low + add) / W < W
  {
  }

  lemma {:induction false} SameLowDigits(x: int, y: int, k: int)
    requires IsScale(k)
    requires x / k % 256 * k + x % k == y / k % 256 * k + y % k
    ensures x / k % 256 == y / k % 256 && x % k == y % k
  {
  }

  lemma {:induction false} DropMultiple(i: int, low: int, n: int)
    requires i in {0, 8, 16, 24}
    ensures (low + n * Scale(i)) % W % Scale(i) == low % Scale(i)
  {
    var y := low + n * Scale(i);
    var z := y / W;
    assert y % W == y - W * z;
    if i == 8 {
      Shift8(low, n - 0x100_0000 * z);
    } else if i == 16 {
      Shift16(low, n - 0x1_0000 * z);
    } else if i == 24 {
      Shift24(low, n - 0x100 * z);
    }
  }

  lemma {:induction false} Shift8(x: int, n: int)
    ensures (x + n * 0x100) % 0x100 == x % 0x100
  {
  }

  lemma {:induction false} Shift16(x: int, n: int)
    ensures (x + n * 0x1_0000) % 0x1_0000 == x % 0x1_0000
  {
  }

  lemma {:induction false} Shift24(x: int, n: int)
    ensures (x + n * 0x100_0000) % 0x100_0000 == x % 0x100_0000
  {
  }

  /** Multiplies the byte of the low word at bit `i`. */
  method MultiplyByte(i: int, low: uint32, high: uint32, ghost low0: int, ghost high0: int)
    returns (low': uint32, high': uint32)
    requires i in {0, 8, 16, 24} && 0 <= low0 < W && 0 <= high0 <= 30000000
    requires Multiplied(i + 8, high0, low0, high as int, low as int)
    ensures Multiplied(i, high0, low0, high' as int, low' as int)
  {
    var b := (low as int / Scale(i) % 256) as uint32;
    var s := b * 9999999;
    ghost var add := b as int * 9999999 * Scale(i);
    NextByte(i, high0, low0, high as int, low as int, b as int);
    Carry(low as int, add);
    assert s as int * Scale(i) == add;
    var r := Wrap(s as int * Scale(i));
    var carry := s as int * Scale(i) / W;
    low' := Wrap(low as int + r as int);
    if low' < r {
      carry := carry + 1;
    }
    high' := (high as int + carry) as uint32;
  }

  /** The time shifted to 1601, as two words. */
  method Bias(t: int, signed: bool) returns (low: uint32, high: uint32)
    requires if signed then -0x8000_0000 <= t < 0x8000_0000 else 0 <= t < W
    ensures high as int * W + low as int == t + 11644473600 && high <= 3
  {
    low, high := Wrap(t), 0;
    if signed && low >= 0x8000_0000 {
      high := 0xFFFF_FFFF;
    }
    var r := low;
    low := Wrap(low as int + 0xB610_9100);
    high := Wrap(high as int + if low < r then 3 else 2);
  }

  /**
   * The form for a 32-bit time_t, on two 32-bit words: the low word is multiplied byte by byte
   * from the top while it is being updated.
   */
  method Limbs(t: int, signed: bool) returns (low: uint32, high: uint32)
    requires if signed then -0x8000_0000 <= t < 0x8000_0000 else 0 <= t < W
    ensures high as int * W + low as int == Ticks(t)
    ensures (low, high) == Wide(t)
  {
    low, high := Bias(t, signed);
    high := high * 10000000;
    ghost var high0, low0 := high as int, low as int;
    var i := 32;
    while i != 0
      invariant i in {0, 8, 16, 24, 32}
      invariant Multiplied(i, high0, low0, high as int, low as int)
      decreases i
    {
      i := i - 8;
      low, high := MultiplyByte(i, low, high, low0, high0);
    }
    WordsUnique(high as int, low as int, Ticks(t));
  }

  lemma {:induction false} WordsUnique(high: int, low: int, v: int)
    requires 0 <= high < W && 0 <= low < W && high * W + low == v
    ensures v % W == low && v / W % W == high
  {
  }
}
