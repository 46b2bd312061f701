/**
 The power-of-two functions of memory/bit_staff.hpp. A 64-bit word is its unsigned value; shifts, `&` and
 `|` are given by what they do to the binary digits.
 */
module BitStaff {
  import opened UInt64

  function ShiftLeft(x: nat, c: nat): (r: nat)
    ensures x > 0 ==> r > 0
  {
    if c == 0 then x else 2 * ShiftLeft(x, c - 1)
  }

  function ShiftRight(x: nat, c: nat): nat { if c == 0 then x else ShiftRight(x / 2, c - 1) }

  function Pow2(k: nat): nat { ShiftLeft(1, k) }

  function And(x: nat, y: nat): nat {
    if x == 0 || y == 0 then 0 else 2 * And(x / 2, y / 2) + if x % 2 == 1 && y % 2 == 1 then 1 else 0
  }

  function Or(x: nat, y: nat): nat
    decreases x + y
  {
    if x == 0 && y == 0 then 0 else 2 * Or(x / 2, y / 2) + if x % 2 == 1 || y % 2 == 1 then 1 else 0
  }

  predicate IsPowerOfTwo(value: nat) { value != 0 && And(value, Wrap(value - 1)) == 0 }

  /** Each call smears the bits of the value's predecessor over twice as many places as the one before. */
  function GetNextPowerOfTwo(value: nat, maxb: nat := 64, curb: nat := 1): nat
    requires curb > 0
    decreases maxb - curb
  {
    if maxb <= curb then value
    else
      var x := Wrap(value - 1);
      GetNextPowerOfTwo(Wrap(Or(x, ShiftRight(x, curb)) + 1), maxb, 2 * curb)
  }

  lemma {:induction false} AndSelf(x: nat)
    ensures And(x, x) == x
    decreases x
  {
    if x > 0 { AndSelf(x / 2); }
  }

  lemma {:induction false} PowerOfHalf(value: nat)
    requires value > 0 && value % 2 == 0
    ensures (exists k: nat :: value == Pow2(k)) <==> exists k: nat :: value / 2 == Pow2(k)
  {
    if k: nat :| value / 2 == Pow2(k) {
      assert value == Pow2(k + 1);
    }
    if k: nat :| value == Pow2(k) {
      assert k > 0;
      assert value / 2 == Pow2(k - 1);
    }
  }

  /** The test holds exactly of the powers of two. */
  lemma {:induction false} IsPowerOfTwoIsExact(value: nat)
    requires value < UINT64
    ensures IsPowerOfTwo(value) <==> exists k: nat :: value == Pow2(k)
    decreases value
  {
    if value % 2 == 1 {
      AndSelf(value / 2);
      assert And(value, value - 1) == 2 * (value / 2);
      assert Pow2(0) == 1;
      forall k: nat | value == Pow2(k) ensures k == 0 {
      }
    } else if value > 0 {
      IsPowerOfTwoIsExact(value / 2);
      PowerOfHalf(value);
      assert And(value, value - 1) == 2 * And(value / 2, value / 2 - 1);
    }
  }

  // Shifting is linear, and composes.

  lemma {:induction false} ShiftLeftAdd(x: nat, y: nat, c: nat)
    ensures ShiftLeft(x + y, c) == ShiftLeft(x, c) + ShiftLeft(y, c)
    decreases c
  {
    if c > 0 { ShiftLeftAdd(x, y, c - 1); }
  }

  lemma {:induction false} ShiftLeftTwice(x: nat, c: nat, d: nat)
    ensures ShiftLeft(ShiftLeft(x, c), d) == ShiftLeft(x, c + d)
    decreases d
  {
    if d > 0 { ShiftLeftTwice(x, c, d - 1); }
  }

  lemma {:induction false} ShiftBack(x: nat, y: nat, c: nat)
    ensures ShiftRight(ShiftLeft(x, c) + y, c) == x + ShiftRight(y, c)
    decreases c
  {
    if c > 0 {
      assert (ShiftLeft(x, c) + y) / 2 == ShiftLeft(x, c - 1) + y / 2;
      ShiftBack(x, y / 2, c - 1);
    }
  }

  lemma {:induction false} ShiftRightBelow(x: nat, c: nat, m: nat)
    requires x < Pow2(m + c)
    ensures ShiftRight(x, c) < Pow2(m)
    decreases c
  {
    if c > 0 { ShiftRightBelow(x / 2, c - 1, m); }
  }

  lemma {:induction false} PowMonotone(a: nat, b: nat)
    requires a <= b
    ensures Pow2(a) <= Pow2(b)
    decreases b - a
  {
    if a < b { PowMonotone(a + 1, b); }
  }

  /** The high part of a word and the rest. */
  lemma {:induction false} LowPart(x: nat, m: nat) returns (low: nat)
    ensures x == ShiftLeft(ShiftRight(x, m), m) + low && low < Pow2(m)
    decreases m
  {
    if m == 0 {
      low := 0;
    } else {
      low := LowPart(x / 2, m - 1);
      low := 2 * low + x % 2;
    }
  }

  lemma {:induction false} OrZero(x: nat)
    ensures Or(x, 0) == x
    decreases x
  {
    if x > 0 { OrZero(x / 2); }
  }

  lemma {:induction false} LastDigit(u: nat, b: nat, u': nat, b': nat)
    ensures Or(2 * u + b, 2 * u' + b') == 2 * Or(u + b / 2, u' + b' / 2) + if b % 2 == 1 || b' % 2 == 1 then 1 else 0
  {
    assert (2 * u + b) / 2 == u + b / 2 && (2 * u + b) % 2 == b % 2;
    assert (2 * u' + b') / 2 == u' + b' / 2 && (2 * u' + b') % 2 == b' % 2;
  }

  /** Or acts on high and low parts separately. */
  lemma {:induction false} OrSplit(a: nat, b: nat, a': nat, b': nat, m: nat)
    requires b < Pow2(m) && b' < Pow2(m)
    ensures Or(b, b') < Pow2(m)
    ensures Or(ShiftLeft(a, m) + b, ShiftLeft(a', m) + b') == ShiftLeft(Or(a, a'), m) + Or(b, b')
    decreases m
  {
    if m > 0 {
      OrSplit(a, b / 2, a', b' / 2, m - 1);
      LastDigit(ShiftLeft(a, m - 1), b, ShiftLeft(a', m - 1), b');
      LastDigit(0, b, 0, b');
    }
  }

  /** Or-ing with a stretch of ones at the low end fills that stretch. */
  lemma {:induction false} OrOnes(a: nat, b: nat, s: nat)
    requires b < Pow2(s)
    ensures Or(ShiftLeft(a, s) + b, Pow2(s) - 1) == ShiftLeft(a, s) + Pow2(s) - 1
    decreases s
  {
    if s == 0 {
      OrZero(a);
    } else {
      OrOnes(a, b / 2, s - 1);
      assert (Pow2(s) - 1) / 2 == Pow2(s - 1) - 1 && (Pow2(s) - 1) % 2 == 1;
      LastDigit(ShiftLeft(a, s - 1), b, 0, Pow2(s) - 1);
    }
  }

  /** A stretch of `t` ones shifted up by `k`. */
  lemma {:induction false} ShiftedOnes(t: nat, k: nat)
    ensures ShiftLeft(Pow2(t) - 1, k) == Pow2(t + k) - Pow2(k)
  {
    ShiftLeftAdd(Pow2(t) - 1, 1, k);
    ShiftLeftTwice(1, t, k);
  }

  /** `x` has `n` digits, the highest `t` of which are ones. */
  ghost predicate TopOnes(x: nat, n: nat, t: nat) {
    0 < t <= n && Pow2(n) - Pow2(n - t) <= x < Pow2(n)
  }

  function Min(a: nat, b: nat): nat { if a < b then a else b }

  /** Shifted by at least half its length, a word with that many leading ones leaves only ones. */
  lemma {:induction false} ShiftLeavesOnes(x: nat, n: nat, c: nat)
    requires TopOnes(x, n, c) && c < n <= 2 * c
    ensures ShiftRight(x, c) == Pow2(n - c) - 1
  {
    var s := n - c;
    var b := x - (Pow2(n) - Pow2(c));
    PowMonotone(s, c);
    ShiftedOnes(s, c);
    ShiftBack(Pow2(s) - 1, b, c);
    ShiftRightBelow(b, c, 0);
  }

  /** When the leading ones reach half-way down or further, one step fills the rest. */
  lemma {:induction false} SmearCompletes(x: nat, n: nat, c: nat)
    requires c > 0 && TopOnes(x, n, Min(c, n)) && n <= 2 * c
    ensures Or(x, ShiftRight(x, c)) == Pow2(n) - 1
  {
    if n <= c {
      PowMonotone(n, c);
      ShiftRightBelow(x, c, 0);
      OrZero(x);
    } else {
      ShiftLeavesOnes(x, n, c);
      ShiftedOnes(c, n - c);
      OrOnes(Pow2(c) - 1, x - (Pow2(n) - Pow2(n - c)), n - c);
    }
  }

  /** `c` ones and then `b`, seen as `2 * c` digits and the last `m` digits of `b`. */
  lemma {:induction false} SplitLow(b: nat, ones: nat, c: nat, m: nat) returns (b0: nat)
    ensures ShiftLeft(ones, c + m) + b == ShiftLeft(ShiftLeft(ones, c) + ShiftRight(b, m), m) + b0
    ensures b0 < Pow2(m)
  {
    b0 := LowPart(b, m);
    ShiftLeftTwice(ones, c, m);
    ShiftLeftAdd(ShiftLeft(ones, c), ShiftRight(b, m), m);
  }

  /** The same word shifted right by `c`. */
  lemma {:induction false} ShiftedWord(b: nat, ones: nat, c: nat, m: nat)
    ensures ShiftRight(ShiftLeft(ones, c + m) + b, c) == ShiftLeft(ones, m) + ShiftRight(b, c)
  {
    ShiftLeftTwice(ones, m, c);
    ShiftBack(ShiftLeft(ones, m), b, c);
  }

  /** Two words whose high parts or to `g`. */
  lemma {:induction false} OrOfParts(x: nat, y: nat, h: nat, x0: nat, h': nat, y0: nat, m: nat, g: nat)
    requires x == ShiftLeft(h, m) + x0 && y == ShiftLeft(h', m) + y0 && x0 < Pow2(m) && y0 < Pow2(m) && Or(h, h') == g
    ensures ShiftLeft(g, m) <= Or(x, y) < ShiftLeft(g, m) + Pow2(m)
  {
    OrSplit(h, x0, h', y0, m);
  }

  /** `c` ones, then `c` digits, then `m` digits; or-ed with itself shifted right by `c`. */
  lemma {:induction false} SmearedDigits(x: nat, b: nat, ones: nat, c: nat, m: nat)
    requires b < Pow2(c + m) && ones == Pow2(c) - 1 && x == ShiftLeft(ones, c + m) + b
    ensures var high := ShiftLeft(ShiftLeft(ones, c) + ones, m);
            high <= Or(x, ShiftRight(x, c)) < high + Pow2(m)
  {
    var b0 := SplitLow(b, ones, c, m);
    var b1, y0 := ShiftRight(b, m), ShiftRight(b, c);
    ShiftedWord(b, ones, c, m);
    ShiftRightBelow(b, m, c);
    ShiftRightBelow(b, c, m);
    OrOnes(ones, b1, c);
    OrOfParts(x, ShiftRight(x, c), ShiftLeft(ones, c) + b1, b0, ones, y0, m, ShiftLeft(ones, c) + ones);
  }

  /** Otherwise one step doubles the stretch of leading ones. */
  lemma {:induction false} SmearDoubles(x: nat, n: nat, c: nat)
    requires c > 0 && TopOnes(x, n, c) && 2 * c < n
    ensures TopOnes(Or(x, ShiftRight(x, c)), n, 2 * c)
  {
    var m := n - 2 * c;
    ShiftedOnes(c, c + m);
    SmearedDigits(x, x - (Pow2(n) - Pow2(c + m)), Pow2(c) - 1, c, m);
    ShiftedOnes(c, c);
    ShiftedOnes(2 * c, m);
  }

  lemma {:induction false} OrCommutes(x: nat, y: nat)
    ensures Or(x, y) == Or(y, x)
    decreases x + y
  {
    if x > 0 || y > 0 { OrCommutes(x / 2, y / 2); }
  }

  /** A word of all ones stays as it is. */
  lemma {:induction false} OnesStay(n: nat, c: nat)
    ensures Or(Pow2(n) - 1, ShiftRight(Pow2(n) - 1, c)) == Pow2(n) - 1
  {
    var x := Pow2(n) - 1;
    PowMonotone(n, n + c);
    ShiftRightBelow(x, c, n);
    OrOnes(0, ShiftRight(x, c), n);
    ShiftLeftAdd(0, 0, n);
    OrCommutes(x, ShiftRight(x, c));
  }

  /** The number of bits of a word: 64. Kept as a range, lest the solver unroll every power up to it. */
  predicate WordBits(bits: nat) { 63 < bits < 65 }

  function Bytes(j: nat): nat { if j == 0 then 1 else 0x100 * Bytes(j - 1) }

  lemma {:induction false} Double(k: nat)
    ensures Pow2(k + 1) == 2 * Pow2(k)
  {
  }

  lemma {:induction false} ByteByByte(j: nat)
    ensures Pow2(8 * j) == Bytes(j)
    decreases j
  {
    if j > 0 {
      var k := 8 * (j - 1);
      ByteByByte(j - 1);
      Double(k);
      Double(k + 1);
      Double(k + 2);
      Double(k + 3);
      Double(k + 4);
      Double(k + 5);
      Double(k + 6);
      Double(k + 7);
    }
  }

  /** The word size: what fits in a word, and what is the largest power in it. */
  lemma {:induction false} PowFits(n: nat, bits: nat)
    requires n <= bits && WordBits(bits)
    ensures Pow2(bits) == UINT64
    ensures n < bits ==> Pow2(n) <= INT64_LIMIT
  {
    ByteByByte(bits / 8);
    assert Bytes(8) == UINT64;
    if n < bits {
      Double(n);
      PowMonotone(n + 1, bits);
    }
  }

  /** Zero is smeared over the whole word, and comes back to zero. */
  lemma {:induction false} ZeroStays(maxb: nat, curb: nat, word: nat)
    requires 0 < curb && Pow2(word) == UINT64
    ensures GetNextPowerOfTwo(0, maxb, curb) == 0
    decreases maxb - curb
  {
    if curb < maxb {
      OnesStay(word, curb);
      ZeroStays(maxb, 2 * curb, word);
    }
  }

  /** One call grows the leading ones of the predecessor to twice the shift, or as far as there are digits. */
  lemma {:induction false} OneCall(x: nat, n: nat, curb: nat)
    requires 0 < curb && TopOnes(x, n, Min(curb, n))
    ensures TopOnes(Or(x, ShiftRight(x, curb)), n, Min(2 * curb, n))
  {
    if n <= 2 * curb {
      SmearCompletes(x, n, curb);
    } else {
      SmearDoubles(x, n, curb);
    }
  }

  /** Once the leading ones of the predecessor have grown to `curb`, the recursion ends at the power above it. */
  lemma {:induction false} SmearsToTheEnd(value: nat, maxb: nat, curb: nat, n: nat, bits: nat)
    requires 0 < curb && 0 < n <= maxb <= bits && WordBits(bits) && 0 < value < UINT64
    requires TopOnes(value - 1, n, Min(curb, n))
    ensures GetNextPowerOfTwo(value, maxb, curb) == Wrap(Pow2(n))
    decreases maxb - curb
  {
    PowFits(n, bits);
    if curb < maxb {
      var next := Or(value - 1, ShiftRight(value - 1, curb)) + 1;
      OneCall(value - 1, n, curb);
      if next < UINT64 {
        SmearsToTheEnd(next, maxb, 2 * curb, n, bits);
      } else {
        ZeroStays(maxb, 2 * curb, bits);
      }
    }
  }

  /** The number of binary digits. */
  function Digits(x: nat): nat { if x == 0 then 0 else 1 + Digits(x / 2) }

  lemma {:induction false} DigitsBound(x: nat)
    ensures x < Pow2(Digits(x)) && (x > 0 ==> Pow2(Digits(x) - 1) <= x)
    decreases x
  {
    if x > 0 { DigitsBound(x / 2); }
  }

  lemma {:induction false} DigitsFit(x: nat, m: nat)
    requires x < Pow2(m)
    ensures Digits(x) <= m
    decreases m
  {
    if x > 0 { DigitsFit(x / 2, m - 1); }
  }

  /** `r` is the least power of two that is not below `value`. */
  ghost predicate IsLeastPower(r: nat, value: nat) {
    && (exists k: nat :: r == Pow2(k)) && value <= r
    && forall k: nat :: value <= Pow2(k) ==> r <= Pow2(k)
  }

  lemma {:induction false} NotAbove(value: nat, k: nat)
    requires 0 < value <= Pow2(k)
    ensures Pow2(Digits(value - 1)) <= Pow2(k)
  {
    DigitsFit(value - 1, k);
    PowMonotone(Digits(value - 1), k);
  }

  lemma {:induction false} PowerAboveIsLeast(value: nat, r: nat)
    requires value > 0 && r == Pow2(Digits(value - 1))
    ensures IsLeastPower(r, value)
  {
    DigitsBound(value - 1);
    forall k: nat | value <= Pow2(k) ensures r <= Pow2(k) {
      NotAbove(value, k);
    }
  }

  /** For every word whose predecessor has at most `maxb` digits, the result is the least power not below it. */
  lemma {:induction false} NextForWidth(value: nat, maxb: nat, bits: nat)
    requires 0 < value < UINT64 && 0 < maxb <= bits && WordBits(bits) && value - 1 < Pow2(maxb)
    ensures GetNextPowerOfTwo(value, maxb, 1) == Wrap(Pow2(Digits(value - 1)))
  {
    var x, n := value - 1, Digits(value - 1);
    DigitsBound(x);
    DigitsFit(x, maxb);
    if x > 0 {
      Double(n - 1);
      SmearsToTheEnd(value, maxb, 1, n, bits);
    } else {
      OneStays(maxb, 1);
    }
  }

  lemma {:induction false} OneStays(maxb: nat, curb: nat)
    requires curb > 0
    ensures GetNextPowerOfTwo(1, maxb, curb) == 1
    decreases maxb - curb
  {
    if curb < maxb {
      ZeroShift(curb);
      OneStays(maxb, 2 * curb);
    }
  }

  lemma {:induction false} ZeroShift(c: nat)
    ensures ShiftRight(0, c) == 0
    decreases c
  {
    if c > 0 { ZeroShift(c - 1); }
  }

  /**
   For every word that the given width covers: the result is the least power of two not below it exactly
   when the value is from 1 to 2^63; for all other values it is zero. A width of 64 covers every word.
   */
  lemma {:induction false} NextInWord(value: nat, maxb: nat, bits: nat)
    requires value < UINT64 && 0 < maxb <= bits && WordBits(bits) && value <= Pow2(maxb)
    ensures IsLeastPower(GetNextPowerOfTwo(value, maxb, 1), value) <==> 1 <= value <= INT64_LIMIT
    ensures !(1 <= value <= INT64_LIMIT) ==> GetNextPowerOfTwo(value, maxb, 1) == 0
  {
    if value == 0 {
      PowFits(0, bits);
      ZeroStays(maxb, 1, bits);
    } else {
      var n := WordDigits(value, bits);
      NextForWidth(value, maxb, bits);
      PowerAboveIsLeast(value, Pow2(n));
    }
  }

  lemma {:induction false} WordDigits(value: nat, bits: nat) returns (n: nat)
    requires 0 < value < UINT64 && WordBits(bits)
    ensures n == Digits(value - 1) <= bits
    ensures value <= INT64_LIMIT ==> Pow2(n) <= INT64_LIMIT
    ensures value > INT64_LIMIT ==> Pow2(n) == UINT64
  {
    n := Digits(value - 1);
    PowFits(0, bits);
    DigitsBound(value - 1);
    DigitsFit(value - 1, bits);
    PowFits(n, bits);
    if value <= INT64_LIMIT {
      Double(bits - 1);
      DigitsFit(value - 1, bits - 1);
    }
  }

  /** The block size of an allocator: the requested size when it is a power of two, the next one otherwise. */
  function CorrectedChunkSize(size: nat, maxb: nat := 64): nat {
    if IsPowerOfTwo(size) then size else GetNextPowerOfTwo(size, maxb, 1)
  }

  lemma {:induction false} NextIsTight(size: nat, bits: nat) returns (n: nat)
    requires 1 < size < 0x1_0000_0000 && WordBits(bits)
    ensures GetNextPowerOfTwo(size, bits, 1) == Pow2(n)
    ensures size <= Pow2(n) < 2 * size && Pow2(n) < UINT64
  {
    n := WordDigits(size, bits);
    PowFits(0, bits);
    NextForWidth(size, bits, bits);
    DigitsBound(size - 1);
    Double(n - 1);
  }

  /** Every requested size that is not zero and fits 32 bits gets a power of two less than twice itself. */
  lemma {:induction false} ChunkSizeInWord(size: nat, bits: nat)
    requires 0 < size < 0x1_0000_0000 && WordBits(bits)
    ensures var c := CorrectedChunkSize(size, bits);
            IsPowerOfTwo(c) && size <= c < 2 * size
  {
    if !IsPowerOfTwo(size) {
      assert size != 1;
      var n := NextIsTight(size, bits);
      IsPowerOfTwoIsExact(Pow2(n));
    }
  }

  /** The width of the source's words, and its default number of bits to cover. */
  const WIDTH: nat := 64

  /**
   For every 64-bit value the result is the least power of two not below it exactly when the value is from 1 to
   2^63; for all other values it is zero.
   */
  lemma {:induction false} NextPowerOfTwo(value: nat)
    requires value < UINT64
    ensures IsLeastPower(GetNextPowerOfTwo(value, WIDTH), value) <==> 1 <= value <= INT64_LIMIT
    ensures !(1 <= value <= INT64_LIMIT) ==> GetNextPowerOfTwo(value, WIDTH) == 0
  {
    PowFits(WIDTH, WIDTH);
    NextInWord(value, WIDTH, WIDTH);
  }

  /** The block size that a 32-bit request leads to. */
  lemma {:induction false} ChunkSizeIsTight(size: nat)
    requires 0 < size < 0x1_0000_0000
    ensures var c := CorrectedChunkSize(size, WIDTH);
            IsPowerOfTwo(c) && size <= c < 2 * size
  {
    ChunkSizeInWord(size, WIDTH);
  }
}
