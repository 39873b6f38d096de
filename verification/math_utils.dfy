/** The integer helpers of `won::math`: rounding up to an alignment, clamping,
    the next power of two at 32 and 64 bits, and the bit reversal used by
    the Hammersley point set. Each works on an unsigned C++ type whose
    wrap-around is written out here. */
module MathUtils {
  import opened Common

  /** `align(value, alignment)` on an unsigned type with `modulus` values:
      `value + alignment - 1` wraps, then integer division rounds down to a
      multiple of the alignment. A zero alignment divides by zero in C++, so
      callers must pass a positive one. */
  function Align(value: nat, alignment: nat, modulus: nat): (r: nat)
    requires 0 < alignment < modulus && value < modulus
    ensures r < modulus
    ensures r % alignment == 0
    // no wrap: the least multiple of alignment that is at least value
    ensures value + alignment - 1 < modulus ==> value <= r < value + alignment
    // wrap: the sum overflowed and the result collapses to zero
    ensures value + alignment - 1 >= modulus ==> r == 0
  {
    AlignBounds(value, alignment, modulus);
    ((value + alignment - 1) % modulus / alignment) * alignment
  }

  lemma AlignBounds(value: nat, alignment: nat, modulus: nat)
    requires 0 < alignment < modulus && value < modulus
    ensures var r := ((value + alignment - 1) % modulus / alignment) * alignment;
      r < modulus && r % alignment == 0 &&
      (value + alignment - 1 < modulus ==> value <= r < value + alignment) &&
      (value + alignment - 1 >= modulus ==> r == 0)
  {
    var total := value + alignment - 1;
    var sum := total % modulus;
    if total >= modulus {
      ModOnce(total, modulus);
      SmallDiv(sum, alignment);
      assert sum / alignment == 0;
    } else {
      ModOnce(total, modulus);
    }
    DivMulBounds(sum, alignment);
  }

  /** Reducing a value below twice the modulus subtracts it at most once. */
  lemma ModOnce(x: nat, m: nat)
    requires 0 < m && x < 2 * m
    ensures x % m == if x < m then x else x - m
  {
  }

  lemma SmallDiv(x: nat, a: nat)
    requires x < a
    ensures x / a == 0
  {
  }

  /** Aligning a value that is already a multiple of the alignment leaves
      it unchanged, and aligning twice is aligning once. */
  lemma {:induction false} AlignIdempotent(value: nat, alignment: nat, modulus: nat)
    requires 0 < alignment < modulus && value < modulus
    requires value % alignment == 0 && value + alignment - 1 < modulus
    ensures Align(value, alignment, modulus) == value
  {
    var r := Align(value, alignment, modulus);
    var d: int := r - value;
    assert 0 <= d < alignment;
    ModDiff(r, value, alignment);
  }

  /** Two multiples of `a` less than `a` apart are equal. */
  lemma ModDiff(x: nat, y: nat, a: nat)
    requires 0 < a && x % a == 0 && y % a == 0 && y <= x < y + a
    ensures x == y
  {
    assert x == (x / a) * a;
    assert y == (y / a) * a;
    if x / a > y / a {
      MulLe(y / a + 1, x / a, a);
    } else if x / a < y / a {
      MulLe(x / a + 1, y / a, a);
    }
  }

  lemma MulLe(p: nat, q: nat, a: nat)
    requires p <= q
    ensures p * a <= q * a
  {
  }

  lemma DivMulBounds(x: nat, a: nat)
    requires 0 < a
    ensures (x / a) * a <= x < (x / a) * a + a
    ensures ((x / a) * a) % a == 0
  {
    assert x == (x / a) * a + x % a;
    MulMod(x / a, a);
  }

  /** A multiple of `a` leaves no remainder and divides back exactly. */
  lemma MulMod(q: nat, a: nat)
    requires 0 < a
    ensures (q * a) % a == 0
    ensures (q * a) / a == q
  {
    var x: int := q * a;
    assert x == (x / a) * a + x % a;
    var d: int := x / a - q;
    assert d * a + x % a == 0;
    assert d * a > 0 - (a as int);
    assert d * a <= 0;
  }

  /** Division with remainder is unique: a quotient and a remainder below
      the divisor are the ones `/` and `%` give. */
  lemma DivModUnique(x: int, a: int, q: int, r: int)
    requires 0 < a && 0 <= r < a && x == q * a + r
    ensures x / a == q && x % a == r
  {
    var d := x / a - q;
    assert x == (x / a) * a + x % a;
    assert d * a == r - x % a;
  }

  /** `clamp(x, a, b)`: `a` below the range, `b` above it, `x` otherwise. */
  function Clamp(x: int, a: int, b: int): (r: int)
    ensures a <= b ==> a <= r <= b
    ensures a <= x <= b ==> r == x
    ensures x < a ==> r == a
    ensures a <= x && x > b ==> r == b
  {
    if x < a then a else if x > b then b else x
  }

  /** Clamping twice into the same non-empty range is clamping once. */
  lemma ClampIdempotent(x: int, a: int, b: int)
    requires a <= b
    ensures Clamp(Clamp(x, a, b), a, b) == Clamp(x, a, b)
  {
  }

  /** Clamping is monotone in its argument. */
  lemma ClampMonotone(x: int, y: int, a: int, b: int)
    requires a <= b && x <= y
    ensures Clamp(x, a, b) <= Clamp(y, a, b)
  {
  }

  /** Exactly one bit set: the unsigned powers of two. */
  predicate IsPow2Bits32(v: bv32) { v != 0 && v & (v - 1) == 0 }
  predicate IsPow2Bits64(v: bv64) { v != 0 && v & (v - 1) == 0 }

  /** `GetNextPowerOfTwo(uint)`: decrement, smear the highest set bit into
      every lower position, increment. */
  function NextPowerOfTwo32(x: bv32): (r: bv32)
    // zero wraps: 0 - 1 smears to all ones, and the increment wraps to 0
    ensures x == 0 ==> r == 0
    ensures 1 <= x <= 0x8000_0000 ==> IsPow2Bits32(r) && x <= r && r >> 1 < x
    // above 2^31 there is no 32-bit power of two to round to
    ensures x > 0x8000_0000 ==> r == 0
  {
    var y0 := x - 1;
    var y1 := y0 | (y0 >> 1);
    var y2 := y1 | (y1 >> 2);
    var y3 := y2 | (y2 >> 4);
    var y4 := y3 | (y3 >> 8);
    var y5 := y4 | (y4 >> 16);
    y5 + 1
  }

  const Top64: bv64 := 0x8000_0000_0000_0000

  /** The smear at the heart of `GetNextPowerOfTwo(uint64_t)`: every bit
      below the highest set bit of `y0` becomes set. */
  function Smear64(y0: bv64): bv64 {
    var y1 := y0 | (y0 >> 1);
    var y2 := y1 | (y1 >> 2);
    var y3 := y2 | (y2 >> 4);
    var y4 := y3 | (y3 >> 8);
    var y5 := y4 | (y4 >> 16);
    y5 | (y5 >> 32)
  }

  /** `GetNextPowerOfTwo(uint64_t)`: decrement, smear, increment. Its
      properties are stated by the four lemmas that follow, which split the
      bit-level reasoning into the smear facts below them. */
  function NextPowerOfTwo64(x: bv64): bv64 {
    Smear64(x - 1) + 1
  }

  /** Zero, and anything above 2^63, has no 64-bit next power of two: the
      result wraps to zero. */
  lemma NextPowerOfTwo64Wraps(x: bv64)
    ensures x == 0 || x > Top64 ==> NextPowerOfTwo64(x) == 0
  {
    var y := x - 1;
    var s := Smear64(y);
    SmearCovers(y);
    SmearClosed(y);
    OrGe(s, y);
    if x == 0 || x > Top64 {
      assert y >= Top64;
      ClosedFull(s);
    }
  }

  /** In range the result is a power of two ... */
  lemma NextPowerOfTwo64IsPow2(x: bv64)
    requires 1 <= x <= Top64
    ensures IsPow2Bits64(NextPowerOfTwo64(x))
  {
    var y := x - 1;
    SmearClosed(y);
    SmearBelow(y);
    ClosedLow(Smear64(y));
  }

  /** ... and at least the input. */
  lemma NextPowerOfTwo64AtLeast(x: bv64)
    requires 1 <= x <= Top64
    ensures x <= NextPowerOfTwo64(x)
  {
    var y := x - 1;
    var s := Smear64(y);
    SmearCovers(y);
    SmearBelow(y);
    OrGe(s, y);
    if y == s {
      assert x == s + 1;
    } else {
      assert x <= s;
      assert s < s + 1;
    }
  }

  /** ... and the least such: half the result is already below `x`. Stated
      as `<= x - 1`, which for `x >= 1` is the same as `< x`. */
  lemma NextPowerOfTwo64Least(x: bv64)
    requires 1 <= x <= Top64
    ensures NextPowerOfTwo64(x) >> 1 <= x - 1
  {
    SmearHalvedBelow(x - 1);
  }

  /** Below 2^63 the smeared mask plus one, halved, is at most the value
      smeared: it is the highest set bit of `y` (or 0). */
  lemma SmearHalvedBelow(y: bv64)
    requires y < Top64
    ensures (Smear64(y) + 1) >> 1 <= y
  {
  }

  lemma SmearCovers(y: bv64)
    ensures Smear64(y) | y == Smear64(y)
  {
  }

  lemma SmearClosed(y: bv64)
    ensures Smear64(y) | (Smear64(y) >> 1) == Smear64(y)
  {
  }

  lemma SmearBelow(y: bv64)
    ensures y < Top64 ==> Smear64(y) < Top64
  {
  }

  /** A mask closed under shifting right is of the form 2^k - 1. */
  lemma ClosedLow(s: bv64)
    requires s | (s >> 1) == s
    ensures s & (s + 1) == 0
  {
  }

  lemma ClosedFull(s: bv64)
    requires s | (s >> 1) == s && s >= Top64
    ensures s == 0xFFFF_FFFF_FFFF_FFFF
  {
  }

  /** A superset of bits is numerically no smaller. */
  lemma OrGe(a: bv64, b: bv64)
    requires a | b == a
    ensures b <= a
  {
  }

  /** A power of two is its own next power of two. */
  lemma NextPowerOfTwo32Fixes(x: bv32)
    requires IsPow2Bits32(x)
    ensures NextPowerOfTwo32(x) == x
  {
  }

  /** Bit `i` of `v`, counted from the least significant bit. */
  function Bit32(v: bv32, i: bv32): bv32
    requires i < 32
  {
    (v >> i) & 1
  }

  /** The swap network inside `Hammersley2D`: halves, then bits, pairs,
      nibbles and bytes. */
  function ReverseBits32(idx: bv32): (r: bv32)
    ensures forall i: bv32 :: i < 32 ==> Bit32(r, i) == Bit32(idx, 31 - i)
  {
    var b0 := (idx << 16) | (idx >> 16);
    var b1 := ((b0 & 0x5555_5555) << 1) | ((b0 & 0xAAAA_AAAA) >> 1);
    var b2 := ((b1 & 0x3333_3333) << 2) | ((b1 & 0xCCCC_CCCC) >> 2);
    var b3 := ((b2 & 0x0F0F_0F0F) << 4) | ((b2 & 0xF0F0_F0F0) >> 4);
    ((b3 & 0x00FF_00FF) << 8) | ((b3 & 0xFF00_FF00) >> 8)
  }

  /** Reversing twice gives the index back. */
  lemma ReverseBits32Involution(idx: bv32)
    ensures ReverseBits32(ReverseBits32(idx)) == idx
  {
  }
}
