/** 64-bit machine words as bounded integers, and the arithmetic both engines are built from. */
module Words {

  const TWO31: int := 0x8000_0000
  const TWO32: int := 0x1_0000_0000
  const TWO63: int := 0x8000_0000_0000_0000
  const TWO64: int := 0x1_0000_0000_0000_0000

  type Byte = x: int | 0 <= x < 0x100
  type Word = x: int | 0 <= x < 0x1_0000_0000_0000_0000

  /** Conversion of any integer to uint64_t. */
  function Wrap(x: int): Word {
    x % TWO64
  }

  function Low32(x: int): Word {
    x % TWO32
  }

  /** int64_t(x). */
  function Signed(x: Word): int {
    if x < TWO63 then x else x - TWO64
  }

  /** int32_t(x), the low half of x read as a signed number. */
  function Signed32(x: int): int {
    if x % TWO32 < TWO31 then x % TWO32 else x % TWO32 - TWO32
  }

  /** uint64_t(int64_t(int32_t(x))). */
  function SignExtend32(x: int): Word {
    Wrap(Signed32(x))
  }

  /** A value of `bits` bits read as signed and widened to 64 bits. */
  function SignExtend(x: nat, bits: nat): Word {
    if bits > 0 && x % Pow2(bits) >= Pow2(bits - 1) then Wrap(x % Pow2(bits) - Pow2(bits))
    else Wrap(x % Pow2(bits))
  }

  function BoolWord(b: bool): Word {
    if b then 1 else 0
  }

  function Pow2(n: nat): (p: nat)
    ensures p > 0
  {
    if n == 0 then 1 else 2 * Pow2(n - 1)
  }

  // ----- division as C++ does it: the quotient is truncated toward zero -----

  function Abs(x: int): nat {
    if x < 0 then -x else x
  }

  function TruncDiv(a: int, b: int): int
    requires b != 0
  {
    if (a < 0) == (b < 0) then Abs(a) / Abs(b) else -(Abs(a) / Abs(b))
  }

  function TruncRem(a: int, b: int): int
    requires b != 0
  {
    a - TruncDiv(a, b) * b
  }

  // ----- shifts -----

  function ShiftLeft(x: int, s: nat): Word {
    Wrap(x * Pow2(s))
  }

  function ShiftRight(x: Word, s: nat): Word {
    Lowers(x, Pow2(s));
    x / Pow2(s)
  }

  function ArithmeticShiftRight(x: int, s: nat): Word {
    Wrap(x / Pow2(s))
  }

  lemma Lowers(x: nat, p: nat)
    requires p > 0
    ensures 0 <= x / p <= x
  {
    var q := x / p;
    assert x == q * p + x % p;
    ProductAtLeast(q, p);
  }

  lemma ProductAtLeast(q: int, p: int)
    requires p > 0
    ensures q >= 0 ==> q * p >= q
    ensures q < 0 ==> q * p <= q
    ensures q != 0 ==> q * p <= -p || p <= q * p
  {
    assert q * p == q + q * (p - 1);
    assert q * p == p + (q - 1) * p == (q + 1) * p - p;
  }

  // ----- bitwise operators -----

  datatype BitOp = AndOp | OrOp | XorOp

  function OneBit(op: BitOp, a: bool, b: bool): bool {
    match op
    case AndOp => a && b
    case OrOp => a || b
    case XorOp => a != b
  }

  /** The operator applied to the lowest n bits of a and b. */
  function Bitwise(op: BitOp, a: nat, b: nat, n: nat): (r: nat)
    ensures r < Pow2(n)
  {
    if n == 0 then 0
    else 2 * Bitwise(op, a / 2, b / 2, n - 1) + (if OneBit(op, a % 2 == 1, b % 2 == 1) then 1 else 0)
  }

  lemma Pow2Of64()
    ensures Pow2(8) == 0x100 && Pow2(16) == 0x1_0000 && Pow2(32) == TWO32 && Pow2(64) == TWO64
  {
    assert Pow2(4) == 16;
    assert Pow2(8) == 0x100;
    assert Pow2(12) == 0x1000;
    assert Pow2(16) == 0x1_0000;
    assert Pow2(20) == 0x10_0000;
    assert Pow2(24) == 0x100_0000;
    assert Pow2(28) == 0x1000_0000;
    assert Pow2(32) == TWO32;
    assert Pow2(36) == 0x10_0000_0000;
    assert Pow2(40) == 0x100_0000_0000;
    assert Pow2(44) == 0x1000_0000_0000;
    assert Pow2(48) == 0x1_0000_0000_0000;
    assert Pow2(52) == 0x10_0000_0000_0000;
    assert Pow2(56) == 0x100_0000_0000_0000;
    assert Pow2(60) == 0x1000_0000_0000_0000;
  }

  function Bits(op: BitOp, a: Word, b: Word): Word {
    Pow2Of64();
    Bitwise(op, a, b, 64)
  }

  /** Splitting both operands at bit k splits the result there. */
  lemma {:induction false} BitwiseSplit(op: BitOp, k: nat, n: nat, ah: nat, al: nat, bh: nat, bl: nat)
    requires k <= n && al < Pow2(k) && bl < Pow2(k)
    ensures Bitwise(op, ah * Pow2(k) + al, bh * Pow2(k) + bl, n)
         == Bitwise(op, ah, bh, n - k) * Pow2(k) + Bitwise(op, al, bl, k)
  {
    if k > 0 {
      HalvesOfSplit(ah, al, k);
      HalvesOfSplit(bh, bl, k);
      BitwiseSplit(op, k - 1, n - 1, ah, al / 2, bh, bl / 2);
      DoubleProduct(Bitwise(op, ah, bh, n - k), Pow2(k - 1));
    }
  }

  lemma DoubleProduct(h: int, p: int)
    ensures h * (2 * p) == 2 * (h * p)
  {
  }

  lemma HalvesOfSplit(h: nat, l: nat, k: nat)
    requires k > 0 && l < Pow2(k)
    ensures l / 2 < Pow2(k - 1) && h * Pow2(k) + l >= 0 && h * Pow2(k - 1) + l / 2 >= 0
    ensures (h * Pow2(k) + l) / 2 == h * Pow2(k - 1) + l / 2
    ensures (h * Pow2(k) + l) % 2 == l % 2
  {
    DoubleProduct(h, Pow2(k - 1));
    ProductAtLeast(h, Pow2(k - 1));
    var t := h * Pow2(k - 1);
    assert h * Pow2(k) + l == 2 * t + l;
  }

  lemma {:induction false} AndZero(a: nat, n: nat)
    ensures Bitwise(AndOp, a, 0, n) == 0 && Bitwise(AndOp, 0, a, n) == 0
  {
    if n > 0 {
      AndZero(a / 2, n - 1);
    }
  }

  lemma {:induction false} AndOnes(a: nat, n: nat)
    requires a < Pow2(n)
    ensures Bitwise(AndOp, a, Pow2(n) - 1, n) == a
  {
    if n > 0 {
      OddHalf(Pow2(n - 1) - 1);
      AndOnes(a / 2, n - 1);
    }
  }

  lemma OddHalf(x: int)
    ensures (2 * x + 1) / 2 == x && (2 * x + 1) % 2 == 1
  {
  }

  /** Masking with ones below bit k is the remainder. */
  lemma LowMask(a: Word, k: nat)
    requires k <= 64 && Pow2(k) <= TWO64
    ensures Bits(AndOp, a, Pow2(k) - 1) == a % Pow2(k)
  {
    hide Bitwise, Pow2;
    var p := Pow2(k);
    var q, r := a / p, a % p;
    assert a == q * p + r && q >= 0;
    BitwiseSplit(AndOp, k, 64, q, r, 0, p - 1);
    AndZero(q, 64 - k);
    AndOnes(r, k);
  }

  lemma HalfOfAll()
    ensures Pow2(64) == 2 * Pow2(63) && Pow2(1) == 2
  {
  }

  /** Masking with ~1 clears the lowest bit. */
  lemma ClearMask(a: Word)
    ensures Bits(AndOp, a, Wrap(-2)) == a - a % 2
  {
    hide Bitwise, Pow2;
    Pow2Of64();
    var half := Pow2(63) - 1;
    HalfOfAll();
    assert a == (a / 2) * Pow2(1) + a % 2 && Wrap(-2) == half * Pow2(1) + 0;
    BitwiseSplit(AndOp, 1, 64, a / 2, a % 2, half, 0);
    AndOnes(a / 2, 63);
    AndZero(a % 2, 1);
  }

  // ----- division and remainder by a product -----

  lemma DivUnique(x: int, m: int, k: int, r: int)
    requires m > 0 && x == m * k + r && 0 <= r < m
    ensures x / m == k && x % m == r
  {
    assert x == m * (x / m) + x % m;
    assert m * (x / m - k) == r - x % m;
    ProductAtLeast(x / m - k, m);
    ProductAtLeast(k - x / m, m);
  }

  lemma Distribute(a: int, b: int, k: int, s: int)
    ensures a * (b * k + s) == a * b * k + a * s
  {
    assert a * (b * k) == a * b * k;
  }

  lemma Monotone(a: int, x: int, y: int)
    requires a >= 0 && x <= y
    ensures a * x <= a * y
  {
    Distribute(a, 1, x, y - x);
    NonNegative(a, y - x);
  }

  lemma NonNegative(a: int, b: int)
    requires a >= 0 && b >= 0
    ensures a * b >= 0
  {
  }

  lemma Within(a: int, s: int, b: int, r: int)
    requires 0 <= r < a && 0 <= s < b
    ensures 0 <= a * s + r < a * b
  {
    Monotone(a, s + 1, b);
    Distribute(a, 1, s, 1);
    NonNegative(a, s);
  }

  lemma ModSplit(x: int, a: int, b: int)
    requires a > 0 && b > 0
    ensures a * b > 0
    ensures x % (a * b) == x % a + a * ((x / a) % b)
    ensures x / (a * b) == x / a / b
  {
    var q, r := x / a, x % a;
    var k, s := q / b, q % b;
    Distribute(a, b, k, s);
    Within(a, s, b, r);
    DivUnique(x, a * b, k, a * s + r);
  }

  // ----- congruence modulo 2^64 -----

  lemma WrapCongruent(x: int, y: int, k: int)
    requires x == y + k * TWO64
    ensures Wrap(x) == Wrap(y)
  {
  }

  lemma WrapAdd(x: int, y: int)
    ensures Wrap(x + Wrap(y)) == Wrap(x + y)
  {
  }
}
