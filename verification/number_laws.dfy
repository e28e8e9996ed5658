/** The arithmetic of both engines, by numbers: each operation they share against its law. */
module NumberLaws {
  import opened Words
  import opened Instructions
  import opened Memories
  import opened Interpreter
  import opened InstructionSet

  // ----- words and halves of words -----

  lemma WordIs(v: Word, x: int)
    ensures SameWord(v, x) <==> v == Wrap(x)
  {
  }

  lemma ReadsSignedIs(v: Word, x: int)
    ensures ReadsSigned(v, x) <==> x == Signed(v)
  {
  }

  lemma ReadsSignedLowIs(v: Word, x: int)
    ensures ReadsSignedLow(v, x) <==> x == Signed32(v)
  {
  }

  lemma ReadsLowIs(v: Word, x: int)
    ensures ReadsLow(v, x) <==> x == Low32(v)
  {
  }

  /** The one word whose signed value is in the lower half around zero and has the right remainder. */
  lemma OneExtension(v: Word, r: int, m: int)
    requires (m == 0x100 || m == 0x1_0000 || m == 0x1_0000_0000) && 0 <= r < m
    ensures (v < m / 2 || v >= TWO64 - m / 2) && v % m == r <==> v == if r >= m / 2 then Wrap(r - m) else r
  {
    var k := TWO64 / m;
    assert TWO64 == m * k;
    WrapBelow(r, m);
    if v < m / 2 {
      DivUnique(v, m, 0, v);
    } else if v >= TWO64 - m / 2 {
      Sums(m, k, 1);
      DivUnique(v, m, k - 1, v - (TWO64 - m));
    }
  }

  lemma WrapBelow(r: int, m: int)
    requires 0 <= r < m <= TWO64
    ensures Wrap(r - m) == TWO64 + r - m
  {
    DivUnique(r - m, TWO64, -1, TWO64 + r - m);
  }

  lemma Sums(m: int, k: int, l: int)
    ensures m * (k + l) == m * k + m * l && m * (k - l) == m * k - m * l
  {
  }

  lemma DifferenceOf(v: int, x: int, m: int)
    requires m > 0 && v % m == x % m
    ensures (v - x) % m == 0
  {
    var k, l := v / m, x / m;
    assert v == m * k + v % m && x == m * l + x % m;
    Sums(m, k, l);
    DivUnique(v - x, m, k - l, 0);
  }

  lemma RemainderOf(v: int, x: int, m: int)
    requires m > 0 && (v - x) % m == 0
    ensures v % m == x % m
  {
    var j, l := (v - x) / m, x / m;
    assert v - x == m * j && x == m * l + x % m;
    Sums(m, l, j);
    DivUnique(v, m, l + j, x % m);
  }

  lemma SameRemainder(v: int, x: int, m: int)
    requires m > 0
    ensures (v - x) % m == 0 <==> v % m == x % m
  {
    if v % m == x % m {
      DifferenceOf(v, x, m);
    } else if (v - x) % m == 0 {
      RemainderOf(v, x, m);
    }
  }

  lemma ExtendsLowIs(v: Word, x: int)
    ensures ExtendsLow(v, x) <==> v == SignExtend32(x)
  {
    hide Wrap;
    SameRemainder(v, x, 0x1_0000_0000);
    OneExtension(v, x % 0x1_0000_0000, 0x1_0000_0000);
    Small(x % 0x1_0000_0000);
  }

  lemma Small(x: nat)
    requires x < TWO64
    ensures Wrap(x) == x
  {
  }

  lemma IsFloorIs(q: int, x: int, p: int)
    requires p > 0
    ensures IsFloor(q, x, p) <==> q == x / p
  {
    Distribute(p, 1, q, 1);
    if IsFloor(q, x, p) {
      DivUnique(x, p, q, x - p * q);
    }
    assert x == p * (x / p) + x % p;
  }

  // ----- division -----

  /** Truncated division is the only one that rounds toward zero. */
  lemma DividesIs(x: int, y: int, q: int, r: int)
    requires y != 0
    ensures Divides(x, y, q, r) <==> q == TruncDiv(x, y) && r == TruncRem(x, y)
  {
    hide TruncDiv;
    TruncDivides(x, y);
    if Divides(x, y, q, r) {
      TruncOnly(x, y, q, r);
    }
  }

  lemma Negated(q: int, y: int)
    ensures (-q) * y == -(q * y) == q * (-y)
  {
  }

  lemma TruncOnly(x: int, y: int, q: int, r: int)
    requires y != 0 && Divides(x, y, q, r)
    ensures q == TruncDiv(x, y)
  {
    Negated(q, y);
    Negated(q, -y);
    if x >= 0 {
      if y > 0 {
        DivUnique(x, y, q, r);
      } else {
        DivUnique(x, -y, -q, r);
        ZeroOver(x, -y);
      }
    } else {
      if y > 0 {
        DivUnique(-x, y, -q, -r);
      } else {
        DivUnique(-x, -y, q, -r);
      }
    }
  }

  lemma ZeroOver(x: int, y: int)
    requires y > 0
    ensures x == 0 ==> x / y == 0
  {
  }

  lemma Products(q: int, n: int)
    ensures q * n == n * q == (-q) * (-n) && (-q) * n == -(n * q) == q * (-n)
  {
  }

  lemma Parts(m: nat, n: nat)
    requires n > 0
    ensures m == n * (m / n) + m % n && 0 <= m % n < n
  {
  }

  lemma TruncDivides(x: int, y: int)
    requires y != 0
    ensures Divides(x, y, TruncDiv(x, y), TruncRem(x, y))
  {
    var m, n := if x < 0 then -x else x, if y < 0 then -y else y;
    var q, e := m / n, m % n;
    Parts(m, n);
    Products(q, n);
    ZeroOver(m, n);
    var t := n * q;
    assert TruncDiv(x, y) == if (x < 0) == (y < 0) then q else -q by { assert Abs(x) == m && Abs(y) == n; }
    hide TruncDiv;
    if x < 0 {
      assert TruncDiv(x, y) * y == -t;
    } else {
      assert TruncDiv(x, y) * y == t;
    }
  }

  // ----- bits -----

  lemma {:induction false} HalfBits(x: nat, k: nat)
    requires k > 0
    ensures BitAt(x, k) == BitAt(x / 2, k - 1)
  {
    ModSplit(x, 2, Pow2(k - 1));
  }

  lemma FirstBit(x: nat)
    ensures BitAt(x, 0) == x % 2
  {
  }

  /** Each bit of the result is the operator on the bits there. */
  lemma {:induction false} BitwiseAt(op: BitOp, a: nat, b: nat, n: nat, k: nat)
    requires k < n
    ensures BitAt(Bitwise(op, a, b, n), k) == if OneBit(op, BitAt(a, k) == 1, BitAt(b, k) == 1) then 1 else 0
  {
    hide BitAt, OneBit;
    var rest := Bitwise(op, a / 2, b / 2, n - 1);
    var first := if OneBit(op, a % 2 == 1, b % 2 == 1) then 1 else 0;
    assert Bitwise(op, a, b, n) == 2 * rest + first;
    if k == 0 {
      FirstBit(a);
      FirstBit(b);
      FirstBit(2 * rest + first);
    } else {
      HalfBits(a, k);
      HalfBits(b, k);
      HalfBits(2 * rest + first, k);
      BitwiseAt(op, a / 2, b / 2, n - 1, k - 1);
    }
  }

  /** Numbers of n bits with the same bits are the same. */
  lemma {:induction false} SameBits(v: nat, w: nat, n: nat)
    requires v < Pow2(n) && w < Pow2(n) && forall k: nat :: k < n ==> BitAt(v, k) == BitAt(w, k)
    ensures v == w
  {
    if n > 0 {
      forall k: nat | k < n - 1
        ensures BitAt(v / 2, k) == BitAt(w / 2, k)
      {
        HalfBits(v, k + 1);
        HalfBits(w, k + 1);
        assert BitAt(v, k + 1) == BitAt(w, k + 1);
      }
      SameBits(v / 2, w / 2, n - 1);
      FirstBit(v);
      FirstBit(w);
      assert BitAt(v, 0) == BitAt(w, 0);
    }
  }

  lemma {:induction false} Pow2Adds(m: nat, n: nat)
    ensures Pow2(m) * Pow2(n) == Pow2(m + n)
    decreases m
  {
    if m > 0 {
      Pow2Adds(m - 1, n);
      assert Pow2(m) * Pow2(n) == 2 * (Pow2(m - 1) * Pow2(n));
    }
  }

  /** The bits of a negative number are those of its two's complement. */
  lemma WrapBits(x: int, k: nat)
    requires k < 64
    ensures BitAt(Wrap(x), k) == BitAt(x, k)
  {
    hide Pow2;
    var j, p, m := x / TWO64, Pow2(k), Pow2(63 - k);
    Pow2Adds(k, 64 - k);
    Pow2Of64();
    assert Pow2(64 - k) == 2 * m by { NextPow2(63 - k); }
    assert x == Wrap(x) + TWO64 * j;
    var w := Wrap(x);
    assert w == p * (w / p) + w % p;
    Distribute(p, 2 * m, j, w / p);
    assert x == p * (w / p + 2 * m * j) + w % p;
    DivUnique(x, p, w / p + 2 * m * j, w % p);
    EvenMore(w / p, m * j);
    assert 2 * m * j == 2 * (m * j);
  }

  lemma NextPow2(n: nat)
    ensures Pow2(n + 1) == 2 * Pow2(n)
  {
  }

  lemma EvenMore(x: int, y: int)
    ensures (x + 2 * y) % 2 == x % 2
  {
  }

  lemma BitIs(x: int, k: nat)
    ensures BitAt(x, k) == 0 || BitAt(x, k) == 1
  {
  }

  /** The operator bit by bit, on numbers of any sign. */
  predicate Bitly(op: BitOp, a: int, b: int, v: Word) {
    match op
    case AndOp => IsAnd(a, b, v)
    case OrOp => IsOr(a, b, v)
    case XorOp => IsXor(a, b, v)
  }

  lemma BitOps(op: BitOp, x: int, y: int)
    requires (x == 0 || x == 1) && (y == 0 || y == 1)
    ensures (if OneBit(op, x == 1, y == 1) then 1 else 0)
            == match op case AndOp => x * y case OrOp => x + y - x * y case XorOp => (x + y) % 2
  {
    assert x * y == if x == 1 then y else 0;
  }

  lemma BitsAt(op: BitOp, a: Word, b: int, k: nat)
    requires k < 64
    ensures var x, y := BitAt(a, k), BitAt(b, k);
            BitAt(Bits(op, a, Wrap(b)), k)
            == match op case AndOp => x * y case OrOp => x + y - x * y case XorOp => (x + y) % 2
  {
    hide BitAt, Bitwise, OneBit, Wrap;
    WrapBits(b, k);
    BitIs(a, k);
    BitIs(b, k);
    BitOps(op, BitAt(a, k), BitAt(b, k));
    BitwiseAt(op, a, Wrap(b), 64, k);
  }

  lemma BitlyIs(op: BitOp, a: Word, b: int, v: Word)
    ensures Bitly(op, a, b, v) <==> v == Bits(op, a, Wrap(b))
  {
    hide BitAt, Bits, Wrap;
    var w := Bits(op, a, Wrap(b));
    forall k: nat | k < 64
      ensures var x, y := BitAt(a, k), BitAt(b, k);
              BitAt(w, k) == match op case AndOp => x * y case OrOp => x + y - x * y case XorOp => (x + y) % 2
    {
      BitsAt(op, a, b, k);
    }
    assert Bitly(op, a, b, w);
    if Bitly(op, a, b, v) {
      Pow2Of64();
      assert forall k: nat :: k < 64 ==> BitAt(v, k) == BitAt(w, k);
      SameBits(v, w, 64);
    }
  }

  // ----- memory -----

  lemma FlagIs(p: Byte, a: Access)
    ensures var f := match a case ReadAccess => 1 case WriteAccess => 2 case ExecuteAccess => 4;
            Flag(a) == f && (HasFlag(p, Flag(a)) <==> (p / f) % 2 == 1)
  {
    Pow2Of64();
    match a
    case ReadAccess => AndZero(p / 2, 7);
    case WriteAccess =>
      AndZero(p / 2 / 2, 6);
      assert Bitwise(AndOp, p / 2, 1, 7) == if (p / 2) % 2 == 1 then 1 else 0;
    case ExecuteAccess =>
      AndZero(p / 2 / 2 / 2, 5);
      assert p / 2 / 2 == p / 4;
      assert Bitwise(AndOp, p / 2 / 2, 1, 6) == if (p / 4) % 2 == 1 then 1 else 0;
      assert Bitwise(AndOp, p / 2, 2, 7) == 2 * Bitwise(AndOp, p / 2 / 2, 1, 6);
  }

  lemma PermittedIs(m: Mem, u: nat, n: nat, a: Access)
    requires |m.perms| >= m.size && |m.bytes| >= m.size
    ensures Permitted(m, u, n, a)
       <==> Granted(m, u, n, match a case ReadAccess => 1 case WriteAccess => 2 case ExecuteAccess => 4)
  {
    hide HasFlag, Flag;
    forall p: Byte {
      FlagIs(p, a);
    }
  }

  lemma NumberIs(s: seq<Byte>, u: nat, n: nat)
    requires u + n <= |s| && (n == 1 || n == 2 || n == 4 || n == 8)
    ensures LoadLE(s, u, n) == Number(s, u, n)
    ensures Number(s, u, n) < (if n == 1 then 0x100 else if n == 2 then 0x1_0000
      else if n == 4 then 0x1_0000_0000 else 0x1_0000_0000_0000_0000)
  {
    Ahead(s, u, n);
    if n >= 2 { Ahead(s, u + 1, n - 1); }
    if n >= 4 {
      Ahead(s, u + 2, n - 2);
      Ahead(s, u + 3, n - 3);
    }
    if n >= 8 {
      Ahead(s, u + 4, 4);
      Ahead(s, u + 5, 3);
      Ahead(s, u + 6, 2);
      Ahead(s, u + 7, 1);
    }
  }

  lemma Ahead(s: seq<Byte>, u: nat, n: nat)
    requires 0 < n && u + n <= |s|
    ensures LoadLE(s, u, n) == s[u] + 256 * LoadLE(s, u + 1, n - 1) && LoadLE(s, u + n, 0) == 0
  {
  }

  lemma SignedWraps(x: int)
    requires -TWO63 <= x < TWO63
    ensures Signed(Wrap(x)) == x
  {
  }

  /** Widening keeps the number the lowest n bits stand for. */
  lemma SignExtendIs(x: nat, n: nat)
    requires 0 < n <= 64
    ensures var y: int := Signed(SignExtend(x, n));
            -(Pow2(n - 1) as int) <= y < Pow2(n - 1) && y % Pow2(n) == x % Pow2(n)
  {
    hide Pow2, Wrap, Signed;
    NextPow2(n - 1);
    SmallPower(n);
    var p, r := Pow2(n), x % Pow2(n);
    if r >= Pow2(n - 1) {
      SignedWraps(r - p);
      DivUnique(r - p, p, -1, r);
    } else {
      SignedWraps(r);
      DivUnique(r, p, 0, r);
    }
  }

  lemma SmallPower(n: nat)
    requires 0 < n <= 64
    ensures Pow2(n - 1) <= TWO63 && Pow2(n) <= TWO64
  {
    hide Pow2;
    NextPow2(63);
    Pow2Of64();
    Pow2Adds(n, 64 - n);
    Pow2Adds(n - 1, 64 - n);
    Monotone(Pow2(n - 1), 1, Pow2(64 - n));
    Monotone(Pow2(n), 1, Pow2(64 - n));
  }

  lemma ExtendedIs(op: LoadOp, x: nat, v: Word)
    requires x < 0x1_0000_0000_0000_0000
    ensures Extended(op, x, v) <==> v == LoadExtend(op, x)
  {
    hide Pow2, SignExtend, Wrap;
    match op
    case Lb =>
      SignExtends(x, 8);
      SameRemainder(v, x, 0x100);
      OneExtension(v, x % 0x100, 0x100);
    case Lh =>
      SignExtends(x, 16);
      SameRemainder(v, x, 0x1_0000);
      OneExtension(v, x % 0x1_0000, 0x1_0000);
    case Lw =>
      SignExtends(x, 32);
      SameRemainder(v, x, 0x1_0000_0000);
      OneExtension(v, x % 0x1_0000_0000, 0x1_0000_0000);
    case _ => assert Wrap(x) == x by { Small(x); }
  }

  lemma SignExtends(x: nat, n: nat)
    requires n == 8 || n == 16 || n == 32
    ensures var p, h := if n == 8 then 0x100 else if n == 16 then 0x1_0000 else TWO32,
                        if n == 8 then 0x80 else if n == 16 then 0x8000 else TWO31;
            SignExtend(x, n) == if x % p >= h then Wrap(x % p - p) else x % p
  {
    hide Pow2, Wrap;
    Pow2Of64();
    NextPow2(n - 1);
    Small(x % Pow2(n));
  }

  lemma {:induction false} StoreHolds(s: seq<Byte>, u: nat, n: nat, v: nat, k: nat)
    requires u + n <= |s| && u <= k < u + n
    ensures StoreLE(s, u, n, v)[k] == (v / Pow2(8 * (k - u))) % 0x100
    decreases n
  {
    if k == u {
      assert Pow2(0) == 1;
    } else {
      StoreHolds(s[u := v % 256], u + 1, n - 1, v / 256, k);
      Pow2Step(8 * (k - u) - 8);
      ModSplit(v, 256, Pow2(8 * (k - u) - 8));
    }
  }
}
