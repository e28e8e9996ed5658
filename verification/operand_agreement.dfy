/** On which operands the two engines compute the same value: an exact test of the operands. */
module OperandAgreement {
  import opened Words
  import opened Instructions
  import opened Memories
  import opened Interpreter
  import opened ComputeMeaning
  import opened ValueAgreement

  // ----- right against left shifts -----

  /** Shifting right, as emitted code does, and left, as the interpreter does, is the same: the bits of the
      operand repeat every 2s places, and of those the upper s are zero. */
  predicate ShiftsAlike(a: Word, s: nat)
    requires s < 64
  {
    s == 0 || ((Signed(a) / Pow2(s)) % Pow2(s) == 0 && a % Pow2(64 - s) == (Signed(a) / Pow2(2 * s)) % Pow2(64 - s))
  }

  lemma {:induction false} Pow2Product(m: nat, n: nat)
    ensures Pow2(m) * Pow2(n) == Pow2(m + n)
    decreases m
  {
    if m > 0 {
      Pow2Product(m - 1, n);
      assert Pow2(m) * Pow2(n) == 2 * (Pow2(m - 1) * Pow2(n));
    }
  }

  lemma SignedModulo(a: Word, s: nat)
    requires s <= 64
    ensures Signed(a) % Pow2(s) == a % Pow2(s)
  {
    Pow2Product(64 - s, s);
    Pow2Of64();
    if a >= TWO63 {
      ModCongruent(Pow2(s), a, Signed(a), Pow2(64 - s));
    }
  }

  lemma ScaledEqual(p: nat, x: nat, r: nat, y: nat)
    requires p > 0 && r < p
    ensures x * p == r + p * y <==> r == 0 && x == y
  {
    if x * p == r + p * y {
      DivUnique(x * p, p, y, r);
      DivUnique(x * p, p, x, 0);
    }
  }

  lemma ShiftsAlikeIsExact(a: Word, s: nat)
    requires s < 64
    ensures ShiftLeft(Signed(a), s) == ArithmeticShiftRight(Signed(a), s) <==> ShiftsAlike(a, s)
  {
    if s == 0 {
      ShiftByZero(a);
    } else {
      hide Pow2, Signed;
      var x, p, m := Signed(a), Pow2(s), Pow2(64 - s);
      var q := x / p;
      Pow2Product(64 - s, s);
      Pow2Product(s, 64 - s);
      Pow2Product(s, s);
      Pow2Of64();
      SignedModulo(a, 64 - s);
      assert ShiftLeft(x, s) == (x % m) * p by { ScaledModulo(x, p, m); }
      assert ArithmeticShiftRight(x, s) == q % p + p * ((q / p) % m) by { ModSplit(q, p, m); }
      ModSplit(x, p, p);
      ScaledEqual(p, x % m, q % p, (q / p) % m);
      assert s + s == 2 * s;
    }
  }

  lemma ScaledModulo(x: int, p: nat, m: nat)
    requires p > 0 && m > 0
    ensures p * m > 0 && (x * p) % (p * m) == (x % m) * p
  {
    ModSplit(x * p, p, m);
    DivUnique(x * p, p, x, 0);
  }

  /** For an amount of 32 or more this leaves only operands of which both shifts are zero. */
  lemma WideShiftsAlike(a: Word, s: nat)
    requires 32 <= s < 64
    ensures ShiftsAlike(a, s) <==> ShiftLeft(Signed(a), s) == 0 && ArithmeticShiftRight(Signed(a), s) == 0
  {
    hide Pow2, Signed, ShiftLeft;
    ShiftsAlikeIsExact(a, s);
    if ShiftsAlike(a, s) {
      var x, p, h := Signed(a), Pow2(s), Pow2(63 - s);
      Pow2Product(s, 63 - s);
      Pow2Of63();
      Pow2Grows(63 - s, s);
      SignedFitsHalf(a);
      QuotientFits(x, p, h);
      SmallMultiple(x / p, p);
    }
  }

  lemma Pow2Of63()
    ensures Pow2(63) == TWO63
  {
    Pow2Of64();
    assert Pow2(64) == 2 * Pow2(63);
  }

  lemma {:induction false} Pow2Grows(m: nat, n: nat)
    requires m < n
    ensures Pow2(m) < Pow2(n)
  {
    if m + 1 < n {
      Pow2Grows(m, n - 1);
    }
  }

  lemma SignedFitsHalf(a: Word)
    ensures -TWO63 <= Signed(a) < TWO63
  {
  }

  lemma QuotientFits(x: int, p: int, h: int)
    requires p > 0 && -(p * h) <= x < p * h
    ensures -h <= x / p < h
  {
    var q := x / p;
    assert x == p * q + x % p;
    if q >= h {
      Monotone(p, h, q);
      assert false;
    }
    if q < -h {
      Monotone(p, q, -h - 1);
      Distribute(p, 1, -h, -1);
      assert false;
    }
  }

  lemma SmallMultiple(q: int, p: int)
    requires 0 < p && -p < q < p && q % p == 0
    ensures q == 0
  {
    if q > 0 {
      DivUnique(q, p, 0, q);
    } else if q < 0 {
      DivUnique(q, p, -1, q + p);
    }
  }

  /** Not so for smaller amounts: shifted by 31 either way, this operand gives the same value, and not
      zero. */
  lemma NarrowShiftsAlike()
    ensures var a := 0x4000_0000_0000_0001;
            ShiftsAlike(a, 31) && ShiftLeft(Signed(a), 31) == ArithmeticShiftRight(Signed(a), 31) == 0x8000_0000
  {
    hide ShiftsAlike;
    ShiftsAlikeIsExact(0x4000_0000_0000_0001, 31);
    assert Pow2(31) == 0x8000_0000 by {
      Pow2Of64();
      assert Pow2(32) == 2 * Pow2(31);
    }
  }

  // ----- all computing instructions -----

  /** Operands for which the C++ expression of the interpreter has a value. */
  predicate DefinedInCpp(op: MulDivOp, a: Word, b: Word) {
    match op
    case Mul => true
    case Div => DivisionDefined(Signed(a), Signed(b), -TWO63)
    case Rem => DivisionDefined(Signed(a), Signed(b), -TWO63)
    case Divw => DivisionDefined(Signed32(a), Signed32(b), -TWO31)
    case Remw => DivisionDefined(Signed32(a), Signed32(b), -TWO31)
    case Divu => b != 0
    case Remu => b != 0
    case _ => Low32(b) != 0
  }

  /** Operands on which the engines compute the same value. Srai and Sra shift left in the interpreter, and
      Mulw divides. */
  predicate OperandsAgree(i: Instruction, a: Word, b: Word) {
    match i.op
    case Shift(op) => op == Srai ==> i.shamt < 64 && ShiftsAlike(a, i.shamt)
    case Reg(op) => op == Sra ==> ShiftsAlike(a, b % 64)
    case MulDiv(op) =>
      DefinedInCpp(op, a, b) && (op == Mulw ==> (Low32(a) * Low32(b)) % TWO32 == Low32(a) / Low32(b))
    case _ => true
  }

  lemma DefinedIs(op: MulDivOp, a: Word, b: Word)
    ensures MulDivValue(op, a, b).Some? <==> DefinedInCpp(op, a, b)
  {
    hide DivisionDefined, Signed, Signed32, SignExtend32, TruncDiv, TruncRem, Low32;
  }

  lemma MulwAgrees(a: Word, b: Word)
    requires Low32(b) != 0
    ensures SignExtend32(Low32(a) / Low32(b)) == HostMulDiv(Mulw, a, b)
       <==> (Low32(a) * Low32(b)) % TWO32 == Low32(a) / Low32(b)
  {
    var x, y := Low32(a) * Low32(b), Low32(a) / Low32(b);
    Lowers(Low32(a), Low32(b));
    SignExtendLow(x);
    SignExtendInjective(x, y);
  }

  lemma SignExtendInjective(x: nat, y: nat)
    ensures SignExtend32(x) == SignExtend32(y) <==> x % TWO32 == y % TWO32
  {
  }

  lemma ShiftOperands(i: Instruction, a: Word)
    requires i.op == Shift(Srai) && i.shamt < 64
    ensures ShiftValue(Srai, a, i.shamt) == HostShift(Srai, a, i.shamt) <==> ShiftsAlike(a, i.shamt)
  {
    hide ShiftLeft, ArithmeticShiftRight, ShiftsAlike;
    ShiftAmount(Srai, i.shamt);
    ShiftsAlikeIsExact(a, i.shamt);
  }

  lemma RegOperands(a: Word, b: Word)
    ensures RegValue(Sra, a, b) == HostReg(Sra, a, b) <==> ShiftsAlike(a, b % 64)
  {
    hide ShiftLeft, ArithmeticShiftRight, ShiftsAlike;
    ShiftsAlikeIsExact(a, b % 64);
  }

  /** The test is exact, operand by operand. */
  lemma OperandsAgreeIsExact(i: Instruction, pc: Word, a: Word, b: Word)
    requires IsCompute(i.op) && WellFormed(i)
    ensures ComputeValue(i, pc, a, b) == Some(HostCompute(i, pc, a, b)) <==> OperandsAgree(i, a, b)
  {
    hide ImmValue, ShiftValue, RegValue, MulDivValue, HostImm, HostShift, HostReg, HostMulDiv, ShiftsAlike,
      DefinedInCpp;
    if i.op == Shift(Srai) {
      ShiftOperands(i, a);
    } else if i.op == Reg(Sra) {
      RegOperands(a, b);
    } else if i.op.MulDiv? {
      DefinedIs(i.op.mulDiv, a, b);
      if i.op == MulDiv(Mulw) {
        MulwOperands(i, pc, a, b);
      } else if DefinedInCpp(i.op.mulDiv, a, b) {
        ComputeAgrees(i, pc, a, b);
      }
    } else {
      ComputeAgrees(i, pc, a, b);
    }
  }

  lemma MulwOperands(i: Instruction, pc: Word, a: Word, b: Word)
    requires i.op == MulDiv(Mulw)
    ensures ComputeValue(i, pc, a, b) == Some(HostCompute(i, pc, a, b)) <==> OperandsAgree(i, a, b)
  {
    hide HostMulDiv, SignExtend32;
    if Low32(b) != 0 {
      MulwAgrees(a, b);
    }
  }
}
