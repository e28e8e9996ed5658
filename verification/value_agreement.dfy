/** Where the emitted code computes what the interpreter computes, operand by operand. */
module ValueAgreement {
  import opened Words
  import opened Instructions
  import opened Memories
  import opened Interpreter
  import opened HostMachine
  import opened ComputeMeaning

  // ----- congruences -----

  lemma ModCongruent(m: int, x: int, y: int, k: int)
    requires m > 0 && x == y + k * m
    ensures x % m == y % m
  {
    var q, r := y / m, y % m;
    assert y == m * q + r;
    Distribute(m, 1, q, k);
    assert x == m * (q + k) + r;
    DivUnique(x, m, q + k, r);
  }

  lemma ProductCongruent(m: int, t: int, t0: int, kt: int, b: int, b0: int, kb: int)
    requires t == t0 + kt * m && b == b0 + kb * m
    ensures t * b == t0 * b0 + (kt * b0 + t0 * kb + kt * kb * m) * m
  {
    calc {
      t * b;
      (t0 + kt * m) * (b0 + kb * m);
      t0 * (b0 + kb * m) + (kt * m) * (b0 + kb * m);
      t0 * b0 + t0 * (kb * m) + (kt * m) * b0 + (kt * m) * (kb * m);
      { assert t0 * (kb * m) == (t0 * kb) * m; }
      { assert (kt * m) * b0 == (kt * b0) * m; }
      { assert (kt * m) * (kb * m) == (kt * kb * m) * m; }
      t0 * b0 + (t0 * kb) * m + (kt * b0) * m + (kt * kb * m) * m;
    }
  }

  /** Multiply-subtract only depends on its operands modulo m. */
  lemma MsubCongruent(m: int, a: int, a0: int, ka: int, t: int, t0: int, kt: int, b: int, b0: int, kb: int)
    requires m > 0 && a == a0 + ka * m && t == t0 + kt * m && b == b0 + kb * m
    ensures (a - t * b) % m == (a0 - t0 * b0) % m
  {
    ProductCongruent(m, t, t0, kt, b, b0, kb);
    var k := kt * b0 + t0 * kb + kt * kb * m;
    assert (ka - k) * m == ka * m - k * m;
    ModCongruent(m, a - t * b, a0 - t0 * b0, ka - k);
  }

  lemma SignedIs(x: Word) returns (k: int)
    ensures x == Signed(x) + k * TWO64
  {
    k := if x < TWO63 then 0 else 1;
  }

  lemma Signed32Is(x: Word) returns (k: int)
    ensures x == Signed32(x) + k * TWO32
  {
    k := x / TWO32 + (if x % TWO32 < TWO31 then 0 else 1);
  }

  lemma WrapIs(x: int) returns (k: int)
    ensures Wrap(x) == x + k * TWO64
  {
    k := -(x / TWO64);
  }

  lemma Low32Is(x: int) returns (k: int)
    ensures Low32(x) == x + k * TWO32
  {
    k := -(x / TWO32);
  }

  lemma SignExtendLow(x: int)
    ensures SignExtend32(Low32(x)) == SignExtend32(x)
  {
  }

  lemma SignExtendCongruent(x: int, y: int)
    requires x % TWO32 == y % TWO32
    ensures SignExtend32(x) == SignExtend32(y)
  {
  }

  // ----- the remainder lowering -----

  /** A zero divisor leaves the dividend. */
  function RemainderOver(a: int, b: int): int {
    if b == 0 then a else TruncRem(a, b)
  }

  function RemainderWord(op: MulDivOp, a: Word, b: Word): Word
    requires op == Rem || op == Remu || op == Remw || op == Remuw
  {
    match op
    case Rem => Wrap(RemainderOver(Signed(a), Signed(b)))
    case Remu => Wrap(RemainderOver(a, b))
    case Remw => SignExtend32(RemainderOver(Signed32(a), Signed32(b)))
    case Remuw => SignExtend32(RemainderOver(Low32(a), Low32(b)))
  }

  lemma RemIs(a: Word, b: Word)
    ensures HostMulDiv(Rem, a, b) == RemainderWord(Rem, a, b)
  {
    hide TruncDiv, Wrap;
    var ka := SignedIs(a);
    if b != 0 {
      var kb := SignedIs(b);
      var t := TruncDiv(Signed(a), Signed(b));
      var kt := WrapIs(t);
      MsubCongruent(TWO64, a, Signed(a), ka, Wrap(t), t, kt, b, Signed(b), kb);
      WrapIsMod(a - Wrap(t) * b);
      WrapIsMod(Signed(a) - t * Signed(b));
    } else {
      ZeroProduct(b);
      WrapCongruent(a, Signed(a), ka);
    }
  }

  lemma WrapIsMod(x: int)
    ensures Wrap(x) == x % TWO64
  {
  }

  lemma ZeroProduct(b: int)
    ensures 0 * b == 0
  {
  }

  lemma RemuIs(a: Word, b: Word)
    ensures HostMulDiv(Remu, a, b) == RemainderWord(Remu, a, b)
  {
    if b != 0 {
      Lowers(a, b);
      assert Wrap(a / b) == a / b;
      assert Abs(a) == a && Abs(b) == b;
    } else {
      ZeroProduct(b);
    }
  }

  lemma RemwIs(a: Word, b: Word)
    ensures HostMulDiv(Remw, a, b) == RemainderWord(Remw, a, b)
  {
    hide TruncDiv, SignExtend32, Low32;
    var ka := Signed32Is(a);
    var kb := Signed32Is(b);
    SignExtendLow(a - AluValue(SdivW, a, b) * b);
    if Signed32(b) != 0 {
      Low32Zero(b);
      var t := TruncDiv(Signed32(a), Signed32(b));
      var kt := Low32Is(t);
      MsubCongruent(TWO32, a, Signed32(a), ka, Low32(t), t, kt, b, Signed32(b), kb);
      SignExtendCongruent(a - Low32(t) * b, Signed32(a) - t * Signed32(b));
    } else {
      Low32Zero(b);
      ZeroProduct(b);
      ModCongruent(TWO32, a, Signed32(a), ka);
      SignExtendCongruent(a, Signed32(a));
    }
  }

  lemma Low32Zero(b: Word)
    ensures Low32(b) == 0 <==> Signed32(b) == 0
  {
  }

  lemma RemuwIs(a: Word, b: Word)
    ensures HostMulDiv(Remuw, a, b) == RemainderWord(Remuw, a, b)
  {
    hide SignExtend32, Abs;
    var a0, b0 := Low32(a), Low32(b);
    var ka := Low32Is(a);
    var kb := Low32Is(b);
    SignExtendLow(a - AluValue(UdivW, a, b) * b);
    assert a == a0 + (-ka) * TWO32 && b == b0 + (-kb) * TWO32;
    if b0 != 0 {
      Lowers(a0, b0);
      var t := a0 / b0;
      assert Low32(t) == t;
      UnsignedTrunc(a0, b0);
      MsubCongruent(TWO32, a, a0, -ka, t, t, 0, b, b0, -kb);
      SignExtendCongruent(a - t * b, a0 - t * b0);
    } else {
      ZeroProduct(b);
      ModCongruent(TWO32, a, a0, -ka);
      SignExtendCongruent(a, a0);
    }
  }

  lemma UnsignedTrunc(a: nat, b: nat)
    requires b != 0
    ensures TruncDiv(a, b) == a / b
  {
  }

  /** What divide, then multiply and subtract, gives for all operands. */
  lemma RemainderIs(op: MulDivOp, a: Word, b: Word)
    requires op == Rem || op == Remu || op == Remw || op == Remuw
    ensures HostMulDiv(op, a, b) == RemainderWord(op, a, b)
  {
    match op
    case Rem => RemIs(a, b);
    case Remu => RemuIs(a, b);
    case Remw => RemwIs(a, b);
    case Remuw => RemuwIs(a, b);
  }

  // ----- agreement with the interpreter -----

  lemma ImmAgrees(op: ImmOp, a: Word, imm: int)
    ensures HostImm(op, a, imm) == ImmValue(op, a, imm)
  {
    hide Bits;
    WrapAdd(a, imm);
  }

  lemma ShiftAgrees(op: ShiftOp, a: Word, shamt: nat)
    requires shamt < (if WideShift(op) then 64 else 32) && (op == Srai ==> shamt == 0)
    ensures HostShift(op, a, shamt) == ShiftValue(op, a, shamt)
  {
    hide SignExtend32, ShiftLeft, ShiftRight, ArithmeticShiftRight, Low32, Signed32, Wrap;
    ShiftAmount(op, shamt);
    match op
    case Slli =>
    case Srli =>
    case Srai => ShiftByZero(a);
    case Slliw => SignExtendLow(ShiftLeft(Low32(a), shamt));
    case Srliw => SignExtendLow(ShiftRight(Low32(a), shamt));
    case Sraiw => SignExtendLow(ArithmeticShiftRight(Signed32(a), shamt));
  }

  lemma ShiftAmount(op: ShiftOp, shamt: nat)
    requires shamt < (if WideShift(op) then 64 else 32)
    ensures Wrap(shamt) == shamt && Wrap(shamt) % 64 == shamt && (!WideShift(op) ==> Wrap(shamt) % 32 == shamt)
  {
  }

  lemma ShiftByZero(a: Word)
    ensures ArithmeticShiftRight(Signed(a), 0) == ShiftLeft(Signed(a), 0)
  {
  }

  lemma RegAgrees(op: RegOp, a: Word, b: Word)
    requires op == Sra ==> b % 64 == 0
    ensures HostReg(op, a, b) == RegValue(op, a, b)
  {
    hide SignExtend32, Bits, ShiftLeft, ShiftRight, ArithmeticShiftRight, Low32, Signed32;
    match op
    case Sra => ShiftByZero(a);
    case Addw => SignExtendLow(Low32(a) + Low32(b));
    case Subw => SignExtendLow(Low32(a) - Low32(b));
    case Sllw => SignExtendLow(ShiftLeft(Low32(a), b % 32));
    case Srlw => SignExtendLow(ShiftRight(Low32(a), b % 32));
    case Sraw => SignExtendLow(ArithmeticShiftRight(Signed32(a), b % 32));
    case _ =>
  }

  lemma MulDivAgrees(op: MulDivOp, a: Word, b: Word)
    requires op != Mulw && MulDivValue(op, a, b).Some?
    ensures MulDivValue(op, a, b) == Some(HostMulDiv(op, a, b))
  {
    hide SignExtend32, TruncDiv;
    Low32Zero(b);
    match op
    case Mul =>
    case Div =>
    case Divu =>
    case Divw => SignExtendLow(TruncDiv(Signed32(a), Signed32(b)));
    case Divuw => SignExtendLow(Low32(a) / Low32(b));
    case Rem => RemIs(a, b);
    case Remu => RemuIs(a, b); UnsignedTruncRem(a, b);
    case Remw => RemwIs(a, b);
    case Remuw => RemuwIs(a, b); UnsignedTruncRem(Low32(a), Low32(b));
  }

  lemma UnsignedTruncRem(a: nat, b: nat)
    requires b != 0
    ensures TruncRem(a, b) == a % b
  {
    assert a == b * (a / b) + a % b;
  }

  /** The operands on which the two engines' right shifts and Mulw may part. */
  predicate Parts(i: Instruction, b: Word) {
    match i.op
    case Shift(op) => op == Srai && i.shamt != 0
    case Reg(op) => op == Sra && b % 64 != 0
    case MulDiv(op) => op == Mulw
    case _ => false
  }

  /** Wherever the C++ is defined, and the operation is not one of those, the emitted code and the
      interpreter compute the same value. */
  lemma ComputeAgrees(i: Instruction, pc: Word, a: Word, b: Word)
    requires IsCompute(i.op) && WellFormed(i) && !Parts(i, b) && ComputeValue(i, pc, a, b).Some?
    ensures ComputeValue(i, pc, a, b) == Some(HostCompute(i, pc, a, b))
  {
    hide ImmValue, ShiftValue, RegValue, MulDivValue, HostImm, HostShift, HostReg, HostMulDiv;
    match i.op
    case Imm(op) => ImmAgrees(op, a, i.imm);
    case Shift(op) => ShiftAgrees(op, a, i.shamt);
    case Reg(op) => RegAgrees(op, a, b);
    case MulDiv(op) => MulDivAgrees(op, a, b);
    case _ =>
  }

  lemma ShiftOfOne(s: nat)
    requires 0 < s < 64
    ensures ShiftLeft(1, s) != 0 && ArithmeticShiftRight(1, s) == 0
  {
    Pow2Small(s);
    assert Pow2(s) >= 2 by { Pow2Monotone(1, s); }
  }

  lemma {:induction false} Pow2Monotone(m: nat, n: nat)
    requires m <= n
    ensures Pow2(m) <= Pow2(n)
  {
    if m < n {
      Pow2Monotone(m, n - 1);
    }
  }

  lemma Pow2Small(s: nat)
    requires s < 64
    ensures Pow2(s) < TWO64
  {
    Pow2Of64();
    Pow2Monotone(s, 63);
    assert Pow2(64) == 2 * Pow2(63);
  }

  /** For each well-formed instruction that reads two registers, the engines agree on all operands the
      interpreter defines exactly when it is not Srai with a nonzero amount, Sra or Mulw. */
  lemma AgreesOnAllOperands(i: Instruction, pc: Word)
    requires IsCompute(i.op) && WellFormed(i)
    ensures (forall a: Word, b: Word ::
               ComputeValue(i, pc, a, b).Some? ==> ComputeValue(i, pc, a, b) == Some(HostCompute(i, pc, a, b)))
       <==> !((i.op == Shift(Srai) && i.shamt != 0) || i.op == Reg(Sra) || i.op == MulDiv(Mulw))
  {
    hide HostCompute, ComputeValue;
    if i.op == Shift(Srai) && i.shamt != 0 {
      SraiParts(i, pc);
    } else if i.op == Reg(Sra) {
      SraParts(i, pc);
    } else if i.op == MulDiv(Mulw) {
      MulwParts(i, pc);
    } else {
      forall a: Word, b: Word | ComputeValue(i, pc, a, b).Some?
        ensures ComputeValue(i, pc, a, b) == Some(HostCompute(i, pc, a, b))
      {
        ComputeAgrees(i, pc, a, b);
      }
    }
  }

  lemma SraiParts(i: Instruction, pc: Word)
    requires i.op == Shift(Srai) && 0 < i.shamt < 64
    ensures ComputeValue(i, pc, 1, 0).Some? && ComputeValue(i, pc, 1, 0) != Some(HostCompute(i, pc, 1, 0))
  {
    hide Pow2, ShiftLeft, ArithmeticShiftRight, ShiftRight, ImmValue, HostImm, HostReg, HostMulDiv, RegValue,
      MulDivValue;
    ShiftOfOne(i.shamt);
    assert Wrap(i.shamt) == i.shamt && Signed(1) == 1;
  }

  lemma SraParts(i: Instruction, pc: Word)
    requires i.op == Reg(Sra)
    ensures ComputeValue(i, pc, 1, 1).Some? && ComputeValue(i, pc, 1, 1) != Some(HostCompute(i, pc, 1, 1))
  {
    hide Pow2, ShiftLeft, ArithmeticShiftRight, ShiftRight, ImmValue, HostImm, HostShift, HostMulDiv, ShiftValue,
      MulDivValue;
    ShiftOfOne(1);
    assert Signed(1) == 1;
  }

  lemma MulwParts(i: Instruction, pc: Word)
    requires i.op == MulDiv(Mulw)
    ensures ComputeValue(i, pc, 2, 2).Some? && ComputeValue(i, pc, 2, 2) != Some(HostCompute(i, pc, 2, 2))
  {
    assert Low32(2) == 2 && Low32(1) == 1 && Low32(4) == 4;
  }
}
