/** What each engine computes, against the instruction set: translated code meets it for all operands but
    divisions by zero, the interpreter exactly where the two engines agree. */
module ValueLaws {
  import opened Words
  import opened Instructions
  import opened Memories
  import opened Interpreter
  import opened Translator
  import opened ComputeMeaning
  import opened ValueAgreement
  import opened OperandAgreement
  import opened InstructionSet
  import opened NumberLaws

  // ----- immediates -----

  lemma LowOfWrap(x: int)
    ensures SignExtend32(Wrap(x)) == SignExtend32(x)
  {
    hide Wrap, SignExtend32;
    var k := WrapIs(x);
    assert Wrap(x) == x + (k * TWO32) * TWO32;
    ModCongruent(TWO32, Wrap(x), x, k * TWO32);
    SignExtendCongruent(Wrap(x), x);
  }

  lemma ImmLawIs(op: ImmOp, a: Word, imm: int, v: Word)
    ensures ImmLaw(op, a, imm, v) <==> v == HostImm(op, a, imm)
  {
    hide Bits, IsAnd, IsOr, IsXor, SameWord, ExtendsLow, SignExtend32, Wrap;
    ImmAgrees(op, a, imm);
    match op
    case Addi => WordIs(v, a + imm);
    case Addiw =>
      ExtendsLowIs(v, a + imm);
      LowOfWrap(a + imm);
    case Andi => BitlyIs(AndOp, a, imm, v);
    case Ori => BitlyIs(OrOp, a, imm, v);
    case Xori => BitlyIs(XorOp, a, imm, v);
  }

  // ----- shifts -----

  function ShiftWord(op: ShiftOp, a: Word, s: nat): Word {
    match op
    case Slli => Wrap(a * Pow2(s))
    case Srli => ShiftRight(a, s)
    case Srai => Wrap(Signed(a) / Pow2(s))
    case Slliw => SignExtend32(a * Pow2(s))
    case Srliw => SignExtend32(Low32(a) / Pow2(s))
    case Sraiw => SignExtend32(Signed32(a) / Pow2(s))
  }

  lemma SignedQuotient(a: Word, p: nat)
    requires p > 0
    ensures Signed(Wrap(Signed(a) / p)) == Signed(a) / p
  {
    hide Wrap;
    SignedFitsHalf(a);
    WithinHalf(Signed(a), p);
    SignedWraps(Signed(a) / p);
  }

  lemma WithinHalf(x: int, p: nat)
    requires p > 0 && -TWO63 <= x < TWO63
    ensures -TWO63 <= x / p < TWO63
  {
    var q := x / p;
    assert x == p * q + x % p;
    Sums(p, q, 1);
    ProductAtLeast(q, p);
    ProductAtLeast(q + 1, p);
  }

  lemma ShiftLawIs(op: ShiftOp, a: Word, s: nat, v: Word)
    ensures ShiftLaw(op, a, s, v) <==> v == ShiftWord(op, a, s)
  {
    hide SameWord, ExtendsLow, ReadsSigned, ReadsLow, ReadsSignedLow, Wrap, Signed, Signed32, Low32, SignExtend32, Pow2,
      IsFloor;
    var p := Pow2(s);
    match op
    case Slli => WordIs(v, a * p);
    case Srli => IsFloorIs(v, a, p);
    case Srai => SraiLawIs(a, s, v);
    case Slliw => ExtendsLowIs(v, a * p);
    case Srliw =>
      ReadsLowIs(a, Low32(a));
      IsFloorIs(Low32(a) / p, Low32(a), p);
      ExtendsLowIs(v, Low32(a) / p);
      forall x: int, q: int | ReadsLow(a, x) && IsFloor(q, x, p)
        ensures q == Low32(a) / p
      {
        ReadsLowIs(a, x);
        IsFloorIs(q, x, p);
      }
    case Sraiw =>
      ReadsSignedLowIs(a, Signed32(a));
      IsFloorIs(Signed32(a) / p, Signed32(a), p);
      ExtendsLowIs(v, Signed32(a) / p);
      forall x: int, q: int | ReadsSignedLow(a, x) && IsFloor(q, x, p)
        ensures q == Signed32(a) / p
      {
        ReadsSignedLowIs(a, x);
        IsFloorIs(q, x, p);
      }
  }

  lemma SignedOnly(v: Word, w: Word)
    ensures Signed(v) == Signed(w) <==> v == w
  {
  }

  lemma SraiLawIs(a: Word, s: nat, v: Word)
    ensures ShiftLaw(Srai, a, s, v) <==> v == ShiftWord(Srai, a, s)
  {
    hide ReadsSigned, Wrap, Signed, Pow2, IsFloor;
    var p := Pow2(s);
    SignedQuotient(a, p);
    SignedOnly(v, Wrap(Signed(a) / p));
    ReadsSignedIs(a, Signed(a));
    ReadsSignedIs(v, Signed(v));
    IsFloorIs(Signed(v), Signed(a), p);
    forall x: int, y: int | ReadsSigned(a, x) && ReadsSigned(v, y)
      ensures x == Signed(a) && y == Signed(v)
    {
      ReadsSignedIs(a, x);
      ReadsSignedIs(v, y);
    }
  }

  lemma LowProduct(a: Word, p: int)
    ensures SignExtend32(Wrap(Low32(a) * p)) == SignExtend32(a * p)
  {
    hide Wrap, SignExtend32;
    var k := Low32Is(a);
    LowOfWrap(Low32(a) * p);
    ProductCongruent(TWO32, Low32(a), a, k, p, p, 0);
    ModCongruent(TWO32, Low32(a) * p, a * p, k * p + a * 0 + k * 0 * TWO32);
    SignExtendCongruent(Low32(a) * p, a * p);
  }

  /** The host's shifts, and the interpreter's narrow ones. */
  lemma HostShifts(op: ShiftOp, a: Word, s: nat)
    requires s < (if WideShift(op) then 64 else 32)
    ensures HostShift(op, a, s) == ShiftWord(op, a, s)
  {
    hide Wrap, Signed, Signed32, Low32, SignExtend32, Pow2;
    ShiftAmount(op, s);
    var p := Pow2(s);
    match op
    case Slli =>
    case Srli =>
    case Srai =>
    case Slliw =>
      SignExtendLow(Wrap(Low32(a) * p));
      LowProduct(a, p);
    case Srliw => SignExtendLow(Low32(a) / p);
    case Sraiw =>
      SignExtendLow(Wrap(Signed32(a) / p));
      LowOfWrap(Signed32(a) / p);
  }

  lemma ShiftValueLaw(op: ShiftOp, a: Word, s: nat, v: Word)
    requires s < (if WideShift(op) then 64 else 32)
    ensures ShiftLaw(op, a, s, v) <==> v == HostShift(op, a, s)
  {
    hide ShiftLaw, HostShift, ShiftWord;
    ShiftLawIs(op, a, s, v);
    HostShifts(op, a, s);
  }

  // ----- register operations -----

  lemma SumsLow(a: Word, b: Word)
    ensures SignExtend32(Low32(a) + Low32(b)) == SignExtend32(a + b)
    ensures SignExtend32(Low32(a) - Low32(b)) == SignExtend32(a - b)
  {
    hide Low32, SignExtend32;
    var k := Low32Is(a);
    var j := Low32Is(b);
    ModCongruent(TWO32, Low32(a) + Low32(b), a + b, k + j);
    ModCongruent(TWO32, Low32(a) - Low32(b), a - b, k - j);
    SignExtendCongruent(Low32(a) + Low32(b), a + b);
    SignExtendCongruent(Low32(a) - Low32(b), a - b);
  }

  /** Shifts by a register are shifts by its lowest bits. */
  function AsShift(op: RegOp): Option<ShiftOp> {
    match op
    case Sll => Some(Slli) case Srl => Some(Srli) case Sra => Some(Srai)
    case Sllw => Some(Slliw) case Srlw => Some(Srliw) case Sraw => Some(Sraiw)
    case _ => None
  }

  lemma RegShifts(op: RegOp, a: Word, b: Word)
    requires AsShift(op).Some?
    ensures HostReg(op, a, b) == HostShift(AsShift(op).value, a, b % if WideReg(op) then 64 else 32)
    ensures WideShift(AsShift(op).value) == WideReg(op)
  {
    hide ShiftLeft, ShiftRight, ArithmeticShiftRight, Low32, Signed32, Signed, SignExtend32;
    Small(b % 64);
    Small(b % 32);
  }

  lemma RegLawIs(op: RegOp, a: Word, b: Word, v: Word)
    ensures RegLaw(op, a, b, v) <==> v == HostReg(op, a, b)
  {
    hide Bits, IsAnd, IsOr, IsXor, SameWord, ExtendsLow, SignExtend32, Wrap, Low32, ShiftLaw, HostShift;
    Small(b);
    if AsShift(op).Some? {
      RegShifts(op, a, b);
      ShiftValueLaw(AsShift(op).value, a, b % if WideReg(op) then 64 else 32, v);
    } else {
      RegSumIs(op, a, b, v);
    }
  }

  lemma RegSumIs(op: RegOp, a: Word, b: Word, v: Word)
    requires AsShift(op).None?
    ensures RegLaw(op, a, b, v) <==> v == HostReg(op, a, b)
  {
    hide Bits, IsAnd, IsOr, IsXor, SameWord, ExtendsLow, SignExtend32, Wrap, Low32;
    Small(b);
    match op
    case Add => WordIs(v, a + b);
    case Sub => WordIs(v, a - b);
    case And => BitlyIs(AndOp, a, b, v);
    case Or => BitlyIs(OrOp, a, b, v);
    case Xor => BitlyIs(XorOp, a, b, v);
    case Addw =>
      SumsLow(a, b);
      SignExtendLow(Low32(a) + Low32(b));
      ExtendsLowIs(v, a + b);
    case Subw =>
      SumsLow(a, b);
      SignExtendLow(Low32(a) - Low32(b));
      ExtendsLowIs(v, a - b);
  }

  // ----- comparisons -----

  lemma SetImmLawIs(unsigned: bool, a: Word, imm: int, v: Word)
    requires -TWO31 <= imm < TWO31
    ensures SetImmLaw(unsigned, a, imm, v)
       <==> v == BoolWord(if unsigned then a < Wrap(imm) else Signed(a) < Signed(Wrap(imm)))
  {
    hide SameWord, ReadsSigned, Wrap, Signed;
    if unsigned {
      WordIs(Wrap(imm), imm);
      forall b: Word | SameWord(b, imm)
        ensures b == Wrap(imm)
      {
        WordIs(b, imm);
      }
    } else {
      SmallImmediate(imm);
      ReadsSignedIs(a, Signed(a));
      forall x: int | ReadsSigned(a, x)
        ensures x == Signed(a)
      {
        ReadsSignedIs(a, x);
      }
    }
  }

  lemma ReadsOnce(a: Word)
    ensures ReadsSigned(a, Signed(a)) && forall x: int :: ReadsSigned(a, x) ==> x == Signed(a)
  {
    forall x: int | ReadsSigned(a, x)
      ensures x == Signed(a)
    {
      ReadsSignedIs(a, x);
    }
    ReadsSignedIs(a, Signed(a));
  }

  lemma SetLawIs(unsigned: bool, a: Word, b: Word, v: Word)
    ensures SetLaw(unsigned, a, b, v) <==> v == BoolWord(if unsigned then a < b else Signed(a) < Signed(b))
  {
    hide ReadsSigned, Signed;
    ReadsOnce(a);
    ReadsOnce(b);
  }

  // ----- multiplication, division, remainder -----

  /** The numbers operands stand for, and what the division of one by the other is. */
  function First(op: MulDivOp, a: Word): int {
    if op == Div || op == Rem then Signed(a)
    else if op == Divw || op == Remw then Signed32(a)
    else if op == Divuw || op == Remuw then Low32(a)
    else a
  }

  function QuotientOf(x: int, y: int): int { if y == 0 then -1 else TruncDiv(x, y) }

  lemma OperandsAre(op: MulDivOp, a: Word, b: Word, x: int, y: int)
    ensures Operands(op, a, b, x, y) <==> x == First(op, a) && y == First(op, b)
  {
    hide ReadsSigned, ReadsLow, ReadsSignedLow, Signed, Signed32, Low32;
    ReadsSignedIs(a, x);
    ReadsSignedIs(b, y);
    ReadsSignedLowIs(a, x);
    ReadsSignedLowIs(b, y);
    ReadsLowIs(a, x);
    ReadsLowIs(b, y);
  }

  lemma DividedIs(x: int, y: int, q: int, r: int)
    ensures Divided(x, y, q, r) <==> q == QuotientOf(x, y) && r == RemainderOver(x, y)
  {
    hide Divides, TruncDiv, TruncRem;
    if y != 0 {
      DividesIs(x, y, q, r);
    }
  }

  lemma MulDivLawIs(op: MulDivOp, a: Word, b: Word, v: Word)
    requires op != Mul && op != Mulw
    ensures MulDivLaw(op, a, b, v)
       <==> Result(op, v, QuotientOf(First(op, a), First(op, b)), RemainderOver(First(op, a), First(op, b)))
  {
    hide Operands, Divided, Result, QuotientOf, RemainderOver, First;
    var x, y := First(op, a), First(op, b);
    OperandsAre(op, a, b, x, y);
    DividedIs(x, y, QuotientOf(x, y), RemainderOver(x, y));
    forall x': int, y': int, q: int, r: int | Operands(op, a, b, x', y') && Divided(x', y', q, r)
      ensures q == QuotientOf(x, y) && r == RemainderOver(x, y)
    {
      OperandsAre(op, a, b, x', y');
      DividedIs(x', y', q, r);
    }
  }

  predicate Remains(op: MulDivOp) { op == Rem || op == Remu || op == Remw || op == Remuw }

  predicate Quotes(op: MulDivOp) { op == Div || op == Divu || op == Divw || op == Divuw }

  lemma ResultIs(op: MulDivOp, v: Word, q: int, r: int)
    requires Remains(op) || Quotes(op)
    ensures Result(op, v, q, r)
       <==> v == match op
                 case Div => Wrap(q) case Divu => Wrap(q) case Divw => SignExtend32(q) case Divuw => SignExtend32(q)
                 case Rem => Wrap(r) case Remu => Wrap(r) case _ => SignExtend32(r)
  {
    hide SameWord, ExtendsLow, Wrap, SignExtend32;
    WordIs(v, q);
    WordIs(v, r);
    ExtendsLowIs(v, q);
    ExtendsLowIs(v, r);
  }

  /** Divide, then multiply and subtract, gives the instruction set's remainder for all operands: zero
      divisors and the most negative number over -1 included. */
  lemma RemainderLowering(op: MulDivOp, a: Word, b: Word, v: Word)
    requires Remains(op)
    ensures MulDivLaw(op, a, b, v) <==> v == HostMulDiv(op, a, b)
  {
    hide MulDivLaw, Result, HostMulDiv, TruncRem, Signed, Signed32, Low32, Wrap, SignExtend32;
    MulDivLawIs(op, a, b, v);
    ResultIs(op, v, QuotientOf(First(op, a), First(op, b)), RemainderOver(First(op, a), First(op, b)));
    RemainderIs(op, a, b);
  }

  lemma ZeroReads(b: Word)
    ensures (Signed(b) == 0 <==> b == 0) && (Signed32(b) == 0 <==> Low32(b) == 0)
  {
  }

  /** The host's quotient of a zero divisor is zero, where the instruction set has all ones: translated
      divisions meet it exactly for the other divisors, the most negative number over -1 included. */
  lemma DivisionLowering(op: MulDivOp, a: Word, b: Word, v: Word)
    requires Quotes(op)
    ensures var y := if op == Div || op == Divu then b else Low32(b);
            && (y != 0 ==> (MulDivLaw(op, a, b, v) <==> v == HostMulDiv(op, a, b)))
            && (y == 0 ==> !MulDivLaw(op, a, b, HostMulDiv(op, a, b)))
  {
    hide MulDivLaw, Result, TruncDiv, TruncRem, Wrap, SignExtend32, Signed, Signed32, Low32;
    var q, r := QuotientOf(First(op, a), First(op, b)), RemainderOver(First(op, a), First(op, b));
    var h := HostMulDiv(op, a, b);
    ZeroReads(b);
    MulDivLawIs(op, a, b, v);
    MulDivLawIs(op, a, b, h);
    ResultIs(op, v, q, r);
    ResultIs(op, h, q, r);
    AllOnes();
    match op
    case Div =>
    case Divu => if b != 0 { UnsignedTrunc(a, b); }
    case Divw => SignExtendLow(TruncDiv(Signed32(a), if Signed32(b) == 0 then 1 else Signed32(b)));
    case Divuw =>
      if Low32(b) != 0 {
        UnsignedTrunc(Low32(a), Low32(b));
        SignExtendLow(Low32(a) / Low32(b));
      }
  }

  lemma AllOnes()
    ensures Wrap(-1) != 0 && SignExtend32(-1) != 0 && SignExtend32(0) == 0 && Wrap(0) == 0 && Low32(0) == 0
  {
  }

  lemma ProductLawIs(op: MulDivOp, a: Word, b: Word, v: Word)
    requires op == Mul || op == Mulw
    ensures MulDivLaw(op, a, b, v) <==> v == HostMulDiv(op, a, b)
  {
    hide SameWord, ExtendsLow, Wrap, SignExtend32, Low32;
    WordIs(v, a * b);
    ExtendsLowIs(v, a * b);
    SignExtendLow(Low32(a) * Low32(b));
    var k := Low32Is(a);
    var j := Low32Is(b);
    ProductCongruent(TWO32, Low32(a), a, k, Low32(b), b, j);
    ModCongruent(TWO32, Low32(a) * Low32(b), a * b, k * b + a * j + k * j * TWO32);
    SignExtendCongruent(Low32(a) * Low32(b), a * b);
  }

  // ----- both engines -----

  /** A division by zero. */
  predicate ByZero(i: Instruction, b: Word) {
    i.op.MulDiv? && Quotes(i.op.mulDiv)
    && (if i.op.mulDiv == Div || i.op.mulDiv == Divu then b == 0 else Low32(b) == 0)
  }

  /** For every computing instruction and all operands but those of a division by zero, what translated
      code computes is what the instruction set asks for, and nothing else is; for those it is not. */
  lemma TranslatedValueLaw(i: Instruction, pc: Word, a: Word, b: Word, v: Word)
    requires IsCompute(i.op) && WellFormed(i)
    ensures !ByZero(i, b) ==> (ValueLaw(i, pc, a, b, v) <==> v == HostCompute(i, pc, a, b))
    ensures ByZero(i, b) ==> !ValueLaw(i, pc, a, b, HostCompute(i, pc, a, b))
  {
    hide ImmLaw, ShiftLaw, RegLaw, SetLaw, SetImmLaw, MulDivLaw, HostImm, HostShift, HostReg, HostMulDiv, SameWord,
      Low32;
    match i.op
    case Lui => WordIs(v, i.imm);
    case Auipc => WordIs(v, pc + i.imm);
    case Imm(op) => ImmLawIs(op, a, i.imm, v);
    case Shift(op) => ShiftValueLaw(op, a, i.shamt, v);
    case SetImm(unsigned) => SetImmLawIs(unsigned, a, i.imm, v);
    case Set(unsigned) => SetLawIs(unsigned, a, b, v);
    case Reg(op) => RegLawIs(op, a, b, v);
    case MulDiv(op) =>
      if Remains(op) {
        RemainderLowering(op, a, b, v);
      } else if Quotes(op) {
        DivisionLowering(op, a, b, v);
      } else {
        ProductLawIs(op, a, b, v);
      }
  }

  /** Where its C++ has a value, the interpreter computes what the instruction set asks for exactly when the
      operands are such that the two engines agree. */
  lemma InterpretedValueLaw(i: Instruction, pc: Word, a: Word, b: Word)
    requires IsCompute(i.op) && WellFormed(i) && ComputeValue(i, pc, a, b).Some?
    ensures ValueLaw(i, pc, a, b, ComputeValue(i, pc, a, b).value) <==> OperandsAgree(i, a, b)
  {
    hide ValueLaw, HostCompute, OperandsAgree, Low32;
    TranslatedValueLaw(i, pc, a, b, ComputeValue(i, pc, a, b).value);
    OperandsAgreeIsExact(i, pc, a, b);
    DefinedDivides(i, pc, a, b);
  }

  /** Exactly where its C++ has no value: a zero divisor, that of Mulw included, and the most negative number
      over -1, at 64 and at 32 bits. */
  lemma InterpreterUndefined(i: Instruction, pc: Word, a: Word, b: Word, x: int, y: int)
    requires i.op.MulDiv? && Operands(i.op.mulDiv, a, b, x, y)
    ensures ComputeValue(i, pc, a, b).None?
       <==> match i.op.mulDiv
            case Mul => false
            case Mulw => SameLow(b, 0)
            case Div => y == 0 || (x == -0x8000_0000_0000_0000 && y == -1)
            case Rem => y == 0 || (x == -0x8000_0000_0000_0000 && y == -1)
            case Divw => y == 0 || (x == -0x8000_0000 && y == -1)
            case Remw => y == 0 || (x == -0x8000_0000 && y == -1)
            case _ => y == 0
  {
    hide Operands, Signed, Signed32, TruncDiv, TruncRem, SignExtend32, Wrap;
    OperandsAre(i.op.mulDiv, a, b, x, y);
  }

  lemma DefinedDivides(i: Instruction, pc: Word, a: Word, b: Word)
    requires IsCompute(i.op) && ComputeValue(i, pc, a, b).Some?
    ensures !ByZero(i, b)
  {
    hide Signed, Signed32, Low32, TruncDiv, SignExtend32, Wrap;
    ZeroReads(b);
  }

  /** In particular translated Srai and Sra shift right, the sign included. */
  lemma ShiftsRight(a: Word, b: Word, shamt: nat)
    requires shamt < 64
    ensures ShiftLaw(Srai, a, shamt, HostShift(Srai, a, shamt)) && RegLaw(Sra, a, b, HostReg(Sra, a, b))
  {
    hide ShiftLaw, RegLaw, HostShift, HostReg;
    ShiftValueLaw(Srai, a, shamt, HostShift(Srai, a, shamt));
    RegLawIs(Sra, a, b, HostReg(Sra, a, b));
  }

  /** Where the interpreter does not, it shifts left for Srai and Sra, */
  lemma InterpreterShiftsLeft(i: Instruction, pc: Word, a: Word, b: Word)
    requires i.op == Shift(Srai) || i.op == Reg(Sra)
    ensures var s := if i.op.Shift? then i.shamt else b % 64;
            ComputeValue(i, pc, a, b).Some? && SameWord(ComputeValue(i, pc, a, b).value, a * Pow2(s))
  {
    hide Wrap, Signed, SameWord, Pow2;
    var p := Pow2(if i.op.Shift? then i.shamt else b % 64);
    var k := SignedIs(a);
    ProductCongruent(TWO64, a, Signed(a), k, p, p, 0);
    WrapCongruent(a * p, Signed(a) * p, k * p + Signed(a) * 0 + k * 0 * TWO64);
    WordIs(Wrap(a * p), a * p);
  }

  /** and for Mulw divides the lower halves. */
  lemma InterpreterDivides(i: Instruction, pc: Word, a: Word, b: Word, x: int, y: int, q: int, r: int)
    requires i.op == MulDiv(Mulw) && ReadsLow(a, x) && ReadsLow(b, y)
    ensures ComputeValue(i, pc, a, b).Some? <==> y != 0
    ensures y != 0 && Divides(x, y, q, r) ==> ExtendsLow(ComputeValue(i, pc, a, b).value, q)
  {
    hide Low32, SignExtend32, ReadsLow, Divides, TruncDiv, TruncRem, ExtendsLow;
    ReadsLowIs(a, x);
    ReadsLowIs(b, y);
    if y != 0 {
      DividesIs(x, y, q, r);
      UnsignedTrunc(x, y);
      ExtendsLowIs(SignExtend32(x / y), x / y);
    }
  }
}
