/** The reference engine: one guest instruction at a time over the register table and memory. */
module Interpreter {
  import opened Words
  import opened Instructions
  import opened Memories

  const PC: nat := 32

  /** The 33 entries of RegisterState: x0 to x31 and the pc. */
  type Registers = s: seq<Word> | |s| == 33 witness seq(33, _ => 0)

  datatype Machine = Machine(regs: Registers, mem: Mem) {
    function Pc(): Word { regs[PC] }
  }

  datatype Reason =
    | UnalignedPc | OutOfBoundsPc | InstructionFetchFault | UndefinedInstruction
    | MemoryReadFault | MemoryWriteFault | EcallExit | EbreakExit

  datatype Exit = Exit(reason: Reason, faultyAddress: Word, target: GuestReg)

  /** A step goes on, leaves the VM, has undefined behaviour in C++, or hits fatal_error. */
  datatype StepResult = Next(machine: Machine) | Stop(exit: Exit) | UndefinedBehaviour | Fatal

  function SimpleExit(r: Reason): Exit { Exit(r, 0, 0) }

  function SetReg(regs: Registers, r: GuestReg, v: Word): Registers {
    if r == 0 then regs else regs[r := v]
  }

  function SetPc(regs: Registers, pc: Word): Registers {
    regs[PC := pc]
  }

  // ----- what each instruction computes -----

  function BranchTaken(op: BranchOp, a: Word, b: Word): bool {
    match op
    case Beq => a == b
    case Bne => a != b
    case Blt => Signed(a) < Signed(b)
    case Bge => Signed(a) >= Signed(b)
    case Bltu => a < b
    case Bgeu => a >= b
  }

  function LoadWidth(op: LoadOp): (n: nat)
    ensures Width(n)
  {
    match op case Lb => 1 case Lbu => 1 case Lh => 2 case Lhu => 2 case Lw => 4 case Lwu => 4 case Ld => 8
  }

  function StoreWidth(op: StoreOp): (n: nat)
    ensures Width(n)
  {
    match op case Sb => 1 case Sh => 2 case Sw => 4 case Sd => 8
  }

  function LoadExtend(op: LoadOp, v: nat): Word {
    match op
    case Lb => SignExtend(v, 8)
    case Lh => SignExtend(v, 16)
    case Lw => SignExtend(v, 32)
    case _ => Wrap(v)
  }

  function ImmValue(op: ImmOp, a: Word, imm: int): Word {
    match op
    case Addi => Wrap(a + imm)
    case Xori => Bits(XorOp, a, Wrap(imm))
    case Ori => Bits(OrOp, a, Wrap(imm))
    case Andi => Bits(AndOp, a, Wrap(imm))
    case Addiw => SignExtend32(Wrap(a + imm))
  }

  /** Srai shifts left, as the source has it. */
  function ShiftValue(op: ShiftOp, a: Word, shamt: nat): Word {
    match op
    case Slli => ShiftLeft(a, shamt)
    case Srli => ShiftRight(a, shamt)
    case Srai => ShiftLeft(Signed(a), shamt)
    case Slliw => SignExtend32(ShiftLeft(Low32(a), shamt))
    case Srliw => SignExtend32(ShiftRight(Low32(a), shamt))
    case Sraiw => SignExtend32(ArithmeticShiftRight(Signed32(a), shamt))
  }

  /** Sra shifts left, as the source has it. */
  function RegValue(op: RegOp, a: Word, b: Word): Word {
    match op
    case Add => Wrap(a + b)
    case Sub => Wrap(a - b)
    case Xor => Bits(XorOp, a, b)
    case Or => Bits(OrOp, a, b)
    case And => Bits(AndOp, a, b)
    case Sll => ShiftLeft(a, b % 64)
    case Srl => ShiftRight(a, b % 64)
    case Sra => ShiftLeft(Signed(a), b % 64)
    case Addw => SignExtend32(Low32(a) + Low32(b))
    case Subw => SignExtend32(Low32(a) - Low32(b))
    case Sllw => SignExtend32(ShiftLeft(Low32(a), b % 32))
    case Srlw => SignExtend32(ShiftRight(Low32(a), b % 32))
    case Sraw => SignExtend32(ArithmeticShiftRight(Signed32(a), b % 32))
  }

  /** int64_t division is undefined for a zero divisor and for the most negative number over -1. */
  predicate DivisionDefined(a: int, b: int, least: int) {
    b != 0 && !(a == least && b == -1)
  }

  /** None where the C++ expression has no defined value. Mulw divides, as the source has it. */
  function MulDivValue(op: MulDivOp, a: Word, b: Word): Option<Word> {
    match op
    case Mul => Some(Wrap(a * b))
    case Mulw => if Low32(b) == 0 then None else Some(SignExtend32(Low32(a) / Low32(b)))
    case Div => if DivisionDefined(Signed(a), Signed(b), -TWO63) then Some(Wrap(TruncDiv(Signed(a), Signed(b))))
      else None
    case Divw =>
      if DivisionDefined(Signed32(a), Signed32(b), -TWO31) then Some(SignExtend32(TruncDiv(Signed32(a), Signed32(b))))
        else None
    case Divu => if b == 0 then None else Some(Wrap(a / b))
    case Divuw => if Low32(b) == 0 then None else Some(SignExtend32(Low32(a) / Low32(b)))
    case Rem => if DivisionDefined(Signed(a), Signed(b), -TWO63) then Some(Wrap(TruncRem(Signed(a), Signed(b))))
      else None
    case Remu => if b == 0 then None else Some(Wrap(a % b))
    case Remw =>
      if DivisionDefined(Signed32(a), Signed32(b), -TWO31) then Some(SignExtend32(TruncRem(Signed32(a), Signed32(b))))
        else None
    case Remuw => if Low32(b) == 0 then None else Some(SignExtend32(Low32(a) % Low32(b)))
  }

  /** Instructions that only compute rd from rs1, rs2, the immediate and the pc. */
  predicate IsCompute(op: InstructionType) {
    op.Lui? || op.Auipc? || op.Imm? || op.Shift? || op.SetImm? || op.Set? || op.Reg? || op.MulDiv?
  }

  function ComputeValue(i: Instruction, pc: Word, a: Word, b: Word): Option<Word>
    requires IsCompute(i.op)
  {
    match i.op
    case Lui => Some(Wrap(i.imm))
    case Auipc => Some(Wrap(pc + i.imm))
    case Imm(op) => Some(ImmValue(op, a, i.imm))
    case Shift(op) => Some(ShiftValue(op, a, i.shamt))
    case SetImm(unsigned) => Some(BoolWord(if unsigned then a < Wrap(i.imm) else Signed(a) < Signed(Wrap(i.imm))))
    case Set(unsigned) => Some(BoolWord(if unsigned then a < b else Signed(a) < Signed(b)))
    case Reg(op) => Some(RegValue(op, a, b))
    case MulDiv(op) => MulDivValue(op, a, b)
  }

  // ----- one step -----

  function Fetch(m: Mem, pc: Word): Option<Instruction>
    requires |m.perms| >= m.size && |m.bytes| >= m.size
  {
    match ReadMem(m, pc, 4, ExecuteAccess)
    case Some(v) => Some(Decoded(Low32(v)))
    case None => None
  }

  function Execute(i: Instruction, s: Machine): StepResult
    requires |s.mem.perms| >= s.mem.size && |s.mem.bytes| >= s.mem.size
  {
    var pc := s.Pc();
    var a, b := s.regs[i.rs1], s.regs[i.rs2];
    var next := Wrap(pc + 4);
    match i.op
    case Jal => Next(s.(regs := SetPc(SetReg(s.regs, i.rd, next), Wrap(pc + i.imm))))
    case Jalr => Next(s.(regs := SetPc(SetReg(s.regs, i.rd, next), ClearLowBit(Wrap(a + i.imm)))))
    case Branch(op) => Next(s.(regs := SetPc(s.regs, if BranchTaken(op, a, b) then Wrap(pc + i.imm) else next)))
    case Load(op) => (
      var address := Wrap(a + i.imm);
      match ReadMem(s.mem, address, LoadWidth(op), ReadAccess)
      case Some(v) => Next(s.(regs := SetPc(SetReg(s.regs, i.rd, LoadExtend(op, v)), next)))
      case None => Stop(Exit(MemoryReadFault, address, i.rd)))
    case Store(op) => (
      var address := Wrap(a + i.imm);
      match WriteMem(s.mem, address, StoreWidth(op), b)
      case Some(mem) => Next(Machine(SetPc(s.regs, next), mem))
      case None => Stop(Exit(MemoryWriteFault, address, i.rs2)))
    case MulHigh(_) => Fatal
    case Fence => Next(s.(regs := SetPc(s.regs, next)))
    case Ecall => Stop(SimpleExit(EcallExit))
    case Ebreak => Stop(SimpleExit(EbreakExit))
    case Undefined => Stop(SimpleExit(UndefinedInstruction))
    case _ =>
      match ComputeValue(i, pc, a, b)
      case Some(v) => Next(s.(regs := SetPc(SetReg(s.regs, i.rd, v), next)))
      case None => UndefinedBehaviour
  }

  function ClearLowBit(x: Word): Word { x - x % 2 }

  function Step(s: Machine): StepResult
    requires |s.mem.perms| >= s.mem.size && |s.mem.bytes| >= s.mem.size
  {
    if s.Pc() % 4 != 0 then Stop(SimpleExit(UnalignedPc))
    else
      match Fetch(s.mem, s.Pc())
      case None => Stop(SimpleExit(InstructionFetchFault))
      case Some(i) => Execute(i, s)
  }

  // ----- what a step keeps -----

  /** No byte may be both written and executed. */
  ghost predicate WriteXorExecute(m: Mem) {
    forall i :: 0 <= i < |m.perms| ==>
      !(HasFlag(m.perms[i], Flag(WriteAccess)) && HasFlag(m.perms[i], Flag(ExecuteAccess)))
  }

  /** Same size and permissions, and the same contents wherever instructions may be fetched. */
  ghost predicate SameCode(m: Mem, n: Mem) {
    && m.size == n.size && m.perms == n.perms && |m.bytes| == |n.bytes|
    && forall i :: 0 <= i < |m.perms| && i < |m.bytes| && HasFlag(m.perms[i], Flag(ExecuteAccess)) ==>
       m.bytes[i] == n.bytes[i]
  }

  lemma {:induction false} LoadDependsOnRange(s: seq<Byte>, t: seq<Byte>, address: nat, n: nat)
    requires address + n <= |s| && |s| == |t|
    requires forall i :: address <= i < address + n ==> s[i] == t[i]
    ensures LoadLE(s, address, n) == LoadLE(t, address, n)
    decreases n
  {
    if n > 0 {
      LoadDependsOnRange(s, t, address + 1, n - 1);
    }
  }

  lemma FetchInside(m: Mem, pc: Word)
    requires |m.perms| >= m.size && |m.bytes| >= m.size && Fetch(m, pc).Some?
    ensures pc + 4 <= m.size
  {
    hide Decoded, LoadLE, HasFlag;
  }

  /** Memories that agree on executable bytes are fetched from alike. */
  lemma FetchSameCode(m: Mem, n: Mem, pc: Word)
    requires ValidMem(m) && ValidMem(n) && SameCode(m, n)
    ensures Fetch(m, pc) == Fetch(n, pc)
  {
    if Permitted(m, pc, 4, ExecuteAccess) {
      LoadDependsOnRange(m.bytes, n.bytes, pc, 4);
    }
  }

  /** Under write-xor-execute a permitted store leaves all code as it was. */
  lemma StoreKeepsCode(m: Mem, address: Word, n: nat, v: Word)
    requires ValidMem(m) && WriteXorExecute(m) && WriteMem(m, address, n, v).Some?
    ensures ValidMem(WriteMem(m, address, n, v).value) && SameCode(m, WriteMem(m, address, n, v).value)
    ensures WriteXorExecute(WriteMem(m, address, n, v).value)
  {
    hide HasFlag, Flag;
  }

  lemma ExecuteKeeps(i: Instruction, s: Machine)
    requires ValidMem(s.mem) && s.regs[0] == 0 && Execute(i, s).Next?
    ensures Execute(i, s).machine.regs[0] == 0
    ensures !i.op.Store? ==> Execute(i, s).machine.mem == s.mem
    ensures i.op.Store? ==>
              Some(Execute(i, s).machine.mem) == WriteMem(s.mem, Wrap(s.regs[i.rs1] + i.imm), StoreWidth(i.op.store),
                s.regs[i.rs2])
  {
    hide ComputeValue, LoadExtend, BranchTaken, ReadMem, WriteMem, Padded, Wrap;
  }

  lemma SameCodeItself(m: Mem)
    ensures SameCode(m, m)
  {
  }

  /** Executing an instruction keeps memory well formed, x0 zero, write-xor-execute, and every
      instruction word. */
  lemma ExecuteKeepsCode(i: Instruction, s: Machine)
    requires ValidMem(s.mem) && WriteXorExecute(s.mem) && s.regs[0] == 0 && Execute(i, s).Next?
    ensures var t := Execute(i, s).machine;
            ValidMem(t.mem) && WriteXorExecute(t.mem) && t.regs[0] == 0 && SameCode(s.mem, t.mem)
  {
    hide Execute, WriteMem, WriteXorExecute, Padded, Wrap, SameCode, HasFlag, Flag;
    ExecuteKeeps(i, s);
    if i.op.Store? {
      StoreKeepsCode(s.mem, Wrap(s.regs[i.rs1] + i.imm), StoreWidth(i.op.store), s.regs[i.rs2]);
    } else {
      SameCodeItself(s.mem);
    }
  }

  lemma StepExecutes(s: Machine)
    requires ValidMem(s.mem) && Step(s).Next?
    ensures s.Pc() % 4 == 0 && Fetch(s.mem, s.Pc()).Some? && Step(s) == Execute(Fetch(s.mem, s.Pc()).value, s)
  {
    hide Execute, Fetch, Padded;
  }

  /** So does a step. */
  lemma StepKeeps(s: Machine)
    requires ValidMem(s.mem) && WriteXorExecute(s.mem) && s.regs[0] == 0 && Step(s).Next?
    ensures var t := Step(s).machine;
            ValidMem(t.mem) && WriteXorExecute(t.mem) && t.regs[0] == 0 && SameCode(s.mem, t.mem)
  {
    hide Execute, Fetch, Step, WriteXorExecute, Padded, SameCode, HasFlag, Flag;
    StepExecutes(s);
    ExecuteKeepsCode(Fetch(s.mem, s.Pc()).value, s);
  }
}
