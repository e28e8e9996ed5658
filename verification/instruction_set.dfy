/** The instruction set itself, in numbers: what each instruction must do by the RISC-V Unprivileged ISA
    20191213, chapters 2 and 5 to 7, as a relation between the machine before and after. It uses none of the
    arithmetic the two engines are built from. */
module InstructionSet {
  import opened Words
  import opened Instructions
  import opened Memories
  import opened Interpreter

  // ----- numbers in registers -----

  /** The same 64 bits. */
  predicate SameWord(x: int, y: int) { (x - y) % 0x1_0000_0000_0000_0000 == 0 }

  /** The same lower 32 bits. */
  predicate SameLow(x: int, y: int) { (x - y) % 0x1_0000_0000 == 0 }

  /** A register that holds v holds x as a signed number. */
  predicate ReadsSigned(v: Word, x: int) {
    -0x8000_0000_0000_0000 <= x < 0x8000_0000_0000_0000 && SameWord(x, v)
  }

  /** Its lower half holds x as a signed number. */
  predicate ReadsSignedLow(v: Word, x: int) { -0x8000_0000 <= x < 0x8000_0000 && SameLow(x, v) }

  predicate ReadsLow(v: Word, x: int) { 0 <= x < 0x1_0000_0000 && SameLow(x, v) }

  /** v is the lower half of x, its sign extended over the upper half. */
  predicate ExtendsLow(v: Word, x: int) {
    (v < 0x8000_0000 || v >= 0xffff_ffff_8000_0000) && SameLow(v, x)
  }

  function BitAt(x: int, k: nat): int { (x / Pow2(k)) % 2 }

  predicate IsAnd(a: int, b: int, v: Word) {
    forall k: nat :: k < 64 ==> BitAt(v, k) == BitAt(a, k) * BitAt(b, k)
  }

  predicate IsOr(a: int, b: int, v: Word) {
    forall k: nat :: k < 64 ==> BitAt(v, k) == BitAt(a, k) + BitAt(b, k) - BitAt(a, k) * BitAt(b, k)
  }

  predicate IsXor(a: int, b: int, v: Word) {
    forall k: nat :: k < 64 ==> BitAt(v, k) == (BitAt(a, k) + BitAt(b, k)) % 2
  }

  /** q is the largest whole number of times p goes into x. */
  predicate IsFloor(q: int, x: int, p: int) { q * p <= x < (q + 1) * p }

  /** Quotient and remainder of a division that rounds toward zero. */
  predicate Divides(x: int, y: int, q: int, r: int) {
    && x == q * y + r && (r == 0 || (r < 0) == (x < 0))
    && (if r < 0 then -r else r) < (if y < 0 then -y else y)
  }

  /** Section 7.2: a zero divisor gives all ones, and leaves the dividend. */
  predicate Divided(x: int, y: int, q: int, r: int) {
    if y == 0 then q == -1 && r == x else Divides(x, y, q, r)
  }

  // ----- values computed -----

  predicate ImmLaw(op: ImmOp, a: Word, imm: int, v: Word) {
    match op
    case Addi => SameWord(v, a + imm)
    case Addiw => ExtendsLow(v, a + imm)
    case Andi => IsAnd(a, imm, v)
    case Ori => IsOr(a, imm, v)
    case Xori => IsXor(a, imm, v)
  }

  ghost predicate ShiftLaw(op: ShiftOp, a: Word, s: nat, v: Word) {
    match op
    case Slli => SameWord(v, a * Pow2(s))
    case Srli => IsFloor(v, a, Pow2(s))
    case Srai => forall x: int, y: int :: ReadsSigned(a, x) && ReadsSigned(v, y) ==> IsFloor(y, x, Pow2(s))
    case Slliw => ExtendsLow(v, a * Pow2(s))
    case Srliw => forall x: int, q: int :: ReadsLow(a, x) && IsFloor(q, x, Pow2(s)) ==> ExtendsLow(v, q)
    case Sraiw => forall x: int, q: int :: ReadsSignedLow(a, x) && IsFloor(q, x, Pow2(s)) ==> ExtendsLow(v, q)
  }

  ghost predicate RegLaw(op: RegOp, a: Word, b: Word, v: Word) {
    match op
    case Add => SameWord(v, a + b)
    case Sub => SameWord(v, a - b)
    case And => IsAnd(a, b, v)
    case Or => IsOr(a, b, v)
    case Xor => IsXor(a, b, v)
    case Sll => ShiftLaw(Slli, a, b % 64, v)
    case Srl => ShiftLaw(Srli, a, b % 64, v)
    case Sra => ShiftLaw(Srai, a, b % 64, v)
    case Addw => ExtendsLow(v, a + b)
    case Subw => ExtendsLow(v, a - b)
    case Sllw => ShiftLaw(Slliw, a, b % 32, v)
    case Srlw => ShiftLaw(Srliw, a, b % 32, v)
    case Sraw => ShiftLaw(Sraiw, a, b % 32, v)
  }

  predicate IsTruth(v: Word, b: bool) { v == if b then 1 else 0 }

  ghost predicate SetImmLaw(unsigned: bool, a: Word, imm: int, v: Word) {
    if unsigned then forall b: Word :: SameWord(b, imm) ==> IsTruth(v, a < b)
    else forall x: int :: ReadsSigned(a, x) ==> IsTruth(v, x < imm)
  }

  ghost predicate SetLaw(unsigned: bool, a: Word, b: Word, v: Word) {
    if unsigned then IsTruth(v, a < b)
    else forall x: int, y: int :: ReadsSigned(a, x) && ReadsSigned(b, y) ==> IsTruth(v, x < y)
  }

  /** The numbers a division is about. */
  predicate Operands(op: MulDivOp, a: Word, b: Word, x: int, y: int) {
    match op
    case Div => ReadsSigned(a, x) && ReadsSigned(b, y)
    case Rem => ReadsSigned(a, x) && ReadsSigned(b, y)
    case Divw => ReadsSignedLow(a, x) && ReadsSignedLow(b, y)
    case Remw => ReadsSignedLow(a, x) && ReadsSignedLow(b, y)
    case Divuw => ReadsLow(a, x) && ReadsLow(b, y)
    case Remuw => ReadsLow(a, x) && ReadsLow(b, y)
    case _ => x == a && y == b
  }

  /** What the register then holds. */
  predicate Result(op: MulDivOp, v: Word, q: int, r: int) {
    match op
    case Div => SameWord(v, q)
    case Divu => SameWord(v, q)
    case Divw => ExtendsLow(v, q)
    case Divuw => ExtendsLow(v, q)
    case Rem => SameWord(v, r)
    case Remu => SameWord(v, r)
    case _ => ExtendsLow(v, r)
  }

  ghost predicate MulDivLaw(op: MulDivOp, a: Word, b: Word, v: Word) {
    match op
    case Mul => SameWord(v, a * b)
    case Mulw => ExtendsLow(v, a * b)
    case _ =>
      forall x: int, y: int, q: int, r: int :: Operands(op, a, b, x, y) && Divided(x, y, q, r) ==> Result(op, v, q, r)
  }

  /** v is what the instruction computes from registers that hold a and b. */
  ghost predicate ValueLaw(i: Instruction, pc: Word, a: Word, b: Word, v: Word)
    requires IsCompute(i.op)
  {
    match i.op
    case Lui => SameWord(v, i.imm)
    case Auipc => SameWord(v, pc + i.imm)
    case Imm(op) => ImmLaw(op, a, i.imm, v)
    case Shift(op) => ShiftLaw(op, a, i.shamt, v)
    case SetImm(unsigned) => SetImmLaw(unsigned, a, i.imm, v)
    case Set(unsigned) => SetLaw(unsigned, a, b, v)
    case Reg(op) => RegLaw(op, a, b, v)
    case MulDiv(op) => MulDivLaw(op, a, b, v)
  }

  // ----- memory -----

  /** The bytes of an access are in bounds, and each is flagged: 1 for reading, 2 for writing, 4 for fetching. */
  predicate Granted(m: Mem, address: int, n: nat, flag: nat)
    requires flag != 0
  {
    && 0 <= address && address + n <= m.size && m.size <= |m.perms| && m.size <= |m.bytes|
    && forall k :: address <= k < address + n ==> (m.perms[k] / flag) % 2 == 1
  }

  function LoadBytes(op: LoadOp): nat {
    match op case Lb => 1 case Lbu => 1 case Lh => 2 case Lhu => 2 case Lw => 4 case Lwu => 4 case Ld => 8
  }

  function StoreBytes(op: StoreOp): nat {
    match op case Sb => 1 case Sh => 2 case Sw => 4 case Sd => 8
  }

  function ByteAt(s: seq<Byte>, k: nat): nat
    requires k < |s|
  {
    s[k]
  }

  /** The number in 1, 2, 4 or 8 bytes, the first the least. */
  function Number(s: seq<Byte>, u: nat, n: nat): nat
    requires u + n <= |s| && (n == 1 || n == 2 || n == 4 || n == 8)
  {
    if n == 1 then ByteAt(s, u)
    else if n == 2 then ByteAt(s, u) + 0x100 * ByteAt(s, u + 1)
    else if n == 4 then Number(s, u, 2) + 0x1_0000 * ByteAt(s, u + 2) + 0x100_0000 * ByteAt(s, u + 3)
    else
      Number(s, u, 4) + 0x1_0000_0000 * ByteAt(s, u + 4) + 0x100_0000_0000 * ByteAt(s, u + 5)
      + 0x1_0000_0000_0000 * ByteAt(s, u + 6) + 0x100_0000_0000_0000 * ByteAt(s, u + 7)
  }

  /** v is the number loaded, extended as the instruction says. */
  predicate Extended(op: LoadOp, x: nat, v: Word) {
    match op
    case Lb => (v < 0x80 || v >= 0xffff_ffff_ffff_ff80) && (v - x) % 0x100 == 0
    case Lh => (v < 0x8000 || v >= 0xffff_ffff_ffff_8000) && (v - x) % 0x1_0000 == 0
    case Lw => (v < 0x8000_0000 || v >= 0xffff_ffff_8000_0000) && (v - x) % 0x1_0000_0000 == 0
    case _ => v == x
  }

  /** n bytes hold the lowest bytes of v, the first the least, and everything else is as it was. */
  ghost predicate Holding(m: Mem, t: Mem, u: nat, n: nat, v: Word) {
    && t.size == m.size && t.perms == m.perms && |t.bytes| == |m.bytes|
    && forall k: nat :: k < |m.bytes| ==>
         t.bytes[k] == if u <= k < u + n then (v / Pow2(8 * (k - u))) % 0x100 else m.bytes[k]
  }

  // ----- instructions -----

  /** Registers x0 to x31 but for rd are as they were. */
  ghost predicate Others(s: Machine, t: Machine, rd: nat) {
    forall k: nat :: k < 32 && (k != rd || rd == 0) ==> t.regs[k] == s.regs[k]
  }

  ghost predicate GoesOn(s: Machine, t: Machine) { SameWord(t.regs[32], s.regs[32] as int + 4) }

  ghost predicate Taken(op: BranchOp, a: Word, b: Word) {
    match op
    case Beq => a == b
    case Bne => a != b
    case Bltu => a < b
    case Bgeu => a >= b
    case Blt => forall x: int, y: int :: ReadsSigned(a, x) && ReadsSigned(b, y) ==> x < y
    case Bge => forall x: int, y: int :: ReadsSigned(a, x) && ReadsSigned(b, y) ==> x >= y
  }

  ghost predicate LoadLaw(i: Instruction, s: Machine, t: Machine)
    requires i.op.Load?
  {
    t.mem == s.mem && Others(s, t, i.rd) && GoesOn(s, t)
    && forall u: Word :: SameWord(u, s.regs[i.rs1] + i.imm) ==>
         && Granted(s.mem, u, LoadBytes(i.op.load), 1)
         && (i.rd != 0 ==> Extended(i.op.load, Number(s.mem.bytes, u, LoadBytes(i.op.load)), t.regs[i.rd]))
  }

  ghost predicate StoreLaw(i: Instruction, s: Machine, t: Machine)
    requires i.op.Store?
  {
    Others(s, t, 0) && GoesOn(s, t)
    && forall u: Word :: SameWord(u, s.regs[i.rs1] + i.imm) ==>
         && Granted(s.mem, u, StoreBytes(i.op.store), 2)
         && Holding(s.mem, t.mem, u, StoreBytes(i.op.store), s.regs[i.rs2])
  }

  /** The instruction takes the machine from s to t. */
  ghost predicate Executes(i: Instruction, s: Machine, t: Machine) {
    var pc, a, b := s.regs[32], s.regs[i.rs1], s.regs[i.rs2];
    match i.op
    case Jal =>
      t.mem == s.mem && Others(s, t, i.rd) && SameWord(t.regs[32], pc + i.imm)
      && (i.rd != 0 ==> SameWord(t.regs[i.rd], pc + 4))
    case Jalr =>
      t.mem == s.mem && Others(s, t, i.rd) && t.regs[32] % 2 == 0
      && (SameWord(t.regs[32], a + i.imm) || SameWord(t.regs[32] + 1, a + i.imm))
      && (i.rd != 0 ==> SameWord(t.regs[i.rd], pc + 4))
    case Branch(op) =>
      t.mem == s.mem && Others(s, t, 0) && SameWord(t.regs[32], pc + if Taken(op, a, b) then i.imm else 4)
    case Load(_) => LoadLaw(i, s, t)
    case Store(_) => StoreLaw(i, s, t)
    case Fence => t.mem == s.mem && Others(s, t, 0) && GoesOn(s, t)
    case _ =>
      IsCompute(i.op) && t.mem == s.mem && Others(s, t, i.rd) && GoesOn(s, t)
      && (i.rd != 0 ==> ValueLaw(i, pc, a, b, t.regs[i.rd]))
  }

  /** i is the instruction at the pc. */
  ghost predicate Fetches(s: Machine, i: Instruction) {
    Granted(s.mem, s.regs[32], 4, 4) && Number(s.mem.bytes, s.regs[32], 4) < 0x1_0000_0000
    && Decoded(Number(s.mem.bytes, s.regs[32], 4)) == i
  }

  /** k instructions, each as the instruction set has it, lead from s to t. */
  ghost predicate Runs(s: Machine, k: nat, t: Machine)
    decreases k
  {
    if k == 0 then s == t
    else exists i: Instruction, u: Machine :: Fetches(s, i) && Executes(i, s, u) && Runs(u, k - 1, t)
  }
}
