/** Translation of a guest block to host code. */
module Translator {
  import opened Words
  import opened Instructions
  import opened Memories
  import opened Interpreter
  import opened HostMachine
  import opened RegisterCaches

  /** ArchExitReason, in declaration order. */
  datatype ArchExit =
    | ArchUnalignedPc | ArchOutOfBoundsPc | ArchFetchFault | ArchBlockNotGenerated | ArchSingleStep
    | ArchUndefined | ArchUnsupported | ArchReadFault | ArchWriteFault | ArchEcall | ArchEbreak

  function ArchCode(e: ArchExit): (w: Word)
    ensures w < 11
  {
    match e
    case ArchUnalignedPc => 0 case ArchOutOfBoundsPc => 1 case ArchFetchFault => 2
    case ArchBlockNotGenerated => 3 case ArchSingleStep => 4 case ArchUndefined => 5
    case ArchUnsupported => 6 case ArchReadFault => 7 case ArchWriteFault => 8
    case ArchEcall => 9 case ArchEbreak => 10
  }

  /** What does not change while a block is generated: its address, the code buffer's table size and
      flags, and which immediates the assembler accepts in add, logical and compare instructions. */
  datatype Config = Config(basePc: Word, maxBlocks: nat, skipPermissionChecks: bool, multithreaded: bool,
                           addImms: set<int>, bitImms: set<(BitOp, int)>, cmpImms: set<int>)

  /** CodegenContext::Exit */
  datatype PendingExit = PendingExit(target: Label, reason: ArchExit, pcRegister: HReg, pcValue: Word,
    snapshot: Snapshot)

  /** What generating a piece adds: the cache and next label after it, its code, its pending exits,
      whether every verify passed, and whether the block goes on. */
  datatype Piece = Piece(cache: Cache, next: Label, code: Code, exits: seq<PendingExit>, ok: bool, goesOn: bool)

  // ----- immediates -----

  function LoadImmediate(cfg: Config, d: HReg, v: Word): Code {
    var offset := Signed(v) - Signed(cfg.basePc);
    if -0x7fff <= offset <= 0x7fff && offset in cfg.addImms then [AddImm(d, BASE_PC, offset)] else [MovImm(d, v)]
  }

  datatype Operand = Operand(code: Code, reg: HReg)

  function LoadImmediateOrZero(cfg: Config, d: HReg, imm: int): Operand {
    if imm == 0 then Operand([], XZR) else Operand(LoadImmediate(cfg, d, Wrap(imm)), d)
  }

  function AddOffset(cfg: Config, value: HReg, scratch: HReg, offset: int): Operand {
    if value == XZR then Operand(LoadImmediate(cfg, scratch, Wrap(offset)), scratch)
    else if offset == 0 then Operand([], value)
    else if offset in cfg.addImms then Operand([AddImm(scratch, value, offset)], scratch)
    else Operand(LoadImmediate(cfg, scratch, Wrap(offset)) + [Alu(AddX, scratch, value, scratch)], scratch)
  }

  // ----- exits -----

  function ExitTail(cfg: Config, reason: ArchExit): Code {
    LoadImmediate(cfg, EXIT_REASON, ArchCode(reason)) + [Ret]
  }

  /** generate_exit with a known pc */
  function ExitCode(cfg: Config, c: Cache, reason: ArchExit, pc: Word): Code
    requires Shape(c)
  {
    Flush(TakeSnapshot(c)) + (LoadImmediate(cfg, EXIT_PC, pc) + ExitTail(cfg, reason))
  }

  function ExitPiece(cfg: Config, c: Cache, n: Label, reason: ArchExit, pc: Word): Piece
    requires Shape(c)
  {
    Piece(c, n, ExitCode(cfg, c, reason, pc), [], true, false)
  }

  /** One round of generate_pending_exits, after its label. */
  function StubBody(cfg: Config, e: PendingExit): Code {
    Flush(e.snapshot)
    + ((if e.pcRegister != XZR then [MovReg(EXIT_PC, e.pcRegister)] else LoadImmediate(cfg, EXIT_PC, e.pcValue))
       + ExitTail(cfg, e.reason))
  }

  function Stubs(cfg: Config, exits: seq<PendingExit>): Code {
    if exits == [] then [] else [Bind(exits[0].target)] + StubBody(cfg, exits[0]) + Stubs(cfg, exits[1..])
  }

  // ----- generate_validate_memory_access -----

  function MaskImmediate(flag: Byte, width: nat): Word {
    if width == 1 then flag else if width == 2 then flag * 0x100 + flag
    else flag * 0x0101_0101_0101_0101 % TWO64
  }

  function PermissionCheck(address: HReg, fault: Label, width: nat, a: Access): Code {
    [LdrPerms(width, B_REG, PERMISSIONS_BASE, address),
     MovImm(C_REG, MaskImmediate(Flag(a), width)),
     Alu(if width == 4 then AndW else AndX, B_REG, B_REG, C_REG),
     CmpReg(width != 4, B_REG, C_REG),
     BCond(NotEqual, fault)]
  }

  function ValidateAccess(cfg: Config, address: HReg, fault: Label, width: nat, a: Access): Code {
    (if width > 1 then [TstImm(address, width - 1), BCond(NotEqual, fault)] else [])
    + ([CmpReg(true, address, MEMORY_SIZE), BCond(UnsignedGreaterEqual, fault)]
       + (if cfg.skipPermissionChecks then [] else PermissionCheck(address, fault, width, a)))
  }

  function FaultExit(c: Cache, fault: Label, a: Access, pc: Word): PendingExit
    requires Shape(c)
  {
    PendingExit(fault, if a == WriteAccess then ArchWriteFault else ArchReadFault, XZR, pc, TakeSnapshot(c))
  }

  // ----- branches -----

  /** generate_validated_branch: jump through the block table, or to the label when the entry is zero. */
  function ValidatedBranch(cfg: Config, offset: HReg, noBlock: Label): Code {
    (if cfg.multithreaded then [Alu(AddX, offset, BLOCK_BASE, offset), LdarBlock(offset, offset)]
     else [LdrBlock(offset, BLOCK_BASE, offset)])
    + [Cbz(offset, noBlock), Alu(AddX, offset, CODE_BASE, offset), Br(offset)]
  }

  function StaticBranch(cfg: Config, c: Cache, n: Label, target: Word, scratch: HReg, pc: Word): Piece
    requires Shape(c)
  {
    if target % 4 != 0 then ExitPiece(cfg, c, n, ArchUnalignedPc, pc)
    else if target / 4 >= cfg.maxBlocks then ExitPiece(cfg, c, n, ArchOutOfBoundsPc, pc)
    else
      Piece(c, n + 1,
            LoadImmediate(cfg, scratch, target) + (Flush(TakeSnapshot(c)) + ValidatedBranch(cfg, scratch, n)),
            [PendingExit(n, ArchBlockNotGenerated, XZR, target, NO_SNAPSHOT)], true, false)
  }

  function DynamicBranch(cfg: Config, c: Cache, n: Label, target: HReg, scratch: HReg): Piece
    requires Shape(c)
  {
    Piece(c, n + 3,
          [BitImm(AndOp, scratch, target, -2)]
          + (Flush(TakeSnapshot(c))
             + ([TstImm(scratch, 3), BCond(NotEqual, n + 1),
                 CmpReg(true, scratch, MAX_EXECUTABLE_PC), BCond(UnsignedGreaterEqual, n)]
                + ValidatedBranch(cfg, scratch, n + 2))),
          [PendingExit(n + 2, ArchBlockNotGenerated, target, 0, NO_SNAPSHOT),
           PendingExit(n, ArchOutOfBoundsPc, target, 0, NO_SNAPSHOT),
           PendingExit(n + 1, ArchUnalignedPc, target, 0, NO_SNAPSHOT)],
          true, false)
  }

  // ----- instructions that only compute a register -----

  function ImmBitOp(op: ImmOp): BitOp {
    match op case Xori => XorOp case Ori => OrOp case _ => AndOp
  }

  function ImmAluOp(op: ImmOp): AluOp {
    match op case Xori => EorX case Ori => OrrX case Andi => AndX case _ => AddX
  }

  function ImmBody(cfg: Config, op: ImmOp, a: HReg, d: HReg, imm: int): Code {
    var sum := op == Addi || op == Addiw;
    var b := LoadImmediateOrZero(cfg, A_REG, imm);
    (if sum && imm == 0 then [MovReg(d, a)]
     else if sum && a == XZR then LoadImmediate(cfg, d, Wrap(imm))
     else if sum && imm in cfg.addImms then [AddImm(d, a, imm)]
     else if !sum && (ImmBitOp(op), imm) in cfg.bitImms then [BitImm(ImmBitOp(op), d, a, imm)]
     else b.code + [Alu(ImmAluOp(op), d, a, b.reg)])
    + (if op == Addiw then [Sxtw(d, d)] else [])
  }

  function ShiftAluOp(op: ShiftOp): AluOp {
    match op case Slli => LslX case Srli => LsrX case Srai => AsrX case Slliw => LslW case Srliw => LsrW case Sraiw =>
      AsrW
  }

  function ShiftBody(op: ShiftOp, a: HReg, d: HReg, shamt: nat): Code {
    [AluShift(ShiftAluOp(op), d, a, shamt)] + (if WideShift(op) then [] else [Sxtw(d, d)])
  }

  function SetImmBody(cfg: Config, unsigned: bool, a: HReg, d: HReg, imm: int): Code {
    var b := LoadImmediateOrZero(cfg, A_REG, imm);
    (if imm in cfg.cmpImms then [CmpImm(a, imm)] else b.code + [CmpReg(true, a, b.reg)])
    + [Cset(d, if unsigned then UnsignedLess else Less)]
  }

  function RegAluOp(op: RegOp): AluOp {
    match op
    case Add => AddX case Sub => SubX case Xor => EorX case Or => OrrX case And => AndX
    case Sll => LslX case Srl => LsrX case Sra => AsrX
    case Addw => AddW case Subw => SubW case Sllw => LslW case Srlw => LsrW case Sraw => AsrW
  }

  predicate WideReg(op: RegOp) {
    !(op == Addw || op == Subw || op == Sllw || op == Srlw || op == Sraw)
  }

  function RegBody(op: RegOp, a: HReg, b: HReg, d: HReg): Code {
    [Alu(RegAluOp(op), d, a, b)] + (if WideReg(op) then [] else [Sxtw(d, d)])
  }

  function MulDivBody(op: MulDivOp, a: HReg, b: HReg, d: HReg): Code {
    match op
    case Mul => [Alu(MulX, d, a, b)]
    case Div => [Alu(SdivX, d, a, b)]
    case Divu => [Alu(UdivX, d, a, b)]
    case Mulw => [Alu(MulW, d, a, b), Sxtw(d, d)]
    case Divw => [Alu(SdivW, d, a, b), Sxtw(d, d)]
    case Divuw => [Alu(UdivW, d, a, b), Sxtw(d, d)]
    case Rem => [Alu(SdivX, A_REG, a, b), Msub(true, d, A_REG, b, a)]
    case Remu => [Alu(UdivX, A_REG, a, b), Msub(true, d, A_REG, b, a)]
    case Remw => [Alu(SdivW, A_REG, a, b), Msub(false, d, A_REG, b, a)] + [Sxtw(d, d)]
    case Remuw => [Alu(UdivW, A_REG, a, b), Msub(false, d, A_REG, b, a)] + [Sxtw(d, d)]
  }

  /** The registers an instruction locks; the destination comes last. */
  function Requests(i: Instruction): (reqs: seq<Request>)
    ensures 1 <= |reqs| <= 3 && reqs[|reqs| - 1] == WriteOnly(i.rd)
  {
    if i.op.Lui? || i.op.Auipc? || (i.op.SetImm? && i.rs1 == 0) then [WriteOnly(i.rd)]
    else if i.op.Imm? || i.op.Shift? || i.op.SetImm? then [ReadOf(i.rs1), WriteOnly(i.rd)]
    else [ReadOf(i.rs1), ReadOf(i.rs2), WriteOnly(i.rd)]
  }

  function ComputeBody(cfg: Config, i: Instruction, pc: Word, a: HReg, b: HReg, d: HReg): Code
    requires IsCompute(i.op)
  {
    match i.op
    case Lui => LoadImmediate(cfg, d, Wrap(i.imm))
    case Auipc => LoadImmediate(cfg, d, Wrap(pc + i.imm))
    case Imm(op) => ImmBody(cfg, op, a, d, i.imm)
    case Shift(op) => ShiftBody(op, a, d, i.shamt)
    case SetImm(unsigned) =>
      if i.rs1 == 0 then LoadImmediate(cfg, d, BoolWord(if unsigned then 0 < Wrap(i.imm) else 0 < i.imm))
      else SetImmBody(cfg, unsigned, a, d, i.imm)
    case Set(unsigned) => [CmpReg(true, a, b), Cset(d, if unsigned then UnsignedLess else Less)]
    case Reg(op) => RegBody(op, a, b, d)
    case MulDiv(op) => MulDivBody(op, a, b, d)
  }

  function UnlockClean(c: Cache, regs: seq<HReg>): (d: Cache)
    requires Shape(c)
    ensures Shape(d)
    decreases |regs|
  {
    if regs == [] then c else UnlockClean(Unlock(c, regs[0], false), regs[1..])
  }

  predicate MayUnlockAll(regs: seq<HReg>) {
    regs == [] || (MayUnlock(regs[0]) && MayUnlockAll(regs[1..]))
  }

  /** With rd = x0 nothing is emitted, except that the multiply and divide cases fall through to the
      unsupported-instruction exit. */
  function ComputePiece(cfg: Config, c: Cache, n: Label, pc: Word, i: Instruction): Piece
    requires Shape(c) && IsCompute(i.op)
  {
    if i.rd == 0 then
      if i.op.MulDiv? then ExitPiece(cfg, c, n, ArchUnsupported, pc) else Piece(c, n, [], [], true, true)
    else
      var l := Lock(c, Requests(i));
      if !l.ok || |l.regs| != |Requests(i)| then Piece(l.cache, n, l.code, [], false, false)
      else
        var k := |l.regs| - 1;
        var d := l.regs[k];
        var body := ComputeBody(cfg, i, pc, l.regs[0], l.regs[if k == 2 then 1 else 0], d);
        Piece(Unlock(UnlockClean(l.cache, l.regs[..k]), d, true), n, l.code + body, [], MayUnlockAll(l.regs), true)
  }

  // ----- the other instructions -----

  /** Loads rd with pc + 4, unless rd is x0. */
  function LinkPiece(cfg: Config, c: Cache, n: Label, pc: Word, rd: GuestReg): (p: Piece)
    requires Shape(c)
    ensures Shape(p.cache)
  {
    if rd == 0 then Piece(c, n, [], [], true, true)
    else
      var l := Lock(c, [WriteOnly(rd)]);
      if !l.ok || |l.regs| != 1 then Piece(l.cache, n, l.code, [], false, false)
      else Piece(Unlock(l.cache, l.regs[0], true), n, l.code + LoadImmediate(cfg, l.regs[0], Wrap(pc + 4)), [],
        MayUnlock(l.regs[0]), true)
  }

  function JalPiece(cfg: Config, c: Cache, n: Label, pc: Word, i: Instruction): Piece
    requires Shape(c)
  {
    var link := LinkPiece(cfg, c, n, pc, i.rd);
    var branch := StaticBranch(cfg, link.cache, link.next, Wrap(pc + i.imm), A_REG, pc);
    Piece(branch.cache, branch.next, link.code + branch.code, branch.exits, link.ok, false)
  }

  /** The link register is written after the target is computed and before the branch; if it is the
      register that holds the target, the target moves to the scratch register first. */
  function JalrPiece(cfg: Config, c: Cache, n: Label, pc: Word, i: Instruction): Piece
    requires Shape(c)
  {
    var l := Lock(c, [ReadOf(i.rs1)]);
    if !l.ok || |l.regs| != 1 then Piece(l.cache, n, l.code, [], false, false)
    else
      var target := AddOffset(cfg, l.regs[0], A_REG, i.imm);
      if i.rd == 0 then
        var branch := DynamicBranch(cfg, l.cache, n, target.reg, B_REG);
        Piece(Unlock(branch.cache, l.regs[0], false), branch.next, l.code + (target.code + branch.code), branch.exits,
              MayUnlock(l.regs[0]), false)
      else
        var m := Lock(l.cache, [WriteOnly(i.rd)]);
        if !m.ok || |m.regs| != 1 then Piece(m.cache, n, l.code + (target.code + m.code), [], false, false)
        else
          var d := m.regs[0];
          var moved := if d == target.reg then [MovReg(A_REG, target.reg)] else [];
          var from := if d == target.reg then A_REG else target.reg;
          var branch := DynamicBranch(cfg, Unlock(m.cache, d, true), n, from, B_REG);
          Piece(Unlock(branch.cache, l.regs[0], false), branch.next,
                l.code + (target.code + (m.code + (moved + (LoadImmediate(cfg, d, Wrap(pc + 4)) + branch.code)))),
                  branch.exits,
                MayUnlock(l.regs[0]) && MayUnlock(d), false)
  }

  /** The condition under which the branch is not taken. */
  function Inverted(op: BranchOp): Condition {
    match op
    case Beq => NotEqual case Bne => Equal case Blt => GreaterEqual case Bge => Less
    case Bltu => UnsignedGreaterEqual case Bgeu => UnsignedLess
  }

  function BranchPiece(cfg: Config, c: Cache, n: Label, pc: Word, i: Instruction): Piece
    requires Shape(c) && i.op.Branch?
  {
    var l := Lock(c, [ReadOf(i.rs1), ReadOf(i.rs2)]);
    if !l.ok || |l.regs| != 2 then Piece(l.cache, n, l.code, [], false, false)
    else
      var taken := StaticBranch(cfg, l.cache, n + 1, Wrap(pc + i.imm), A_REG, pc);
      Piece(UnlockClean(l.cache, l.regs), taken.next,
            l.code + ([CmpReg(true, l.regs[0], l.regs[1]), BCond(Inverted(i.op.branch), n)] + (taken.code + [Bind(n)])),
            taken.exits, MayUnlockAll(l.regs), true)
  }

  predicate SignedLoad(op: LoadOp) { op == Lb || op == Lh || op == Lw }

  /** A load to x0 is not generated at all. */
  function LoadPiece(cfg: Config, c: Cache, n: Label, pc: Word, i: Instruction): Piece
    requires Shape(c) && i.op.Load?
  {
    if i.rd == 0 then Piece(c, n, [], [], true, true)
    else
      var l := Lock(c, [ReadOf(i.rs1), WriteOnly(i.rd)]);
      if !l.ok || |l.regs| != 2 then Piece(l.cache, n, l.code, [], false, false)
      else
        var width := LoadWidth(i.op.load);
        var address := AddOffset(cfg, l.regs[0], A_REG, i.imm);
        Piece(Unlock(Unlock(l.cache, l.regs[0], false), l.regs[1], true), n + 1,
              l.code + (address.code + (ValidateAccess(cfg, address.reg, n, width, ReadAccess)
                                        + [LdrMem(width, SignedLoad(i.op.load), l.regs[1], MEMORY_BASE, address.reg)])),
              [FaultExit(l.cache, n, ReadAccess, pc)], MayUnlockAll(l.regs), true)
  }

  function StorePiece(cfg: Config, c: Cache, n: Label, pc: Word, i: Instruction): Piece
    requires Shape(c) && i.op.Store?
  {
    var l := Lock(c, [ReadOf(i.rs1), ReadOf(i.rs2)]);
    if !l.ok || |l.regs| != 2 then Piece(l.cache, n, l.code, [], false, false)
    else
      var width := StoreWidth(i.op.store);
      var address := AddOffset(cfg, l.regs[0], A_REG, i.imm);
      Piece(UnlockClean(l.cache, l.regs), n + 1,
            l.code + (address.code + (ValidateAccess(cfg, address.reg, n, width, WriteAccess)
                                      + [StrMem(width, l.regs[1], MEMORY_BASE, address.reg)])),
            [FaultExit(l.cache, n, WriteAccess, pc)], MayUnlockAll(l.regs), true)
  }

  /** generate_instruction */
  function InstructionPiece(cfg: Config, c: Cache, n: Label, pc: Word, i: Instruction): (p: Piece)
    requires Shape(c)
    ensures Shape(p.cache)
  {
    match i.op
    case Jal => JalPiece(cfg, c, n, pc, i)
    case Jalr => JalrPiece(cfg, c, n, pc, i)
    case Branch(_) => BranchPiece(cfg, c, n, pc, i)
    case Load(_) => LoadPiece(cfg, c, n, pc, i)
    case Store(_) => StorePiece(cfg, c, n, pc, i)
    case MulHigh(_) => ExitPiece(cfg, c, n, ArchUnsupported, pc)
    case Fence => Piece(c, n, [], [], true, true)
    case Ecall => ExitPiece(cfg, c, n, ArchEcall, pc)
    case Ebreak => ExitPiece(cfg, c, n, ArchEbreak, pc)
    case Undefined => ExitPiece(cfg, c, n, ArchUndefined, pc)
    case _ => ComputePiece(cfg, c, n, pc, i)
  }

  // ----- generate_block, generate_code -----

  /** Instructions are translated in address order until one ends the block or cannot be fetched. */
  function BlockFrom(cfg: Config, m: Mem, c: Cache, n: Label, pc: Word): Piece
    requires Shape(c) && |m.perms| >= m.size && |m.bytes| >= m.size && m.size + 8 < TWO64
    decreases m.size - pc
  {
    match Fetch(m, pc)
    case None => ExitPiece(cfg, c, n, ArchFetchFault, pc)
    case Some(i) =>
      var p := InstructionPiece(cfg, c, n, pc, i);
      if !NoneLocked(p.cache) || !p.ok then p.(ok := false, goesOn := false)
      else if !p.goesOn then p
      else
        var rest := BlockFrom(cfg, m, Finish(p.cache), p.next, pc + 4);
        Piece(rest.cache, rest.next, p.code + rest.code, p.exits + rest.exits, rest.ok, false)
  }

  /** All of a block's code: the base pc, the instructions, then the pending exits. */
  function Translate(cfg: Config, m: Mem): Code
    requires |m.perms| >= m.size && |m.bytes| >= m.size && m.size + 8 < TWO64
  {
    var block := BlockFrom(cfg, m, NewCache(), 0, cfg.basePc);
    [MovImm(BASE_PC, cfg.basePc)] + (block.code + Stubs(cfg, block.exits))
  }
}
