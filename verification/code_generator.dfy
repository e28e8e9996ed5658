/** The CodeGenerator object: it appends to the assembler and to the pending exits, and drives the
    register cache, one instruction after the other. */
module CodeGeneration {
  import opened Words
  import opened Instructions
  import opened Memories
  import opened Interpreter
  import opened HostMachine
  import opened RegisterCaches
  import opened CacheProperties
  import opened Translator
  import opened TranslationChecks
  import opened RegisterCacheObject

  /** Everything code generation changes, as a value. */
  datatype Generated = Generated(cache: Cache, next: Label, code: Code, exits: seq<PendingExit>)

  function Plus(g: Generated, p: Piece): Generated {
    Generated(p.cache, p.next, g.code + p.code, g.exits + p.exits)
  }

  lemma PlusTwice(g: Generated, p: Piece, q: Piece)
    ensures Plus(Plus(g, p), q) == Plus(g, Piece(q.cache, q.next, p.code + q.code, p.exits + q.exits, q.ok, q.goesOn))
  {
  }

  predicate Apart(a: object, b: object, c: object) {
    a != b && a != c
  }

  class CodeGenerator {
    const assembler: Assembler
    const memory: Memory
    const registerCache: RegisterCache
    const config: Config
    var currentPc: Word
    var pendingExits: seq<PendingExit>

    ghost function View(): Generated
      reads this, assembler, registerCache, registerCache.slots, registerCache.registerToSlot
    {
      Generated(registerCache.View(), assembler.labels, assembler.code, pendingExits)
    }

    ghost predicate Valid()
      reads this, registerCache, registerCache.slots, registerCache.registerToSlot,
        registerCache.platformRegisterToSlot,
            memory.contents, memory.permissions
    {
      && registerCache.assembler == assembler && registerCache.Valid() && memory.Valid()
      && Apart(registerCache.slots, memory.contents, memory.permissions)
      && Apart(registerCache.registerToSlot, memory.contents, memory.permissions)
    }

    constructor (memory: Memory, config: Config)
      requires memory.Valid()
      ensures Valid() && this.memory == memory && this.config == config && currentPc == config.basePc
      ensures View() == Generated(NewCache(), 0, [], []) && fresh(assembler) && fresh(registerCache)
      ensures fresh(registerCache.slots) && fresh(registerCache.registerToSlot)
              && fresh(registerCache.platformRegisterToSlot)
    {
      var a := new Assembler();
      var c := new RegisterCache(a);
      assembler, registerCache := a, c;
      this.memory, this.config := memory, config;
      currentPc, pendingExits := config.basePc, [];
    }

    // ----- immediates -----

    /** The assembler's try_add_i: emits and answers true when it has an encoding. */
    method TryAdd(d: HReg, n: HReg, imm: int) returns (succeeded: bool)
      modifies assembler`code
      ensures succeeded == (imm in config.addImms)
      ensures assembler.code == old(assembler.code) + if succeeded then [AddImm(d, n, imm)] else []
    {
      succeeded := imm in config.addImms;
      if succeeded {
        assembler.Emit(AddImm(d, n, imm));
      }
    }

    method TryBits(op: BitOp, d: HReg, n: HReg, imm: int) returns (succeeded: bool)
      modifies assembler`code
      ensures succeeded == ((op, imm) in config.bitImms)
      ensures assembler.code == old(assembler.code) + if succeeded then [BitImm(op, d, n, imm)] else []
    {
      succeeded := (op, imm) in config.bitImms;
      if succeeded {
        assembler.Emit(BitImm(op, d, n, imm));
      }
    }

    method LoadImm(target: HReg, immediate: Word)
      modifies assembler`code
      ensures assembler.code == old(assembler.code) + LoadImmediate(config, target, immediate)
    {
      var pcOffset := Signed(immediate) - Signed(config.basePc);
      if -0x7fff <= pcOffset <= 0x7fff {
        var succeeded := TryAdd(target, BASE_PC, pcOffset);
        if succeeded {
          return;
        }
      }
      assembler.Emit(MovImm(target, immediate));
    }

    method LoadImmOrZero(target: HReg, immediate: int) returns (reg: HReg)
      modifies assembler`code
      ensures var o := LoadImmediateOrZero(config, target, immediate);
              reg == o.reg && assembler.code == old(assembler.code) + o.code
    {
      if immediate == 0 {
        return XZR;
      }
      LoadImm(target, Wrap(immediate));
      return target;
    }

    method AddOffsetToRegister(value: HReg, scratch: HReg, offset: int) returns (reg: HReg)
      modifies assembler`code
      ensures var o := AddOffset(config, value, scratch, offset);
              reg == o.reg && assembler.code == old(assembler.code) + o.code
    {
      hide LoadImmediate;
      if value == XZR {
        LoadImm(scratch, Wrap(offset));
        return scratch;
      }
      if offset == 0 {
        return value;
      }
      var succeeded := TryAdd(scratch, value, offset);
      if !succeeded {
        LoadImm(scratch, Wrap(offset));
        assembler.Emit(Alu(AddX, scratch, value, scratch));
      }
      return scratch;
    }

    // ----- exits -----

    method GenerateExit(reason: ArchExit, pc: Word)
      requires Valid()
      modifies assembler`code
      ensures Valid() && assembler.code == old(assembler.code) + ExitCode(config, registerCache.View(), reason, pc)
    {
      hide LoadImmediate, FlushFrom, TakeSnapshot;
      registerCache.FlushCurrentRegisters();
      LoadImm(EXIT_PC, pc);
      LoadImm(EXIT_REASON, ArchCode(reason));
      assembler.Emit(Ret);
    }

    method AddPendingExit(exit: PendingExit)
      modifies this`pendingExits
      ensures pendingExits == old(pendingExits) + [exit]
    {
      pendingExits := pendingExits + [exit];
    }

    /** One round of the loop over the pending exits. */
    method GeneratePendingExit(exit: PendingExit)
      requires Valid()
      modifies assembler`code
      ensures assembler.code == old(assembler.code) + ([Bind(exit.target)] + StubBody(config, exit))
    {
      hide LoadImmediate, FlushFrom;
      assembler.Emit(Bind(exit.target));
      registerCache.FlushRegisters(exit.snapshot);
      if exit.pcRegister != XZR {
        assembler.Emit(MovReg(EXIT_PC, exit.pcRegister));
      } else {
        LoadImm(EXIT_PC, exit.pcValue);
      }
      LoadImm(EXIT_REASON, ArchCode(exit.reason));
      assembler.Emit(Ret);
    }

    method GeneratePendingExits()
      requires Valid()
      modifies assembler`code
      ensures assembler.code == old(assembler.code) + Stubs(config, pendingExits)
    {
      hide StubBody, Stubs;
      for i := 0 to |pendingExits|
        invariant Valid() && assembler.code + Stubs(config, pendingExits[i..]) == old(assembler.code)
                  + Stubs(config, pendingExits)
      {
        StubsUnfold(config, pendingExits[i..]);
        assert pendingExits[i..][1..] == pendingExits[i + 1..];
        GeneratePendingExit(pendingExits[i]);
      }
      StubsNone(config);
    }

    // ----- the permission check -----

    /** The mask of load_memory_permission_mask for its widest accesses, byte by byte: for four bytes
        it is cut to its low half when used. */
    method PermissionMask(flag: Byte, w: nat) returns (mask: nat)
      requires Width(w) && flag <= 4
      ensures mask == MaskImmediate(flag, w)
    {
      if w == 1 {
        return flag;
      }
      if w == 2 {
        return flag * 0x100 + flag;
      }
      hide FlagOnes, Unit, MaskImmediate;
      mask := 0;
      var unit := 1;
      OnesOf0(flag);
      for i := 0 to 8
        invariant mask == FlagOnes(flag, i) && unit == Unit(i)
      {
        MaskStep(flag, i);
        mask := mask + flag * unit;
        unit := unit * 0x100;
      }
      WideMask(flag, w);
    }

    /** The tests, up to the last branch to the fault label. */
    method GenerateTests(address: HReg, fault: Label, w: nat, a: Access)
      requires Width(w)
      modifies assembler`code
      ensures assembler.code == old(assembler.code) + ValidateAccess(config, address, fault, w, a)
    {
      hide MaskImmediate, Flag;
      var align := if w > 1 then [TstImm(address, w - 1), BCond(NotEqual, fault)] else [];
      var bounds := [CmpReg(true, address, MEMORY_SIZE), BCond(UnsignedGreaterEqual, fault)];
      assembler.EmitAll(align);
      assembler.EmitAll(bounds);
      if config.skipPermissionChecks {
        Associative(old(assembler.code), align, bounds, []);
      } else {
        FlagFits(a);
        var mask := PermissionMask(Flag(a), w);
        assembler.EmitAll([LdrPerms(w, B_REG, PERMISSIONS_BASE, address), MovImm(C_REG, mask),
                           Alu(if w == 4 then AndW else AndX, B_REG, B_REG, C_REG), CmpReg(w != 4, B_REG, C_REG),
                             BCond(NotEqual, fault)]);
        Associative(old(assembler.code), align, bounds, PermissionCheck(address, fault, w, a));
      }
    }

    method GenerateValidateMemoryAccess(address: HReg, w: nat, write: bool)
      requires Valid() && Width(w)
      modifies this`pendingExits, assembler
      ensures Valid()
      ensures var a := if write then WriteAccess else ReadAccess;
              && assembler.code == old(assembler.code) + ValidateAccess(config, address, old(assembler.labels), w, a)
              && assembler.labels == old(assembler.labels) + 1
              && pendingExits == old(pendingExits) + [FaultExit(registerCache.View(), old(assembler.labels), a,
                 currentPc)]
    {
      hide ValidateAccess, TakeSnapshot;
      var fault := assembler.AllocateLabel();
      GenerateTests(address, fault, w, if write then WriteAccess else ReadAccess);
      var snapshot := registerCache.TakeStateSnapshot();
      AddPendingExit(PendingExit(fault, if write then ArchWriteFault else ArchReadFault, XZR, currentPc, snapshot));
    }

    // ----- branches -----

    method GenerateValidatedBranch(blockOffset: HReg) returns (noBlock: Label)
      modifies assembler
      ensures noBlock == old(assembler.labels) && assembler.labels == noBlock + 1
      ensures assembler.code == old(assembler.code) + ValidatedBranch(config, blockOffset, noBlock)
    {
      if config.multithreaded {
        assembler.EmitAll([Alu(AddX, blockOffset, BLOCK_BASE, blockOffset), LdarBlock(blockOffset, blockOffset)]);
      } else {
        assembler.Emit(LdrBlock(blockOffset, BLOCK_BASE, blockOffset));
      }
      noBlock := assembler.AllocateLabel();
      assembler.EmitAll([Cbz(blockOffset, noBlock), Alu(AddX, blockOffset, CODE_BASE, blockOffset), Br(blockOffset)]);
    }

    method GenerateStaticBranch(target: Word, scratch: HReg)
      requires Valid()
      modifies this`pendingExits, assembler
      ensures Valid()
      ensures View() == Plus(old(View()), StaticBranch(config, registerCache.View(), old(assembler.labels), target,
              scratch, currentPc))
    {
      hide LoadImmediate, ExitCode, FlushFrom, TakeSnapshot, ValidatedBranch;
      if target % 4 != 0 {
        GenerateExit(ArchUnalignedPc, currentPc);
        return;
      }
      if target / 4 >= config.maxBlocks {
        GenerateExit(ArchOutOfBoundsPc, currentPc);
        return;
      }
      LoadImm(scratch, target / 4 * 4);
      registerCache.FlushCurrentRegisters();
      var exit := GenerateValidatedBranch(scratch);
      AddPendingExit(PendingExit(exit, ArchBlockNotGenerated, XZR, target, NO_SNAPSHOT));
    }

    method GenerateDynamicBranch(target: HReg, scratch: HReg)
      requires Valid()
      modifies this`pendingExits, assembler
      ensures Valid()
      ensures View() == Plus(old(View()), DynamicBranch(config, registerCache.View(), old(assembler.labels), target,
              scratch))
    {
      hide FlushFrom, TakeSnapshot, ValidatedBranch;
      var oob := assembler.AllocateLabel();
      var unaligned := assembler.AllocateLabel();
      var mask := [BitImm(AndOp, scratch, target, -2)];
      var tests := [TstImm(scratch, 3), BCond(NotEqual, unaligned), CmpReg(true, scratch, MAX_EXECUTABLE_PC),
        BCond(UnsignedGreaterEqual, oob)];
      assembler.EmitAll(mask);
      registerCache.FlushCurrentRegisters();
      assembler.EmitAll(tests);
      var exit := GenerateValidatedBranch(scratch);
      Associative(old(assembler.code) + mask, Flush(TakeSnapshot(registerCache.View())), tests,
        ValidatedBranch(config, scratch, exit));
      AddPendingExit(PendingExit(exit, ArchBlockNotGenerated, target, 0, NO_SNAPSHOT));
      AddPendingExit(PendingExit(oob, ArchOutOfBoundsPc, target, 0, NO_SNAPSHOT));
      AddPendingExit(PendingExit(unaligned, ArchUnalignedPc, target, 0, NO_SNAPSHOT));
    }

    // ----- instructions that only compute -----

    method GenerateImmediate(op: ImmOp, a: HReg, dest: HReg, imm: int)
      modifies assembler`code
      ensures assembler.code == old(assembler.code) + ImmBody(config, op, a, dest, imm)
    {
      hide LoadImmediate;
      var succeeded := false;
      if op == Addi || op == Addiw {
        if imm == 0 {
          assembler.Emit(MovReg(dest, a));
          succeeded := true;
        } else if a == XZR {
          LoadImm(dest, Wrap(imm));
          succeeded := true;
        } else {
          succeeded := TryAdd(dest, a, imm);
        }
      } else {
        succeeded := TryBits(ImmBitOp(op), dest, a, imm);
      }
      if !succeeded {
        var b := LoadImmOrZero(A_REG, imm);
        assembler.Emit(Alu(ImmAluOp(op), dest, a, b));
      }
      if op == Addiw {
        assembler.Emit(Sxtw(dest, dest));
      }
    }

    method GenerateShift(op: ShiftOp, a: HReg, dest: HReg, shamt: nat)
      modifies assembler`code
      ensures assembler.code == old(assembler.code) + ShiftBody(op, a, dest, shamt)
    {
      assembler.Emit(AluShift(ShiftAluOp(op), dest, a, shamt));
      if op == Slliw || op == Srliw || op == Sraiw {
        assembler.Emit(Sxtw(dest, dest));
      }
    }

    method GenerateSetImmediate(unsigned: bool, a: HReg, dest: HReg, imm: int)
      modifies assembler`code
      ensures assembler.code == old(assembler.code) + SetImmBody(config, unsigned, a, dest, imm)
    {
      hide LoadImmediate;
      if imm in config.cmpImms {
        assembler.Emit(CmpImm(a, imm));
      } else {
        var b := LoadImmOrZero(A_REG, imm);
        assembler.Emit(CmpReg(true, a, b));
      }
      assembler.Emit(Cset(dest, if unsigned then UnsignedLess else Less));
    }

    method GenerateRegister(op: RegOp, a: HReg, b: HReg, dest: HReg)
      modifies assembler`code
      ensures assembler.code == old(assembler.code) + RegBody(op, a, b, dest)
    {
      assembler.Emit(Alu(RegAluOp(op), dest, a, b));
      match op
      case Addw => assembler.Emit(Sxtw(dest, dest));
      case Subw => assembler.Emit(Sxtw(dest, dest));
      case Sllw => assembler.Emit(Sxtw(dest, dest));
      case Srlw => assembler.Emit(Sxtw(dest, dest));
      case Sraw => assembler.Emit(Sxtw(dest, dest));
      case _ =>
    }

    method GenerateMulDiv(op: MulDivOp, a: HReg, b: HReg, dest: HReg)
      modifies assembler`code
      ensures assembler.code == old(assembler.code) + MulDivBody(op, a, b, dest)
    {
      match op
      case Mul => assembler.Emit(Alu(MulX, dest, a, b));
      case Div => assembler.Emit(Alu(SdivX, dest, a, b));
      case Divu => assembler.Emit(Alu(UdivX, dest, a, b));
      case Mulw => assembler.EmitAll([Alu(MulW, dest, a, b), Sxtw(dest, dest)]);
      case Divw => assembler.EmitAll([Alu(SdivW, dest, a, b), Sxtw(dest, dest)]);
      case Divuw => assembler.EmitAll([Alu(UdivW, dest, a, b), Sxtw(dest, dest)]);
      case Rem => assembler.EmitAll([Alu(SdivX, A_REG, a, b), Msub(true, dest, A_REG, b, a)]);
      case Remu => assembler.EmitAll([Alu(UdivX, A_REG, a, b), Msub(true, dest, A_REG, b, a)]);
      case Remw => assembler.EmitAll([Alu(SdivW, A_REG, a, b), Msub(false, dest, A_REG, b, a), Sxtw(dest, dest)]);
      case Remuw => assembler.EmitAll([Alu(UdivW, A_REG, a, b), Msub(false, dest, A_REG, b, a), Sxtw(dest, dest)]);
    }

    method GenerateBody(i: Instruction, a: HReg, b: HReg, dest: HReg)
      requires IsCompute(i.op)
      modifies assembler`code
      ensures assembler.code == old(assembler.code) + ComputeBody(config, i, currentPc, a, b, dest)
    {
      hide LoadImmediate, ImmBody, ShiftBody, SetImmBody, RegBody, MulDivBody;
      match i.op
      case Lui => LoadImm(dest, Wrap(i.imm));
      case Auipc => LoadImm(dest, Wrap(currentPc + i.imm));
      case Imm(op) => GenerateImmediate(op, a, dest, i.imm);
      case Shift(op) => GenerateShift(op, a, dest, i.shamt);
      case SetImm(unsigned) =>
        if i.rs1 == 0 {
          LoadImm(dest, BoolWord(if unsigned then 0 < Wrap(i.imm) else 0 < i.imm));
        } else {
          GenerateSetImmediate(unsigned, a, dest, i.imm);
        }
      case Set(unsigned) => assembler.EmitAll([CmpReg(true, a, b), Cset(dest, if unsigned then UnsignedLess
        else Less)]);
      case Reg(op) => GenerateRegister(op, a, b, dest);
      case MulDiv(op) => GenerateMulDiv(op, a, b, dest);
    }

    /** Locks registers for an instruction; from an idle cache that never fails. */
    method LockRegisters(registers: seq<Request>) returns (regs: seq<HReg>)
      requires Valid() && Idle(registerCache.View()) && |registers| <= CACHE_SIZE
      modifies registerCache`freeSlots, registerCache.slots, registerCache.registerToSlot, assembler`code
      ensures Valid()
      ensures var l := Lock(old(registerCache.View()), registers);
              LockedFor(old(registerCache.View()), registers, l)
              && regs == l.regs && registerCache.View() == l.cache && assembler.code == old(assembler.code) + l.code
    {
      hide Lock, RegisterCaches.Valid, NoneLocked;
      LockAll(registerCache.View(), registers);
      var ok;
      regs, ok := registerCache.LockRegistersInternal(registers);
    }

    method GenerateCompute(i: Instruction) returns (goesOn: bool)
      requires Valid() && Idle(registerCache.View()) && IsCompute(i.op)
      modifies registerCache`freeSlots, registerCache.slots, registerCache.registerToSlot, assembler`code
      ensures Valid() && Idle(registerCache.View())
      ensures var p := ComputePiece(config, old(registerCache.View()), old(assembler.labels), currentPc, i);
              goesOn == p.goesOn && View() == Plus(old(View()), p)
    {
      hide Lock, ComputeBody, ExitCode, Unlock, UnlockClean, MayUnlockAll, RegisterCaches.Valid, NoneLocked, Requests,
        Shape, LocksOnly, AllHeld;
      ComputeOk(config, registerCache.View(), assembler.labels, currentPc, i);
      if i.rd == 0 {
        if i.op.MulDiv? {
          GenerateExit(ArchUnsupported, currentPc);
          return false;
        }
        return true;
      }
      WriteReleased(registerCache.View(), Requests(i), Lock(registerCache.View(), Requests(i)))
        by { LockAll(registerCache.View(), Requests(i)); }
      var regs := LockRegisters(Requests(i));
      var k := |regs| - 1;
      GenerateBody(i, regs[0], regs[if k == 2 then 1 else 0], regs[k]);
      MayUnlockSplit(regs);
      var released := registerCache.UnlockRegisters(regs[..k]);
      released := registerCache.UnlockRegister(regs[k], true);
      return true;
    }

    // ----- the other instructions -----

    /** Loads rd with the address of the next instruction, unless it is x0. */
    method GenerateLink(rd: GuestReg)
      requires Valid() && Idle(registerCache.View())
      modifies registerCache`freeSlots, registerCache.slots, registerCache.registerToSlot, assembler`code
      ensures Valid() && Idle(registerCache.View())
      ensures View() == Plus(old(View()), LinkPiece(config, old(registerCache.View()), old(assembler.labels), currentPc,
              rd))
    {
      hide Lock, LoadImmediate, Unlock, MayUnlock, RegisterCaches.Valid, NoneLocked, Shape, LocksOnly, AllHeld, HeldBy;
      LinkOk(config, registerCache.View(), assembler.labels, currentPc, rd);
      if rd != 0 {
        var regs := LockRegisters([WriteOnly(rd)]);
        LoadImm(regs[0], Wrap(currentPc + 4));
        var released := registerCache.UnlockRegister(regs[0], true);
      }
    }

    method GenerateJal(i: Instruction)
      requires Valid() && Idle(registerCache.View())
      modifies this`pendingExits, registerCache`freeSlots, registerCache.slots, registerCache.registerToSlot, assembler
      ensures Valid() && Idle(registerCache.View())
      ensures View() == Plus(old(View()), JalPiece(config, old(registerCache.View()), old(assembler.labels), currentPc,
              i))
    {
      hide LinkPiece, StaticBranch, RegisterCaches.Valid, NoneLocked;
      ghost var link := LinkPiece(config, registerCache.View(), assembler.labels, currentPc, i.rd);
      LinkAllocatesNone(config, registerCache.View(), assembler.labels, currentPc, i.rd);
      JalOk(config, registerCache.View(), assembler.labels, currentPc, i);
      GenerateLink(i.rd);
      ghost var branch := StaticBranch(config, link.cache, link.next, Wrap(currentPc + i.imm), A_REG, currentPc);
      StaticBranchKeeps(config, link.cache, link.next, Wrap(currentPc + i.imm), A_REG, currentPc);
      GenerateStaticBranch(Wrap(currentPc + i.imm), A_REG);
      PlusTwice(old(View()), link, branch);
    }

    /** Writes the link register while the register the target came from is still locked, and gives the
        register that holds the target from then on. */
    method GenerateJalrLink(rs1: GuestReg, rd: GuestReg, offseted: HReg, ghost c: Cache)
      returns (from: HReg, ghost d: HReg)
      requires Valid() && Idle(c) && registerCache.View() == Lock(c, [ReadOf(rs1)]).cache
      modifies registerCache`freeSlots, registerCache.slots, registerCache.registerToSlot, assembler`code
      ensures Valid()
      ensures var m := Lock(old(registerCache.View()), [WriteOnly(rd)]);
              && m.ok && m.regs == [d] && from == (if d == offseted then A_REG else offseted)
              && registerCache.View() == Unlock(m.cache, d, true)
              && assembler.code == ((old(assembler.code) + m.code) + (if d == offseted then [MovReg(A_REG, offseted)]
                 else []))
                                   + LoadImmediate(config, d, Wrap(currentPc + 4))
    {
      hide Lock, LoadImmediate, Unlock, MayUnlock, RegisterCaches.Valid, NoneLocked, Shape, HeldBy, Given, KeepsLocked;
      JalrLocks(c, rs1, rd);
      var destRegs, also := registerCache.LockRegistersInternal([WriteOnly(rd)]);
      var dest := destRegs[0];
      d := dest;
      from := offseted;
      if dest == from {
        assembler.Emit(MovReg(A_REG, from));
        from := A_REG;
      }
      LoadImm(dest, Wrap(currentPc + 4));
      var released := registerCache.UnlockRegister(dest, true);
    }

    method GenerateJalr(i: Instruction)
      requires Valid() && Idle(registerCache.View())
      modifies this`pendingExits, registerCache`freeSlots, registerCache.slots, registerCache.registerToSlot, assembler
      ensures Valid() && Idle(registerCache.View())
      ensures View() == Plus(old(View()), JalrPiece(config, old(registerCache.View()), old(assembler.labels), currentPc,
              i))
    {
      hide Lock, AddOffset, LoadImmediate, Unlock, MayUnlock, ValidatedBranch, DynamicBranch, RegisterCaches.Valid,
        NoneLocked, Shape, HeldBy, Given, KeepsLocked, JalrPiece;
      ghost var c := registerCache.View();
      JalrLocks(c, i.rs1, i.rd);
      JalrOk(config, c, assembler.labels, currentPc, i);
      var targetRegs, locked := registerCache.LockRegistersInternal([ReadOf(i.rs1)]);
      var targetReg := targetRegs[0];
      var offseted := AddOffsetToRegister(targetReg, A_REG, i.imm);
      if i.rd != 0 {
        ghost var d;
        offseted, d := GenerateJalrLink(i.rs1, i.rd, offseted, c);
        JalrLinked(config, c, old(assembler.labels), currentPc, i, old(assembler.code));
      } else {
        JalrUnlinked(config, c, old(assembler.labels), currentPc, i, old(assembler.code));
      }
      DynamicBranchKeeps(config, registerCache.View(), assembler.labels, offseted, B_REG);
      GenerateDynamicBranch(offseted, B_REG);
      var released := registerCache.UnlockRegister(targetReg, false);
    }

    method GenerateBranch(i: Instruction)
      requires Valid() && Idle(registerCache.View()) && i.op.Branch?
      modifies this`pendingExits, registerCache`freeSlots, registerCache.slots, registerCache.registerToSlot, assembler
      ensures Valid() && Idle(registerCache.View())
      ensures View() == Plus(old(View()), BranchPiece(config, old(registerCache.View()), old(assembler.labels),
              currentPc, i))
    {
      hide Lock, StaticBranch, UnlockClean, MayUnlockAll, RegisterCaches.Valid, NoneLocked, Shape, LocksOnly, AllHeld;
      var registers := [ReadOf(i.rs1), ReadOf(i.rs2)];
      ghost var c := registerCache.View();
      LockAll(c, registers);
      ReadsReleased(c, registers, Lock(c, registers));
      BranchOk(config, c, assembler.labels, currentPc, i);
      var regs := LockRegisters(registers);
      var skip := assembler.AllocateLabel();
      var test := [CmpReg(true, regs[0], regs[1]), BCond(Inverted(i.op.branch), skip)];
      assembler.EmitAll(test);
      ghost var taken := StaticBranch(config, registerCache.View(), skip + 1, Wrap(currentPc + i.imm), A_REG,
                                      currentPc);
      StaticBranchKeeps(config, registerCache.View(), skip + 1, Wrap(currentPc + i.imm), A_REG, currentPc);
      GenerateStaticBranch(Wrap(currentPc + i.imm), A_REG);
      assembler.Emit(Bind(skip));
      Associative(old(assembler.code) + Lock(c, registers).code, test, taken.code, [Bind(skip)]);
      var released := registerCache.UnlockRegisters(regs);
    }

    method GenerateLoad(i: Instruction)
      requires Valid() && Idle(registerCache.View()) && i.op.Load?
      modifies this`pendingExits, registerCache`freeSlots, registerCache.slots, registerCache.registerToSlot, assembler
      ensures Valid() && Idle(registerCache.View())
      ensures View() == Plus(old(View()), LoadPiece(config, old(registerCache.View()), old(assembler.labels), currentPc,
              i))
    {
      hide Lock, AddOffset, ValidateAccess, Unlock, MayUnlock, MayUnlockAll, RegisterCaches.Valid, NoneLocked, Shape,
        LocksOnly, AllHeld, TakeSnapshot;
      ghost var c := registerCache.View();
      LoadOk(config, c, assembler.labels, currentPc, i);
      if i.rd != 0 {
        var w := LoadWidth(i.op.load);
        var regs := LockRegisters([ReadOf(i.rs1), WriteOnly(i.rd)]);
        var address := AddOffsetToRegister(regs[0], A_REG, i.imm);
        ghost var check := ValidateAccess(config, address, assembler.labels, w, ReadAccess);
        GenerateValidateMemoryAccess(address, w, false);
        var load := LdrMem(w, SignedLoad(i.op.load), regs[1], MEMORY_BASE, address);
        assembler.Emit(load);
        Associative(old(assembler.code) + Lock(c, [ReadOf(i.rs1), WriteOnly(i.rd)]).code,
          AddOffset(config, regs[0], A_REG, i.imm).code, check, [load]);
        MayUnlockTwo(regs[0], regs[1]);
        assert regs == [regs[0], regs[1]];
        var released := registerCache.UnlockRegister(regs[0], false);
        released := registerCache.UnlockRegister(regs[1], true);
      }
    }

    method GenerateStore(i: Instruction)
      requires Valid() && Idle(registerCache.View()) && i.op.Store?
      modifies this`pendingExits, registerCache`freeSlots, registerCache.slots, registerCache.registerToSlot, assembler
      ensures Valid() && Idle(registerCache.View())
      ensures View() == Plus(old(View()), StorePiece(config, old(registerCache.View()), old(assembler.labels),
              currentPc, i))
    {
      hide Lock, AddOffset, ValidateAccess, UnlockClean, MayUnlockAll, RegisterCaches.Valid, NoneLocked, Shape,
        LocksOnly, AllHeld, TakeSnapshot;
      var registers := [ReadOf(i.rs1), ReadOf(i.rs2)];
      ghost var c := registerCache.View();
      LockAll(c, registers);
      ReadsReleased(c, registers, Lock(c, registers));
      StoreOk(config, c, assembler.labels, currentPc, i);
      var w := StoreWidth(i.op.store);
      var regs := LockRegisters(registers);
      var address := AddOffsetToRegister(regs[0], A_REG, i.imm);
      ghost var check := ValidateAccess(config, address, assembler.labels, w, WriteAccess);
      GenerateValidateMemoryAccess(address, w, true);
      var store := StrMem(w, regs[1], MEMORY_BASE, address);
      assembler.Emit(store);
      Associative(old(assembler.code) + Lock(c, registers).code, AddOffset(config, regs[0], A_REG, i.imm).code, check,
        [store]);
      var released := registerCache.UnlockRegisters(regs);
    }

    /** False when the instruction ends the block. */
    method GenerateInstruction(i: Instruction) returns (goesOn: bool)
      requires Valid() && Idle(registerCache.View())
      modifies this`pendingExits, registerCache`freeSlots, registerCache.slots, registerCache.registerToSlot, assembler
      ensures Valid() && Idle(registerCache.View())
      ensures var p := InstructionPiece(config, old(registerCache.View()), old(assembler.labels), currentPc, i);
              goesOn == p.goesOn && View() == Plus(old(View()), p)
    {
      hide ComputePiece, JalPiece, JalrPiece, BranchPiece, LoadPiece, StorePiece, ExitCode, RegisterCaches.Valid,
        NoneLocked;
      goesOn := false;
      GoesOnIs(config, registerCache.View(), assembler.labels, currentPc, i);
      match i.op
      case Jal => GenerateJal(i);
      case Jalr => GenerateJalr(i);
      case Branch(_) => GenerateBranch(i); goesOn := true;
      case Load(_) => GenerateLoad(i); goesOn := true;
      case Store(_) => GenerateStore(i); goesOn := true;
      case MulHigh(_) => GenerateExit(ArchUnsupported, currentPc);
      case Fence => goesOn := true;
      case Ecall => GenerateExit(ArchEcall, currentPc);
      case Ebreak => GenerateExit(ArchEbreak, currentPc);
      case Undefined => GenerateExit(ArchUndefined, currentPc);
      case _ => goesOn := GenerateCompute(i);
    }

    /** Translates instructions until one ends the block or cannot be fetched; ends because each takes
        four bytes of memory. */
    method GenerateBlock()
      requires Valid() && Idle(registerCache.View())
      modifies this, registerCache, registerCache.slots, registerCache.registerToSlot, assembler
      ensures Valid()
      ensures var block := Plus(old(View()), BlockFrom(config, memory.View(), old(registerCache.View()),
              old(assembler.labels), old(currentPc)));
              assembler.code == block.code && pendingExits == block.exits
    {
      hide InstructionPiece, ExitCode, RegisterCaches.Valid, NoneLocked, BlockFrom, Plus, Padded, Fetch, ReadMem,
        Decoded;
      ghost var m := memory.View();
      ghost var all := Plus(View(), BlockFrom(config, m, registerCache.View(), assembler.labels, currentPc));
      var continueExecution := true;
      while continueExecution
        invariant Valid() && memory.View() == m
        invariant if continueExecution then
                    Idle(registerCache.View()) && Plus(View(),
                      BlockFrom(config, m, registerCache.View(), assembler.labels, currentPc)) == all
                  else assembler.code == all.code && pendingExits == all.exits
        decreases if continueExecution then 1 else 0, m.size - currentPc
      {
        ghost var c, n, pc, before := registerCache.View(), assembler.labels, currentPc, View();
        BlockCases(config, m, c, n, pc, before);
        var instructionEncoded := memory.Read(currentPc, 4, ExecuteAccess);
        FetchReads(m, pc);
        if instructionEncoded == None {
          GenerateExit(ArchFetchFault, currentPc);
          PlusExit(before, c, n, config, pc);
          continueExecution := false;
        } else {
          var instruction := Decoded(Low32(instructionEncoded.value));
          InstructionOk(config, c, n, pc, instruction);
          continueExecution := GenerateInstruction(instruction);
          ghost var p := InstructionPiece(config, c, n, pc, instruction);
          FinishAfter(before, p);
          var finished := registerCache.FinishInstruction();
          FinishIdle(p.cache);
          if continueExecution {
            currentPc := currentPc + 4;
            PlusIgnoresCache(Plus(before, p), View(), BlockFrom(config, m, Finish(p.cache), p.next, pc + 4));
          }
        }
      }
    }

    /** generate_code: the whole of a block, from a fresh generator. */
    method GenerateCode()
      requires Valid() && View() == Generated(NewCache(), 0, [], []) && currentPc == config.basePc
      modifies this, registerCache, registerCache.slots, registerCache.registerToSlot, assembler
      ensures Valid() && assembler.code == Translate(config, memory.View())
    {
      hide BlockFrom, Stubs, RegisterCaches.Valid, NoneLocked, Padded;
      NewCacheValid();
      assembler.Emit(MovImm(BASE_PC, config.basePc));
      GenerateBlock();
      ghost var block := BlockFrom(config, memory.View(), NewCache(), 0, config.basePc);
      assert pendingExits == block.exits;
      GeneratePendingExits();
    }
  }

  lemma Associative(a: Code, b: Code, c: Code, d: Code)
    ensures ((a + b) + c) + d == a + (b + (c + d)) && (a + b) + c == a + (b + (c + []))
  {
  }

  lemma FlagFits(a: Access)
    ensures Flag(a) <= 4
  {
  }

  lemma StubsUnfold(cfg: Config, exits: seq<PendingExit>)
    requires exits != []
    ensures Stubs(cfg, exits) == ([Bind(exits[0].target)] + StubBody(cfg, exits[0])) + Stubs(cfg, exits[1..])
  {
    hide StubBody;
  }

  lemma StubsNone(cfg: Config)
    ensures Stubs(cfg, []) == []
  {
  }

  /** A one in each of the lowest n bytes. */
  function Ones(n: nat): nat {
    if n == 0 then 0 else Ones(n - 1) + Pow2(8 * (n - 1))
  }

  function FlagOnes(flag: nat, n: nat): nat {
    RoomForFlags(flag, Ones(n));
    flag * Ones(n)
  }

  lemma RoomForFlags(flag: nat, n: nat)
    ensures flag * n >= 0
  {
  }

  /** What a one is worth in the lowest bit of byte n. */
  function Unit(n: nat): nat { Pow2(8 * n) }

  lemma MaskStep(flag: nat, n: nat)
    ensures FlagOnes(flag, n + 1) == FlagOnes(flag, n) + flag * Unit(n)
    ensures Unit(n + 1) == Unit(n) * 0x100
  {
    Pow2Step(8 * n);
    Distribute(flag, 1, Ones(n), Pow2(8 * n));
  }

  lemma OnesOf0(flag: nat)
    ensures FlagOnes(flag, 0) == 0 && Unit(0) == 1
  {
  }

  lemma WideMask(flag: Byte, w: nat)
    requires flag <= 4 && (w == 4 || w == 8)
    ensures MaskImmediate(flag, w) == FlagOnes(flag, 8)
  {
    hide Ones;
    OnesOf8();
  }

  lemma OnesOf8()
    ensures Ones(8) == 0x0101_0101_0101_0101
  {
    Pow2Of64();
    assert Pow2(0) == 1;
    Pow2Step(16);
    Pow2Step(32);
    Pow2Step(40);
    Pow2Step(48);
    assert Ones(1) == 1;
    assert Ones(2) == 0x101;
    assert Ones(3) == 0x1_0101;
    assert Ones(4) == 0x101_0101;
    assert Ones(5) == 0x1_0101_0101;
    assert Ones(6) == 0x101_0101_0101;
    assert Ones(7) == 0x1_0101_0101_0101;
  }

  lemma {:induction false} MayUnlockSplit(regs: seq<HReg>)
    requires regs != [] && MayUnlockAll(regs)
    ensures MayUnlockAll(regs[..|regs| - 1]) && MayUnlock(regs[|regs| - 1])
  {
    if |regs| > 1 {
      MayUnlockSplit(regs[1..]);
      assert regs[1..][..|regs| - 2] == regs[..|regs| - 1][1..];
    }
  }

  lemma MayUnlockTwo(a: HReg, b: HReg)
    ensures MayUnlockAll([a, b]) <==> MayUnlock(a) && MayUnlock(b)
  {
    assert [a, b][1..] == [b] && [b][1..] == [];
    assert MayUnlockAll([b]) <==> MayUnlock(b);
  }

  lemma LinkAllocatesNone(cfg: Config, c: Cache, n: Label, pc: Word, rd: GuestReg)
    requires Shape(c)
    ensures LinkPiece(cfg, c, n, pc, rd).next == n && LinkPiece(cfg, c, n, pc, rd).exits == []
  {
    hide Lock, LoadImmediate, Unlock, MayUnlock;
  }

  /** The pieces of jalr's code in the order in which they are emitted. */
  lemma DynamicBranchKeeps(cfg: Config, c: Cache, n: Label, target: HReg, scratch: HReg)
    requires Shape(c)
    ensures var p := DynamicBranch(cfg, c, n, target, scratch); p.cache == c && p.ok && !p.goesOn
  {
    hide Flush, TakeSnapshot, ValidatedBranch;
  }

  lemma JalrUnlinked(cfg: Config, c: Cache, n: Label, pc: Word, i: Instruction, before: Code)
    requires Shape(c) && i.rd == 0
    requires Lock(c, [ReadOf(i.rs1)]).ok && |Lock(c, [ReadOf(i.rs1)]).regs| == 1
    ensures var l := Lock(c, [ReadOf(i.rs1)]);
            var target := AddOffset(cfg, l.regs[0], A_REG, i.imm);
            var branch := DynamicBranch(cfg, l.cache, n, target.reg, B_REG);
            var p := JalrPiece(cfg, c, n, pc, i);
            && before + p.code == ((before + l.code) + target.code) + branch.code
            && p.cache == Unlock(branch.cache, l.regs[0], false) && p.next == branch.next && p.exits == branch.exits
  {
    hide Lock, AddOffset, DynamicBranch, Unlock, MayUnlock;
  }

  lemma JalrLinked(cfg: Config, c: Cache, n: Label, pc: Word, i: Instruction, before: Code)
    requires Shape(c) && i.rd != 0
    requires Lock(c, [ReadOf(i.rs1)]).ok && |Lock(c, [ReadOf(i.rs1)]).regs| == 1
    requires var m := Lock(Lock(c, [ReadOf(i.rs1)]).cache, [WriteOnly(i.rd)]); m.ok && |m.regs| == 1
    ensures var l := Lock(c, [ReadOf(i.rs1)]);
            var target := AddOffset(cfg, l.regs[0], A_REG, i.imm);
            var m := Lock(l.cache, [WriteOnly(i.rd)]);
            var d := m.regs[0];
            var moved := if d == target.reg then [MovReg(A_REG, target.reg)] else [];
            var from := if d == target.reg then A_REG else target.reg;
            var branch := DynamicBranch(cfg, Unlock(m.cache, d, true), n, from, B_REG);
            var p := JalrPiece(cfg, c, n, pc, i);
            && before + p.code == (((((before + l.code) + target.code) + m.code) + moved)
               + LoadImmediate(cfg, d, Wrap(pc + 4))) + branch.code
            && p.cache == Unlock(branch.cache, l.regs[0], false) && p.next == branch.next && p.exits == branch.exits
  {
    hide Lock, AddOffset, DynamicBranch, Unlock, MayUnlock, LoadImmediate;
  }

  lemma GoesOnIs(cfg: Config, c: Cache, n: Label, pc: Word, i: Instruction)
    requires Idle(c)
    ensures i.op.Branch? ==> BranchPiece(cfg, c, n, pc, i).goesOn
    ensures i.op.Load? ==> LoadPiece(cfg, c, n, pc, i).goesOn
    ensures i.op.Store? ==> StorePiece(cfg, c, n, pc, i).goesOn
    ensures !JalPiece(cfg, c, n, pc, i).goesOn && !JalrPiece(cfg, c, n, pc, i).goesOn
  {
    hide Lock, StaticBranch, DynamicBranch, LinkPiece, AddOffset, ValidateAccess, Unlock, UnlockClean, LoadImmediate,
      MayUnlockAll, MayUnlock, Valid, NoneLocked, TakeSnapshot, Requested, LocksOnly, AllHeld;
    LockAll(c, [ReadOf(i.rs1), ReadOf(i.rs2)]);
    LockAll(c, [ReadOf(i.rs1), WriteOnly(i.rd)]);
  }

  lemma FetchReads(m: Mem, pc: Word)
    requires ValidMem(m)
    ensures match ReadMem(m, pc, 4, ExecuteAccess)
            case Some(v) => Fetch(m, pc) == Some(Decoded(Low32(v))) && pc + 4 <= m.size
            case None => Fetch(m, pc) == None
  {
    hide Decoded, LoadLE, HasFlag, Padded;
  }

  /** What is still to come of a block, before and after its next instruction. */
  lemma BlockCases(cfg: Config, m: Mem, c: Cache, n: Label, pc: Word, g: Generated)
    requires Idle(c) && ValidMem(m) && pc < TWO64
    ensures match Fetch(m, pc)
            case None => BlockFrom(cfg, m, c, n, pc) == ExitPiece(cfg, c, n, ArchFetchFault, pc)
            case Some(i) =>
              var p := InstructionPiece(cfg, c, n, pc, i);
              if !p.goesOn then BlockFrom(cfg, m, c, n, pc) == p
              else pc + 4 < TWO64
                   && Plus(g, BlockFrom(cfg, m, c, n, pc)) == Plus(Plus(g, p),
                      BlockFrom(cfg, m, Finish(p.cache), p.next, pc + 4))
  {
    hide InstructionPiece, Fetch, Valid, NoneLocked, Padded, ExitPiece, Plus;
    if Fetch(m, pc).Some? {
      var i := Fetch(m, pc).value;
      var p := InstructionPiece(cfg, c, n, pc, i);
      InstructionOk(cfg, c, n, pc, i);
      FetchReads(m, pc);
      if p.goesOn {
        PlusTwice(g, p, BlockFrom(cfg, m, Finish(p.cache), p.next, pc + 4));
        PlusFields(g, cfg, m, c, n, pc, p);
      }
    }
  }

  lemma PlusFields(g: Generated, cfg: Config, m: Mem, c: Cache, n: Label, pc: Word, p: Piece)
    requires Shape(c) && Shape(p.cache) && ValidMem(m) && Fetch(m, pc).Some?
             && p == InstructionPiece(cfg, c, n, pc, Fetch(m, pc).value)
    requires p.goesOn && p.ok && NoneLocked(p.cache) && pc + 4 < TWO64
    ensures var rest := BlockFrom(cfg, m, Finish(p.cache), p.next, pc + 4);
            Plus(g, BlockFrom(cfg, m, c, n, pc)) == Plus(g, Piece(rest.cache, rest.next, p.code + rest.code, p.exits
              + rest.exits, rest.ok, rest.goesOn))
  {
    hide InstructionPiece, Fetch, NoneLocked, Padded, ExitPiece;
  }

  lemma PlusExit(g: Generated, c: Cache, n: Label, cfg: Config, pc: Word)
    requires Shape(c) && g.cache == c && g.next == n
    ensures Plus(g, ExitPiece(cfg, c, n, ArchFetchFault, pc))
            == g.(code := g.code + ExitCode(cfg, c, ArchFetchFault, pc))
  {
    hide ExitCode;
  }

  lemma PlusIgnoresCache(g: Generated, h: Generated, p: Piece)
    requires g.code == h.code && g.exits == h.exits
    ensures Plus(g, p) == Plus(h, p)
  {
  }

  lemma FinishAfter(g: Generated, p: Piece)
    ensures Plus(g, p) == Generated(p.cache, p.next, g.code + p.code, g.exits + p.exits)
  {
  }
}
