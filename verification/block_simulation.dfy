/** A translated block against the translator's own semantics: whatever the guest, its code never faults on
    the host, always leaves, and leaves with exactly the effect of its instructions. */
module BlockSimulation {
  import opened Words
  import opened Instructions
  import opened Memories
  import opened Interpreter
  import opened HostMachine
  import opened RegisterCaches
  import opened CacheMeaning
  import opened Translator
  import opened TranslationChecks
  import opened CodeMeaning
  import opened Labels
  import opened ForwardCode
  import opened BranchMeaning
  import opened ComputeMeaning
  import opened Simulation
  import opened Engine
  import opened InstructionSimulation
  import AccessSimulation

  // ----- what the decoder guarantees -----

  lemma DecodedShift(w: Word32)
    ensures Decode(w).Type().Shift? ==> Decode(w).b < if WideShift(Decode(w).Type().shift) then 64 else 32
  {
    hide Opcode, Funct3, Funct7, Shtype, SetDecoded, IType, RType33, RType3b, ImmI, ImmU, ImmS, ImmB, ImmJ, Packed.Type,
      Packed.Rd;
    var opcode := Opcode(w);
    PackedFields(Undefined, 0, 0, 0, 0);
    if opcode == 0x03 || opcode == 0x0f || opcode == 0x13 || opcode == 0x1b || opcode == 0x73 || opcode == 0x67 {
      PackedFields(IType(w), Rd(w), Rs1(w), 0, ITypeImm(IType(w), w));
    } else if opcode == 0x33 || opcode == 0x3b {
      var t := if opcode == 0x33 then RType33(Funct7(w), Funct3(w)) else RType3b(Funct7(w), Funct3(w));
      PackedFields(t, Rd(w), Rs1(w), Rs2(w), 0);
      RegistersAreNotShifts(Funct7(w), Funct3(w));
    } else {
      OthersAreNotShifts(w);
    }
  }

  lemma RegistersAreNotShifts(funct7: Field7, f: Field3)
    ensures !RType33(funct7, f).Shift? && !RType3b(funct7, f).Shift?
  {
  }

  lemma OthersAreNotShifts(w: Word32)
    requires Opcode(w) !in {0x03, 0x0f, 0x13, 0x1b, 0x73, 0x67, 0x33, 0x3b}
    ensures !Decode(w).Type().Shift?
  {
    hide Opcode, Funct3, Funct7, SetDecoded, ImmU, ImmS, ImmB, ImmJ, Packed.Type;
    var f := Funct3(w);
    PackedFields(Undefined, 0, 0, 0, 0);
    PackedFields(if Opcode(w) == 0x37 then Lui else Auipc, Rd(w), 0, 0, ImmU(w));
    PackedFields(Jal, Rd(w), 0, 0, ImmJ(w));
    PackedFields(Store(if f == 0 then Sb else if f == 1 then Sh else if f == 2 then Sw
      else Sd), 0, Rs1(w), Rs2(w), ImmS(w));
    PackedFields(Branch(if f == 0 then Beq else if f == 1 then Bne else if f == 4 then Blt
                        else if f == 5 then Bge else if f == 6 then Bltu else Bgeu), 0, Rs1(w), Rs2(w), ImmB(w));
  }

  lemma DecodedWellFormed(w: Word32)
    ensures WellFormed(Decoded(w))
  {
    hide Decode, Packed.Type, Packed.Rd, Packed.Rs1, Packed.Rs2;
    DecodedShift(w);
  }

  lemma FetchedWellFormed(m: Mem, pc: Word)
    requires ValidMem(m) && Fetch(m, pc).Some?
    ensures WellFormed(Fetch(m, pc).value)
  {
    hide WellFormed, Decoded, Permitted;
    var v := ReadMem(m, pc, 4, ExecuteAccess).value;
    DecodedWellFormed(Low32(v));
  }

  // ----- one instruction -----

  /** What the code of one instruction comes to: it goes on with the code that follows, or leaves. */
  ghost predicate Simulates(env: Env, cfg: Config, p: Piece, o: Outcome, rest: Code, g: Host, e: Effect)
    requires EnvOk(env, cfg)
  {
    match e
    case Falls(t) => p.goesOn && o == Run(env, rest, g) && Sim(env, cfg, p.cache, g, t)
    case _ => ComesTo(env, cfg, o, e)
  }

  lemma CameByBranch(env: Env, cfg: Config, o: Outcome, x: Registers, m: Mem, target: Word, pc: Word)
    requires EnvOk(env, cfg)
    requires if target % 4 != 0 then Leaves(env, o, x, m, pc, ArchUnalignedPc)
             else if target / 4 >= cfg.maxBlocks then Leaves(env, o, x, m, pc, ArchOutOfBoundsPc)
             else Departs(env, cfg, o, x, m, target, target)
    ensures ComesTo(env, cfg, o, BranchTo(cfg, x, m, target, pc))
  {
    hide Leaves, Departs;
    if target % 4 != 0 {
      LeavesSetPc(env, o, x, m, pc, pc, ArchUnalignedPc);
    } else if target / 4 >= cfg.maxBlocks {
      LeavesSetPc(env, o, x, m, pc, pc, ArchOutOfBoundsPc);
    } else {
      DepartsSetPc(env, cfg, o, x, m, target, target, target);
    }
  }

  lemma CameByRegister(env: Env, cfg: Config, o: Outcome, x: Registers, m: Mem, v: Word)
    requires EnvOk(env, cfg)
    requires var target := ClearLowBit(v);
             if target % 4 != 0 then Leaves(env, o, x, m, v, ArchUnalignedPc)
             else if target / 4 >= cfg.maxBlocks then Leaves(env, o, x, m, v, ArchOutOfBoundsPc)
             else Departs(env, cfg, o, x, m, target, v)
    ensures ComesTo(env, cfg, o, BranchThrough(cfg, x, m, v))
  {
    hide Leaves, Departs, ClearLowBit;
    var target := ClearLowBit(v);
    if target % 4 != 0 {
      LeavesSetPc(env, o, x, m, v, v, ArchUnalignedPc);
    } else if target / 4 >= cfg.maxBlocks {
      LeavesSetPc(env, o, x, m, v, v, ArchOutOfBoundsPc);
    } else {
      DepartsSetPc(env, cfg, o, x, m, target, target, v);
    }
  }

  lemma JalSimulates(env: Env, cfg: Config, c: Cache, n: Label, i: Instruction, rest: Code, h: Host, s: Machine)
    requires Sim(env, cfg, c, h, s) && i.op.Jal? && Resolves(cfg, rest, JalPiece(cfg, c, n, s.Pc(), i).exits)
    ensures EnvOk(env, cfg)
    ensures ComesTo(env, cfg, Run(env, JalPiece(cfg, c, n, s.Pc(), i).code + rest, h),
                    BranchTo(cfg, Linked(i, s), s.mem, Wrap(s.Pc() + i.imm), s.Pc()))
  {
    hide Run, Valid, NoneLocked, Agree, FixedRegisters, Padded, Resolves, JalPiece, Leaves, Departs, Wrap;
    JalMeaning(env, cfg, c, n, i, rest, h, s);
    CameByBranch(env, cfg, Run(env, JalPiece(cfg, c, n, s.Pc(), i).code + rest, h), Linked(i, s), s.mem,
                 Wrap(s.Pc() + i.imm), s.Pc());
  }

  lemma JalrSimulates(env: Env, cfg: Config, c: Cache, n: Label, i: Instruction, rest: Code, h: Host, s: Machine)
    requires Sim(env, cfg, c, h, s) && i.op.Jalr? && Resolves(cfg, rest, JalrPiece(cfg, c, n, s.Pc(), i).exits)
    ensures EnvOk(env, cfg)
    ensures ComesTo(env, cfg, Run(env, JalrPiece(cfg, c, n, s.Pc(), i).code + rest, h),
                    BranchThrough(cfg, Linked(i, s), s.mem, Wrap(s.regs[i.rs1] + i.imm)))
  {
    hide Run, Valid, NoneLocked, Agree, FixedRegisters, Padded, Resolves, JalrPiece, Leaves, Departs, Wrap, ClearLowBit;
    JalrMeaning(env, cfg, c, n, i, rest, h, s);
    CameByRegister(env, cfg, Run(env, JalrPiece(cfg, c, n, s.Pc(), i).code + rest, h), Linked(i, s), s.mem,
                   Wrap(s.regs[i.rs1] + i.imm));
  }

  lemma BranchSimulates(env: Env, cfg: Config, c: Cache, n: Label, i: Instruction, rest: Code, h: Host, s: Machine)
    returns (g: Host)
    requires Sim(env, cfg, c, h, s) && i.op.Branch? && Resolves(cfg, rest, BranchPiece(cfg, c, n, s.Pc(), i).exits)
    ensures Simulates(env, cfg, BranchPiece(cfg, c, n, s.Pc(), i),
            Run(env, BranchPiece(cfg, c, n, s.Pc(), i).code + rest, h),
                      rest, g, EffectOf(cfg, i, s))
  {
    hide Run, Valid, NoneLocked, Agree, FixedRegisters, Padded, Resolves, BranchPiece, Leaves, Departs, BranchTaken;
    g := AccessSimulation.BranchPieceMeaning(env, cfg, c, n, i, rest, h, s);
    if BranchTaken(i.op.branch, s.regs[i.rs1], s.regs[i.rs2]) {
      CameByBranch(env, cfg, Run(env, BranchPiece(cfg, c, n, s.Pc(), i).code + rest, h), s.regs, s.mem,
                   Wrap(s.Pc() + i.imm), s.Pc());
    }
  }

  lemma LoadSimulates(env: Env, cfg: Config, c: Cache, n: Label, i: Instruction, rest: Code, h: Host, s: Machine)
    returns (g: Host)
    requires Sim(env, cfg, c, h, s) && i.op.Load? && Resolves(cfg, rest, LoadPiece(cfg, c, n, s.Pc(), i).exits)
    ensures Simulates(env, cfg, LoadPiece(cfg, c, n, s.Pc(), i),
            Run(env, LoadPiece(cfg, c, n, s.Pc(), i).code + rest, h),
                      rest, g, EffectOf(cfg, i, s))
  {
    hide Run, Valid, NoneLocked, Agree, FixedRegisters, Padded, Resolves, Leaves, Departs, Permitted, Lock, Unlock,
      AddOffset, ValidateAccess, MayUnlockAll, TakeSnapshot, Wrap, LoadExtend, LoadLE;
    if i.rd == 0 {
      g := h;
      NothingEmitted(env, cfg, c, rest, h, s);
    } else {
      g := AccessSimulation.LoadMeaning(env, cfg, c, n, i, rest, h, s);
    }
  }

  lemma StoreSimulates(env: Env, cfg: Config, c: Cache, n: Label, i: Instruction, rest: Code, h: Host, s: Machine)
    returns (g: Host)
    requires Sim(env, cfg, c, h, s) && i.op.Store? && Resolves(cfg, rest, StorePiece(cfg, c, n, s.Pc(), i).exits)
    ensures Simulates(env, cfg, StorePiece(cfg, c, n, s.Pc(), i),
            Run(env, StorePiece(cfg, c, n, s.Pc(), i).code + rest, h),
                      rest, g, EffectOf(cfg, i, s))
  {
    hide Run, Valid, NoneLocked, Agree, FixedRegisters, Padded, Resolves, Leaves, Departs, Permitted, StorePiece, Wrap,
      StoreLE;
    g := AccessSimulation.StoreMeaning(env, cfg, c, n, i, rest, h, s);
  }

  /** One instruction, whatever it is and whatever the guest: its code has exactly the effect the engine
      defines for it. */
  lemma InstructionSimulates(env: Env, cfg: Config, c: Cache, n: Label, i: Instruction, rest: Code, h: Host, s: Machine)
    returns (g: Host)
    requires Sim(env, cfg, c, h, s) && WellFormed(i)
    requires Resolves(cfg, rest, InstructionPiece(cfg, c, n, s.Pc(), i).exits)
    ensures Simulates(env, cfg, InstructionPiece(cfg, c, n, s.Pc(), i),
                      Run(env, InstructionPiece(cfg, c, n, s.Pc(), i).code + rest, h), rest, g, EffectOf(cfg, i, s))
  {
    hide Run, Valid, NoneLocked, Agree, FixedRegisters, Padded, Resolves, Permitted, ExitCode, JalPiece, JalrPiece,
      BranchPiece, LoadPiece, StorePiece, ComputePiece, Leaves, HostCompute, WellFormed, ClearLowBit, Wrap;
    g := h;
    match i.op
    case Jal => JalSimulates(env, cfg, c, n, i, rest, h, s);
    case Jalr => JalrSimulates(env, cfg, c, n, i, rest, h, s);
    case Branch(_) => g := BranchSimulates(env, cfg, c, n, i, rest, h, s);
    case Load(_) => g := LoadSimulates(env, cfg, c, n, i, rest, h, s);
    case Store(_) => g := StoreSimulates(env, cfg, c, n, i, rest, h, s);
    case MulHigh(_) => ExitSimulates(env, cfg, c, ArchUnsupported, rest, h, s);
    case Fence => NothingEmitted(env, cfg, c, rest, h, s);
    case Ecall => ExitSimulates(env, cfg, c, ArchEcall, rest, h, s);
    case Ebreak => ExitSimulates(env, cfg, c, ArchEbreak, rest, h, s);
    case Undefined => ExitSimulates(env, cfg, c, ArchUndefined, rest, h, s);
    case _ => g := ComputeSimulates(env, cfg, c, n, i, rest, h, s);
  }

  // ----- whole blocks -----

  /** An instruction's exits resolve through the rest of the block, which binds only later labels. */
  lemma ExitsResolve(cfg: Config, m: Mem, p: Piece, n: Label, pc: Word, rest: Code)
    requires Idle(p.cache) && Owns(p, n) && |m.perms| >= m.size && |m.bytes| >= m.size && m.size + 8 < TWO64
    requires var r := BlockFrom(cfg, m, Finish(p.cache), p.next, pc); Resolves(cfg, rest, p.exits + r.exits)
    ensures var r := BlockFrom(cfg, m, Finish(p.cache), p.next, pc);
            Resolves(cfg, r.code + rest, p.exits) && Resolves(cfg, rest, r.exits)
  {
    hide BlockFrom, StubBody, After, Owns, Valid, NoneLocked;
    var r := BlockFrom(cfg, m, Finish(p.cache), p.next, pc);
    FinishIdle(p.cache);
    BlockOwns(cfg, m, Finish(p.cache), p.next, pc);
    LaterBindsNone(p, r, n);
    assert forall k :: 0 <= k < |p.exits| ==> (p.exits + r.exits)[k] == p.exits[k];
    assert forall k :: 0 <= k < |r.exits| ==> (p.exits + r.exits)[|p.exits| + k] == r.exits[k];
    ResolvesThrough(cfg, r.code, rest, p.exits);
  }

  lemma SimFinish(env: Env, cfg: Config, c: Cache, h: Host, s: Machine)
    requires Sim(env, cfg, c, h, s)
    ensures Sim(env, cfg, Finish(c), h, s)
  {
    hide FixedRegisters, Padded;
    FinishIdle(c);
    var none: set<GuestReg> := {};
    forall r: GuestReg
      ensures AgreeAt(Finish(c), h, s.regs, none, r)
    {
      assert AgreeAt(c, h, s.regs, none, r);
    }
  }

  /** The rest of a block from any instruction, translated when code was as it is now: k instructions fall
      through, and the next does not. */
  lemma {:induction false} RestOfBlock(env: Env, cfg: Config, m: Mem, c: Cache, n: Label, rest: Code, h: Host,
                                       s: Machine)
    returns (k: nat, t: Machine)
    requires Sim(env, cfg, c, h, s) && Sound(s) && ValidMem(m) && SameCode(m, s.mem)
    requires Resolves(cfg, rest, BlockFrom(cfg, m, c, n, s.Pc()).exits)
    ensures FallsTo(cfg, s, k, t) && Sound(t) && EnvOk(env, cfg)
    ensures ComesTo(env, cfg, Run(env, BlockFrom(cfg, m, c, n, s.Pc()).code + rest, h), EngineEffect(cfg, t))
    decreases m.size - s.Pc()
  {
    hide Run, Valid, NoneLocked, Agree, FixedRegisters, Padded, Resolves, Fetch, ExitCode, SameCode, WriteXorExecute,
      InstructionPiece, BlockFrom, EffectOf, Owns, WellFormed, Leaves, Departs;
    var pc := s.Pc();
    FetchSameCode(m, s.mem, pc);
    var b := BlockFrom(cfg, m, c, n, pc);
    k, t := 0, s;
    if Fetch(m, pc) == None {
      EndOfBlock(cfg, m, c, n, pc);
      ExitSimulates(env, cfg, c, ArchFetchFault, rest, h, s);
    } else {
      var i := Fetch(m, pc).value;
      var p := InstructionPiece(cfg, c, n, pc, i);
      FetchedWellFormed(m, pc);
      InstructionOk(cfg, c, n, pc, i);
      InstructionOwns(cfg, c, n, pc, i);
      BlockUnfold(cfg, m, c, n, pc);
      if !p.goesOn {
        var _ := InstructionSimulates(env, cfg, c, n, i, rest, h, s);
      } else {
        var r := BlockFrom(cfg, m, Finish(p.cache), p.next, pc + 4);
        ExitsResolve(cfg, m, p, n, pc + 4, rest);
        assert b.code + rest == p.code + (r.code + rest);
        var g := InstructionSimulates(env, cfg, c, n, i, r.code + rest, h, s);
        if EffectOf(cfg, i, s).Falls? {
          var u := EffectOf(cfg, i, s).machine;
          FallsPast(cfg, i, s);
          EffectOfKeeps(cfg, i, s);
          SameCodeTransitive(m, s.mem, u.mem);
          SimFinish(env, cfg, p.cache, g, u);
          k, t := RestOfBlock(env, cfg, m, Finish(p.cache), p.next, rest, g, u);
          k := k + 1;
        }
      }
    }
  }

  lemma EndOfBlock(cfg: Config, m: Mem, c: Cache, n: Label, pc: Word)
    requires Shape(c) && ValidMem(m) && Fetch(m, pc) == None
    ensures BlockFrom(cfg, m, c, n, pc) == ExitPiece(cfg, c, n, ArchFetchFault, pc)
  {
    hide ExitPiece, Fetch, Padded;
  }

  lemma BlockUnfold(cfg: Config, m: Mem, c: Cache, n: Label, pc: Word)
    requires Shape(c) && ValidMem(m) && Fetch(m, pc).Some?
    requires var p := InstructionPiece(cfg, c, n, pc, Fetch(m, pc).value); p.ok && NoneLocked(p.cache)
    ensures pc + 4 <= m.size
    ensures var p := InstructionPiece(cfg, c, n, pc, Fetch(m, pc).value);
            var b := BlockFrom(cfg, m, c, n, pc);
            if !p.goesOn then b.code == p.code && b.exits == p.exits
            else
              var r := BlockFrom(cfg, m, Finish(p.cache), p.next, pc + 4);
              b.code == p.code + r.code && b.exits == p.exits + r.exits
  {
    hide InstructionPiece, Decoded, LoadLE, HasFlag, Padded;
  }

  /** What the trampoline sets up and every jump between blocks keeps. */
  ghost predicate Enters(env: Env, cfg: Config, h: Host, s: Machine) {
    && EntryRegisters(env, cfg, s.mem.size, h) && InTable(h, s.regs) && h.mem == s.mem
    && EnvOk(env, cfg) && !cfg.skipPermissionChecks && s.Pc() == cfg.basePc
  }

  lemma EntrySim(env: Env, cfg: Config, h: Host, s: Machine)
    requires Sound(s) && Enters(env, cfg, h, s)
    ensures Sim(env, cfg, NewCache(), Put(h, BASE_PC, cfg.basePc), s)
  {
    hide Padded, WriteXorExecute;
    NewCacheValid();
    var g := Put(h, BASE_PC, cfg.basePc);
    var none: set<GuestReg> := {};
    forall r: GuestReg
      ensures AgreeAt(NewCache(), g, s.regs, none, r)
    {
      assert NewCache().toSlot[r] == NONE;
    }
  }

  /** The simulation theorem. The code of a block, entered with the guest registers in the table and with
      instruction memory as it was when the block was translated, never faults on the host and always
      leaves, whatever the guest does: some number of its instructions fall through, and it leaves with
      the effect of the next, all of the guest back in the table. */
  lemma TranslatedBlock(env: Env, cfg: Config, m: Mem, tail: Code, h: Host, s: Machine) returns (k: nat, t: Machine)
    requires Sound(s) && Enters(env, cfg, h, s) && ValidMem(m) && SameCode(m, s.mem)
    ensures FallsTo(cfg, s, k, t) && Sound(t)
    ensures ComesTo(env, cfg, Run(env, Translate(cfg, m) + tail, h), EngineEffect(cfg, t))
  {
    hide Run, Stubs, BlockFrom, DistinctTargets, Resolves, Sim, Padded, SameCode, WriteXorExecute, InTable, FallsTo,
      EngineEffect, ComesTo;
    var pc := cfg.basePc;
    var b := BlockFrom(cfg, m, NewCache(), 0, pc);
    var g := Put(h, BASE_PC, pc);
    BlockExitsDistinct(cfg, m);
    StubsResolve(cfg, b.exits, tail);
    EntrySim(env, cfg, h, s);
    k, t := RestOfBlock(env, cfg, m, NewCache(), 0, Stubs(cfg, b.exits) + tail, g, s);
    var mov := MovImm(BASE_PC, pc);
    assert Translate(cfg, m) + tail == [mov] + (b.code + (Stubs(cfg, b.exits) + tail));
    RunOne(env, mov, b.code + (Stubs(cfg, b.exits) + tail), h);
  }

  lemma BlockExitsDistinct(cfg: Config, m: Mem)
    requires ValidMem(m)
    ensures DistinctTargets(BlockFrom(cfg, m, NewCache(), 0, cfg.basePc).exits)
  {
    hide BlockFrom, Padded, DistinctTargets, Owns, Valid, NoneLocked;
    NewCacheValid();
    BlockOwns(cfg, m, NewCache(), 0, cfg.basePc);
    OwnsDistinct(BlockFrom(cfg, m, NewCache(), 0, cfg.basePc), 0);
  }
}
