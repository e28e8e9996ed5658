/** Both engines against the instruction set, instruction by instruction. */
module InstructionLaws {
  import opened Words
  import opened Instructions
  import opened Memories
  import opened Interpreter
  import opened Translator
  import opened ComputeMeaning
  import opened OperandAgreement
  import opened Simulation
  import opened Engine
  import Agreement
  import BlockSimulation
  import opened InstructionSet
  import opened NumberLaws
  import ValueAgreement
  import opened ValueLaws

  // ----- loads and stores -----

  lemma Widths(load: LoadOp, store: StoreOp)
    ensures LoadWidth(load) == LoadBytes(load) && StoreWidth(store) == StoreBytes(store)
  {
  }

  lemma OnlyAddress(x: int)
    ensures SameWord(Wrap(x), x) && forall u: Word :: SameWord(u, x) ==> u == Wrap(x)
  {
    hide SameWord, Wrap;
    WordIs(Wrap(x), x);
    forall u: Word | SameWord(u, x)
      ensures u == Wrap(x)
    {
      WordIs(u, x);
    }
  }

  /** A load that completes gives the number in memory, extended; the bytes it read were readable. */
  lemma LoadedLaw(i: Instruction, s: Machine)
    requires i.op.Load? && |s.mem.perms| >= s.mem.size && |s.mem.bytes| >= s.mem.size
    requires Permitted(s.mem, LoadAddress(i, s), LoadWidth(i.op.load), ReadAccess)
    ensures Executes(i, s, Loaded(i, s))
  {
    hide Permitted, Granted, Number, Extended, LoadLE, LoadExtend, SameWord, Wrap;
    var u, t := LoadAddress(i, s), Loaded(i, s);
    Widths(i.op.load, Sb);
    var n := LoadBytes(i.op.load);
    OnlyAddress(s.regs[i.rs1] + i.imm);
    OnlyAddress(s.regs[32] as int + 4);
    PermittedIs(s.mem, u, n, ReadAccess);
    InsideBytes(s.mem, u, n, ReadAccess);
    NumberIs(s.mem.bytes, u, n);
    ExtendedIs(i.op.load, Number(s.mem.bytes, u, n), LoadedValue(i, s));
  }

  lemma InsideBytes(m: Mem, u: nat, n: nat, a: Access)
    requires |m.perms| >= m.size && |m.bytes| >= m.size && Permitted(m, u, n, a)
    ensures u + n <= |m.bytes|
  {
  }

  lemma StoredLaw(i: Instruction, s: Machine)
    requires i.op.Store? && |s.mem.perms| >= s.mem.size && |s.mem.bytes| >= s.mem.size
    requires Permitted(s.mem, LoadAddress(i, s), StoreWidth(i.op.store), WriteAccess)
    ensures Executes(i, s, Stored(i, s))
  {
    hide Permitted, Granted, StoreLE, SameWord, Wrap;
    var u, t := LoadAddress(i, s), Stored(i, s);
    Widths(Lb, i.op.store);
    var n := StoreBytes(i.op.store);
    OnlyAddress(s.regs[i.rs1] + i.imm);
    OnlyAddress(s.regs[32] as int + 4);
    PermittedIs(s.mem, u, n, WriteAccess);
    InsideBytes(s.mem, u, n, WriteAccess);
    forall k: nat | u <= k < u + n
      ensures t.mem.bytes[k] == (s.regs[i.rs2] / Pow2(8 * (k - u))) % 0x100
    {
      StoreHolds(s.mem.bytes, u, n, s.regs[i.rs2], k);
    }
  }

  /** The interpreter's loads and stores: done as the instruction set has it exactly when every byte is
      readable or writable, and otherwise left with the address and the register. */
  lemma InterpretedAccess(i: Instruction, s: Machine, u: Word)
    requires (i.op.Load? || i.op.Store?) && |s.mem.perms| >= s.mem.size && |s.mem.bytes| >= s.mem.size
    requires SameWord(u, s.regs[i.rs1] + i.imm)
    ensures var granted := if i.op.Load? then Granted(s.mem, u, LoadBytes(i.op.load), 1)
                           else Granted(s.mem, u, StoreBytes(i.op.store), 2);
            && (granted ==> Execute(i, s).Next? && Executes(i, s, Execute(i, s).machine))
            && (!granted ==> Execute(i, s) == Stop(if i.op.Load? then Exit(MemoryReadFault, u, i.rd)
                                                   else Exit(MemoryWriteFault, u, i.rs2)))
  {
    hide Permitted, Granted, StoreLE, LoadLE, LoadExtend, SameWord, Wrap, Executes;
    WordIs(u, s.regs[i.rs1] + i.imm);
    if i.op.Load? {
      Widths(i.op.load, Sb);
      PermittedIs(s.mem, u, LoadBytes(i.op.load), ReadAccess);
      if Permitted(s.mem, u, LoadBytes(i.op.load), ReadAccess) {
        LoadedLaw(i, s);
      }
    } else {
      Widths(Lb, i.op.store);
      PermittedIs(s.mem, u, StoreBytes(i.op.store), WriteAccess);
      if Permitted(s.mem, u, StoreBytes(i.op.store), WriteAccess) {
        StoredLaw(i, s);
      }
    }
  }

  /** Translated ones, but for loads to x0, which are not generated: done so exactly when the address is
      aligned besides, and otherwise left to the interpreter. */
  lemma TranslatedAccess(cfg: Config, i: Instruction, s: Machine, u: Word)
    requires ((i.op.Load? && i.rd != 0) || i.op.Store?) && |s.mem.perms| >= s.mem.size && |s.mem.bytes| >= s.mem.size
    requires SameWord(u, s.regs[i.rs1] + i.imm)
    ensures var n := if i.op.Load? then LoadBytes(i.op.load) else StoreBytes(i.op.store);
            var done := u % n == 0 && Granted(s.mem, u, n, if i.op.Load? then 1 else 2);
            var e := EffectOf(cfg, i, s);
            && (done ==> e.Falls? && Executes(i, s, e.machine))
            && (!done ==> e == Exits(s, if i.op.Load? then ArchReadFault else ArchWriteFault))
  {
    hide Permitted, Granted, StoreLE, LoadLE, LoadExtend, SameWord, Wrap, Executes;
    WordIs(u, s.regs[i.rs1] + i.imm);
    if i.op.Load? {
      Widths(i.op.load, Sb);
      PermittedIs(s.mem, u, LoadBytes(i.op.load), ReadAccess);
      if Permitted(s.mem, u, LoadBytes(i.op.load), ReadAccess) {
        LoadedLaw(i, s);
      }
    } else {
      Widths(Lb, i.op.store);
      PermittedIs(s.mem, u, StoreBytes(i.op.store), WriteAccess);
      if Permitted(s.mem, u, StoreBytes(i.op.store), WriteAccess) {
        StoredLaw(i, s);
      }
    }
  }

  // ----- jumps and branches -----

  lemma TakenIs(op: BranchOp, a: Word, b: Word)
    ensures Taken(op, a, b) <==> BranchTaken(op, a, b)
  {
    hide ReadsSigned, Signed;
    ReadsOnce(a);
    ReadsOnce(b);
  }

  lemma JumpsLaw(i: Instruction, s: Machine)
    requires i.op.Jal? || i.op.Jalr?
    ensures var to := if i.op.Jal? then Wrap(s.Pc() + i.imm) else ClearLowBit(Wrap(s.regs[i.rs1] + i.imm));
            Executes(i, s, MachineAt(Linked(i, s), to, s.mem))
  {
    hide SameWord, Wrap, ClearLowBit;
    OnlyAddress(s.regs[32] as int + 4);
    OnlyAddress(s.regs[32] + i.imm);
    Cleared(s.regs[i.rs1] + i.imm);
  }

  lemma Cleared(x: int)
    ensures var to := ClearLowBit(Wrap(x)); to % 2 == 0 && (SameWord(to, x) || SameWord(to + 1, x))
  {
    hide Wrap;
    WordIs(Wrap(x), x);
    var v := Wrap(x);
    assert v == 2 * (v / 2) + v % 2;
  }

  lemma BranchesLaw(i: Instruction, s: Machine)
    requires i.op.Branch?
    ensures var to := Wrap(s.Pc() + if BranchTaken(i.op.branch, s.regs[i.rs1], s.regs[i.rs2]) then i.imm else 4);
            Executes(i, s, MachineAt(s.regs, to, s.mem))
  {
    hide SameWord, Wrap, BranchTaken, Taken;
    TakenIs(i.op.branch, s.regs[i.rs1], s.regs[i.rs2]);
    OnlyAddress(s.regs[32] + i.imm);
    OnlyAddress(s.regs[32] as int + 4);
  }

  /** Where translated branches go: the target if it is a multiple of four within the block table, and
      otherwise out, misalignment first, with the branch's own pc. */
  lemma TranslatedJumps(cfg: Config, i: Instruction, s: Machine, u: Word)
    requires |s.mem.perms| >= s.mem.size && |s.mem.bytes| >= s.mem.size
    requires i.op.Jal? || (i.op.Branch? && Taken(i.op.branch, s.regs[i.rs1], s.regs[i.rs2]))
    requires SameWord(u, s.regs[32] + i.imm)
    ensures var e, link := EffectOf(cfg, i, s), if i.op.Jal? then i.rd else 0;
            && LeftBy(s, e.machine, link)
            && (if u % 4 != 0 then e == Exits(e.machine, ArchUnalignedPc) && e.machine.regs[32] == s.regs[32]
                else if u >= 4 * cfg.maxBlocks then
                  e == Exits(e.machine, ArchOutOfBoundsPc) && e.machine.regs[32] == s.regs[32]
                else e == Branches(e.machine, u) && e.machine.regs[32] == u)
  {
    hide SameWord, Wrap, BranchTaken, Taken, Permitted, LoadLE, StoreLE, LoadExtend, HostCompute, AccessChecked,
      ClearLowBit;
    WordIs(u, s.regs[32] + i.imm);
    OnlyAddress(s.regs[32] as int + 4);
    if i.op.Branch? {
      TakenIs(i.op.branch, s.regs[i.rs1], s.regs[i.rs2]);
    }
  }

  /** The same for jalr, whose exits and report have the address before its lowest bit is cleared. */
  lemma TranslatedJalr(cfg: Config, i: Instruction, s: Machine, u: Word)
    requires |s.mem.perms| >= s.mem.size && |s.mem.bytes| >= s.mem.size
    requires i.op.Jalr? && SameWord(u, s.regs[i.rs1] + i.imm)
    ensures var e := EffectOf(cfg, i, s);
            && LeftBy(s, e.machine, i.rd)
            && (if u % 4 >= 2 then e == Exits(e.machine, ArchUnalignedPc) && e.machine.regs[32] == u
                else if u >= 4 * cfg.maxBlocks then
                  e == Exits(e.machine, ArchOutOfBoundsPc) && e.machine.regs[32] == u
                else e == Branches(e.machine, u) && e.machine.regs[32] == u - u % 2)
  {
    hide SameWord, Wrap, Permitted, LoadLE, StoreLE, LoadExtend, HostCompute, AccessChecked, BranchTaken, ClearLowBit;
    WordIs(u, s.regs[i.rs1] + i.imm);
    OnlyAddress(s.regs[32] as int + 4);
    ClearedTarget(u, cfg.maxBlocks);
  }

  lemma ClearedTarget(u: Word, blocks: nat)
    ensures ClearLowBit(u) == u - u % 2
    ensures ClearLowBit(u) % 4 != 0 <==> u % 4 >= 2
    ensures u % 4 < 2 ==> (ClearLowBit(u) / 4 >= blocks <==> u >= 4 * blocks)
  {
    var k, r := u / 4, u % 4;
    var low := if r >= 2 then r - 2 else r;
    DivUnique(u, 2, if r >= 2 then 2 * k + 1 else 2 * k, low);
    DivUnique(u - low, 4, k, r - low);
  }

  /** Nothing but the link register and the pc has changed. */
  ghost predicate LeftBy(s: Machine, t: Machine, link: nat) {
    t.mem == s.mem && Others(s, t, link) && link < 32
    && (link != 0 ==> SameWord(t.regs[link], s.regs[32] as int + 4))
  }

  // ----- values -----

  /** A machine with a value in rd and the pc past the instruction. */
  lemma ValueExecutes(i: Instruction, s: Machine, v: Word)
    requires IsCompute(i.op)
    ensures Executes(i, s, MachineAt(SetReg(s.regs, i.rd, v), Wrap(s.Pc() + 4), s.mem))
       <==> (i.rd != 0 ==> ValueLaw(i, s.Pc(), s.regs[i.rs1], s.regs[i.rs2], v))
  {
    hide SameWord, Wrap, ValueLaw;
    OnlyAddress(s.regs[32] as int + 4);
    var t := MachineAt(SetReg(s.regs, i.rd, v), Wrap(s.Pc() + 4), s.mem);
    assert i.rd != 0 ==> t.regs[i.rd] == v;
  }

  lemma FenceExecutes(i: Instruction, s: Machine)
    requires i.op.Fence?
    ensures Executes(i, s, Skipped(s))
  {
    hide SameWord, Wrap;
    OnlyAddress(s.regs[32] as int + 4);
  }

  // ----- whole instructions -----

  /** When the interpreter completes an instruction, it has done what the instruction set asks for exactly
      if its value is one on which the engines agree. */
  lemma InterpretedLaw(i: Instruction, s: Machine)
    requires WellFormed(i) && |s.mem.perms| >= s.mem.size && |s.mem.bytes| >= s.mem.size && Execute(i, s).Next?
    ensures Executes(i, s, Execute(i, s).machine)
       <==> (IsCompute(i.op) && i.rd != 0 ==> OperandsAgree(i, s.regs[i.rs1], s.regs[i.rs2]))
  {
    hide Permitted, Granted, StoreLE, LoadLE, LoadExtend, SameWord, Wrap, Executes, BranchTaken, ClearLowBit,
      ComputeValue, OperandsAgree, ValueLaw;
    if IsCompute(i.op) {
      var a, b := s.regs[i.rs1], s.regs[i.rs2];
      var v := ComputeValue(i, s.Pc(), a, b).value;
      ValueExecutes(i, s, v);
      InterpretedValueLaw(i, s.Pc(), a, b);
    } else if i.op.Load? || i.op.Store? {
      OnlyAddress(s.regs[i.rs1] + i.imm);
      InterpretedAccess(i, s, Wrap(s.regs[i.rs1] + i.imm));
    } else if i.op.Branch? {
      BranchesLaw(i, s);
    } else if i.op.Fence? {
      FenceExecutes(i, s);
    } else {
      Agreement.JumpExecutes(i, s);
      JumpsLaw(i, s);
    }
  }

  /** And exactly these it does not complete, whatever the reason. */
  lemma InterpretedStops(s: Machine)
    requires |s.mem.perms| >= s.mem.size && |s.mem.bytes| >= s.mem.size
    ensures s.regs[32] % 4 != 0 ==> Step(s) == Stop(Exit(UnalignedPc, 0, 0))
    ensures s.regs[32] % 4 == 0 && !Granted(s.mem, s.regs[32], 4, 4) ==>
              Step(s) == Stop(Exit(InstructionFetchFault, 0, 0))
    ensures forall i: Instruction :: s.regs[32] % 4 == 0 && Fetches(s, i) ==>
              Step(s) == Execute(i, s)
              && match i.op
                 case Ecall => Step(s) == Stop(Exit(EcallExit, 0, 0))
                 case Ebreak => Step(s) == Stop(Exit(EbreakExit, 0, 0))
                 case Undefined => Step(s) == Stop(Exit(UndefinedInstruction, 0, 0))
                 case MulHigh(_) => Step(s) == Fatal
                 case MulDiv(_) =>
                   Step(s) == UndefinedBehaviour <==> ComputeValue(i, s.regs[32], s.regs[i.rs1], s.regs[i.rs2]).None?
                 case Load(_) => Step(s).Next? || (Step(s).Stop? && Step(s).exit.reason == MemoryReadFault)
                 case Store(_) => Step(s).Next? || (Step(s).Stop? && Step(s).exit.reason == MemoryWriteFault)
                 case _ => Step(s).Next?
  {
    hide Permitted, Granted, Number, LoadLE, StoreLE, LoadExtend, Decoded, Wrap, BranchTaken, ClearLowBit, MulDivValue;
    PermittedIs(s.mem, s.regs[32], 4, ExecuteAccess);
    forall i: Instruction
      ensures Fetch(s.mem, s.Pc()) == Some(i) <==> Fetches(s, i)
    {
      FetchLaw(s, i);
    }
  }

  /** Where translated code departs from the instruction set: divisions by zero, and loads to x0 of bytes
      that may not be read. */
  predicate Departs(i: Instruction, s: Machine)
    requires |s.mem.perms| >= s.mem.size && |s.mem.bytes| >= s.mem.size
  {
    || (IsCompute(i.op) && i.rd != 0 && ByZero(i, s.regs[i.rs2]))
    || (i.op.Load? && i.rd == 0 && !Permitted(s.mem, LoadAddress(i, s), LoadWidth(i.op.load), ReadAccess))
  }

  lemma SkippedLoad(i: Instruction, s: Machine)
    requires i.op.Load? && i.rd == 0 && |s.mem.perms| >= s.mem.size && |s.mem.bytes| >= s.mem.size
    ensures Executes(i, s, Skipped(s)) <==> Permitted(s.mem, LoadAddress(i, s), LoadWidth(i.op.load), ReadAccess)
  {
    hide Permitted, Granted, Number, Extended, SameWord, Wrap;
    OnlyAddress(s.regs[i.rs1] + i.imm);
    OnlyAddress(s.regs[32] as int + 4);
    Widths(i.op.load, Sb);
    PermittedIs(s.mem, LoadAddress(i, s), LoadBytes(i.op.load), ReadAccess);
  }

  /** When translated code completes an instruction, it has done what the instruction set asks for exactly
      if it is none of those. */
  lemma TranslatedLaw(cfg: Config, i: Instruction, s: Machine)
    requires WellFormed(i) && |s.mem.perms| >= s.mem.size && |s.mem.bytes| >= s.mem.size && !EffectOf(cfg, i, s).Exits?
    ensures Executes(i, s, EffectOf(cfg, i, s).machine) <==> !Departs(i, s)
  {
    hide Permitted, Granted, StoreLE, LoadLE, LoadExtend, SameWord, Wrap, Executes, BranchTaken, ClearLowBit,
      HostCompute, ValueLaw, ByZero;
    if IsCompute(i.op) {
      var a, b := s.regs[i.rs1], s.regs[i.rs2];
      ValueExecutes(i, s, HostCompute(i, s.Pc(), a, b));
      TranslatedValueLaw(i, s.Pc(), a, b, HostCompute(i, s.Pc(), a, b));
    } else if i.op.Load? && i.rd == 0 {
      SkippedLoad(i, s);
    } else if i.op.Load? || i.op.Store? {
      OnlyAddress(s.regs[i.rs1] + i.imm);
      TranslatedAccess(cfg, i, s, Wrap(s.regs[i.rs1] + i.imm));
    } else if i.op.Branch? {
      BranchesLaw(i, s);
    } else if i.op.Fence? {
      FenceExecutes(i, s);
    } else {
      JumpsLaw(i, s);
    }
  }

  lemma FetchLaw(s: Machine, i: Instruction)
    requires |s.mem.perms| >= s.mem.size && |s.mem.bytes| >= s.mem.size
    ensures Fetch(s.mem, s.Pc()) == Some(i) <==> Fetches(s, i)
  {
    hide Permitted, Granted, Number, LoadLE, Decoded;
    var pc := s.Pc();
    PermittedIs(s.mem, pc, 4, ExecuteAccess);
    if Permitted(s.mem, pc, 4, ExecuteAccess) {
      InsideBytes(s.mem, pc, 4, ExecuteAccess);
      NumberIs(s.mem.bytes, pc, 4);
      assert Low32(Number(s.mem.bytes, pc, 4)) == Number(s.mem.bytes, pc, 4);
    }
  }

  // ----- the instruction set leaves nothing open -----

  lemma SameWordOnce(v: Word, w: Word, x: int)
    requires SameWord(v, x) && SameWord(w, x)
    ensures v == w
  {
    hide SameWord, Wrap;
    WordIs(v, x);
    WordIs(w, x);
  }

  lemma ValueOnce(i: Instruction, pc: Word, a: Word, b: Word, v: Word, w: Word)
    requires IsCompute(i.op) && WellFormed(i) && ValueLaw(i, pc, a, b, v) && ValueLaw(i, pc, a, b, w)
    ensures v == w
  {
    hide HostCompute, ImmLaw, ShiftLaw, RegLaw, SetLaw, SetImmLaw, MulDivLaw, Result;
    TranslatedValueLaw(i, pc, a, b, v);
    TranslatedValueLaw(i, pc, a, b, w);
    if ByZero(i, b) {
      var op := i.op.mulDiv;
      var q, r := QuotientOf(First(op, a), First(op, b)), ValueAgreement.RemainderOver(First(op, a), First(op, b));
      MulDivLawIs(op, a, b, v);
      MulDivLawIs(op, a, b, w);
      ResultIs(op, v, q, r);
      ResultIs(op, w, q, r);
    }
  }

  /** An instruction leads to one machine at most. */
  lemma ExecutesOnce(i: Instruction, s: Machine, t: Machine, u: Machine)
    requires WellFormed(i) && Executes(i, s, t) && Executes(i, s, u)
    ensures t == u
  {
    hide SameWord, ValueLaw, Taken, Granted, Extended, Number, Wrap;
    OnlyAddress(s.regs[i.rs1] + i.imm);
    SamePc(i, s, t, u);
    forall k: nat | k < 33
      ensures t.regs[k] == u.regs[k]
    {
      if k == i.rd && k != 0 {
        SameTarget(i, s, t, u);
      }
    }
    assert t.regs == u.regs;
    if i.op.Store? {
      var at, n := Wrap(s.regs[i.rs1] + i.imm), StoreBytes(i.op.store);
      HoldingOnce(s.mem, t.mem, u.mem, at, n, s.regs[i.rs2]);
    }
  }

  lemma HoldingOnce(m: Mem, t: Mem, u: Mem, at: nat, n: nat, v: Word)
    requires Holding(m, t, at, n, v) && Holding(m, u, at, n, v)
    ensures t == u
  {
    assert t.bytes == u.bytes;
  }

  lemma SamePc(i: Instruction, s: Machine, t: Machine, u: Machine)
    requires Executes(i, s, t) && Executes(i, s, u)
    ensures t.regs[32] == u.regs[32]
  {
    hide SameWord, ValueLaw, Taken, Granted, Extended, Number, Others, Holding;
    if i.op.Jalr? {
      EvenOnce(t.regs[32], u.regs[32], s.regs[i.rs1] + i.imm);
    } else {
      SameWordOnce(t.regs[32], u.regs[32], s.regs[32] as int + if i.op.Jal? || (i.op.Branch?
        && Taken(i.op.branch, s.regs[i.rs1], s.regs[i.rs2])) then i.imm else 4);
    }
  }

  lemma EvenOnce(v: Word, w: Word, x: int)
    requires v % 2 == 0 && w % 2 == 0
    requires (SameWord(v, x) || SameWord(v + 1, x)) && (SameWord(w, x) || SameWord(w + 1, x))
    ensures v == w
  {
    hide SameWord;
    var a, b: int := if SameWord(v, x) then v else v + 1, if SameWord(w, x) then w else w + 1;
    SameWordOnce(a, b, x);
  }

  lemma SameTarget(i: Instruction, s: Machine, t: Machine, u: Machine)
    requires WellFormed(i) && Executes(i, s, t) && Executes(i, s, u) && i.rd != 0
    ensures t.regs[i.rd] == u.regs[i.rd]
  {
    hide SameWord, ValueLaw, Taken, Granted, Extended, Number, Wrap, Holding;
    if i.op.Jal? || i.op.Jalr? {
      SameWordOnce(t.regs[i.rd], u.regs[i.rd], s.regs[32] as int + 4);
    } else if i.op.Load? {
      OnlyAddress(s.regs[i.rs1] + i.imm);
      ReadsAll(i, s, t, Wrap(s.regs[i.rs1] + i.imm));
      ReadsAll(i, s, u, Wrap(s.regs[i.rs1] + i.imm));
    } else if IsCompute(i.op) {
      ValueOnce(i, s.regs[32], s.regs[i.rs1], s.regs[i.rs2], t.regs[i.rd], u.regs[i.rd]);
    }
  }

  lemma ReadsAll(i: Instruction, s: Machine, t: Machine, u: Word)
    requires i.op.Load? && i.rd != 0 && LoadLaw(i, s, t) && SameWord(u, s.regs[i.rs1] + i.imm)
    ensures u + LoadBytes(i.op.load) <= |s.mem.bytes|
    ensures t.regs[i.rd] == LoadExtend(i.op.load, Number(s.mem.bytes, u, LoadBytes(i.op.load)))
  {
    hide SameWord, Extended, Number, Others, GoesOn, LoadExtend;
    assert Granted(s.mem, u, LoadBytes(i.op.load), 1);
    NumberIs(s.mem.bytes, u, LoadBytes(i.op.load));
    ExtendedIs(i.op.load, Number(s.mem.bytes, u, LoadBytes(i.op.load)), t.regs[i.rd]);
  }

  // ----- runs -----

  /** Where a move of the engine, the interpreter's help included, departs from the instruction set: there,
      and at a jalr to an odd address of a block not translated yet, which is looked up as it is. */
  predicate Strays(cfg: Config, i: Instruction, g: Guest)
    requires var m := g.machine.mem; |m.perms| >= m.size && |m.bytes| >= m.size
  {
    var v := Wrap(g.machine.regs[i.rs1] + i.imm);
    Departs(i, g.machine) || (i.op.Jalr? && v % 2 != 0 && ClearLowBit(v) / 4 !in g.blocks)
  }

  lemma MoveLaw(cfg: Config, i: Instruction, g: Guest)
    requires Agreement.OnTurn(i, g) && EngineMove(cfg, g).On?
    ensures Executes(i, g.machine, EngineMove(cfg, g).guest.machine) <==> !Strays(cfg, i, g)
  {
    hide Fetch, Executes, Departs, Execute, EffectOf, Padded;
    var s := g.machine;
    BlockSimulation.FetchedWellFormed(s.mem, s.Pc());
    Agreement.StepIsExecute(s, i);
    match EngineEffect(cfg, s)
    case Falls(t) =>
      TranslatedLaw(cfg, i, s);
      NoJump(cfg, i, s);
    case Branches(t, report) =>
      TranslatedLaw(cfg, i, s);
      BranchStrays(cfg, i, g);
    case Exits(t, reason) =>
      InterpretedLaw(i, s);
      HandedOver(cfg, i, s);
  }

  lemma NoJump(cfg: Config, i: Instruction, s: Machine)
    requires |s.mem.perms| >= s.mem.size && |s.mem.bytes| >= s.mem.size && EffectOf(cfg, i, s).Falls?
    ensures !i.op.Jalr?
  {
    hide Permitted, ClearLowBit, Wrap;
  }

  lemma HandedOver(cfg: Config, i: Instruction, s: Machine)
    requires |s.mem.perms| >= s.mem.size && |s.mem.bytes| >= s.mem.size && Execute(i, s).Next?
    requires EffectOf(cfg, i, s).Exits? && HandsOver(EffectOf(cfg, i, s).reason)
    ensures !i.op.Jalr? && !Departs(i, s) && (IsCompute(i.op) ==> i.rd == 0)
  {
    hide Permitted, ClearLowBit, Wrap, ByZero, StoreLE, LoadLE, LoadExtend, ComputeValue, HostCompute;
  }

  /** A branch to a block not translated yet arrives at the address it reports. */
  lemma BranchStrays(cfg: Config, i: Instruction, g: Guest)
    requires var m := g.machine.mem; |m.perms| >= m.size && |m.bytes| >= m.size
    requires Fetch(g.machine.mem, g.machine.Pc()) == Some(i) && EngineEffect(cfg, g.machine).Branches?
    requires Executes(i, g.machine, EngineEffect(cfg, g.machine).machine) <==> !Departs(i, g.machine)
    ensures EngineMove(cfg, g).On?
    ensures Executes(i, g.machine, EngineMove(cfg, g).guest.machine) <==> !Strays(cfg, i, g)
  {
    hide Fetch, Permitted, BranchTaken, Wrap, ByZero, StoreLE, LoadLE, LoadExtend, HostCompute, Taken, SameWord;
    var s := g.machine;
    var v := Wrap(s.regs[i.rs1] + i.imm);
    Agreement.SetPcTwice(Linked(i, s), ClearLowBit(v), v, s.mem);
    if i.op.Jalr? && v % 2 == 0 {
      assert ClearLowBit(v) == v;
    }
  }

  /** None of the first k states of the engine's run is one at which it strays. */
  ghost predicate StandardFor(cfg: Config, g: Guest, k: nat) {
    forall j: nat, l: Guest :: j < k && EngineReaches(cfg, g, j, l) && Sound(l.machine) ==>
      l.machine.Pc() % 4 == 0
      && forall i: Instruction :: Fetch(l.machine.mem, l.machine.Pc()) == Some(i) ==> !Strays(cfg, i, l)
  }

  lemma StandardNow(cfg: Config, g: Guest, k: nat, i: Instruction)
    requires 0 < k && StandardFor(cfg, g, k) && Sound(g.machine) && Fetch(g.machine.mem, g.machine.Pc()) == Some(i)
    ensures Agreement.OnTurn(i, g) && !Strays(cfg, i, g)
  {
    hide Fetch, Strays, WriteXorExecute, Padded, EngineMove;
    assert EngineReaches(cfg, g, 0, g);
  }

  lemma StandardLater(cfg: Config, g: Guest, k: nat)
    requires 0 < k && StandardFor(cfg, g, k) && Sound(g.machine) && EngineMove(cfg, g).On?
    ensures StandardFor(cfg, EngineMove(cfg, g).guest, k - 1)
  {
    hide Fetch, Strays, WriteXorExecute, Padded, EngineMove;
    var h := EngineMove(cfg, g).guest;
    forall j: nat, l: Guest | j < k - 1 && EngineReaches(cfg, h, j, l) && Sound(l.machine)
      ensures l.machine.Pc() % 4 == 0
      ensures forall i: Instruction :: Fetch(l.machine.mem, l.machine.Pc()) == Some(i) ==> !Strays(cfg, i, l)
    {
      var n := j + 1;
      assert EngineReaches(cfg, g, n, l);
    }
  }

  lemma MovesOn(cfg: Config, g: Guest)
    requires Sound(g.machine) && EngineMove(cfg, g).On?
    ensures Fetch(g.machine.mem, g.machine.Pc()).Some?
  {
    hide Fetch, EffectOf, WriteXorExecute, Padded, Step;
  }

  /** A run under the engine that strays nowhere is a run of the instruction set. */
  lemma {:induction false} EngineRunsLaw(cfg: Config, g: Guest, k: nat, h: Guest)
    requires EngineReaches(cfg, g, k, h) && StandardFor(cfg, g, k)
    ensures Runs(g.machine, k, h.machine)
    decreases k
  {
    hide Fetch, Fetches, Executes, Strays, WriteXorExecute, Padded, EngineMove, StandardFor;
    if k > 0 {
      var l := EngineMove(cfg, g).guest;
      MovesOn(cfg, g);
      var i := Fetch(g.machine.mem, g.machine.Pc()).value;
      StandardNow(cfg, g, k, i);
      MoveLaw(cfg, i, g);
      FetchLaw(g.machine, i);
      StandardLater(cfg, g, k);
      EngineRunsLaw(cfg, l, k - 1, h);
      assert Fetches(g.machine, i) && Executes(i, g.machine, l.machine) && Runs(l.machine, k - 1, h.machine);
    }
  }

  /** So is a run of the interpreter in which the engines would not differ. */
  lemma {:induction false} FaithfulRunsLaw(cfg: Config, s: Machine, k: nat, t: Machine)
    requires Agreement.Reaches(s, k, t) && Agreement.FaithfulFor(cfg, s, k)
    ensures Runs(s, k, t)
    decreases k
  {
    hide Fetch, Fetches, Executes, WriteXorExecute, Padded, Step, Agreement.FaithfulFor, Agreement.Faithful;
    if k > 0 {
      var u := Step(s).machine;
      StepExecutes(s);
      var i := Fetch(s.mem, s.Pc()).value;
      Agreement.FaithfulNow(cfg, s, k);
      BlockSimulation.FetchedWellFormed(s.mem, s.Pc());
      StepLaw(cfg, i, s);
      FetchLaw(s, i);
      Agreement.FaithfulLater(cfg, s, k);
      FaithfulRunsLaw(cfg, u, k - 1, t);
      assert Fetches(s, i) && Executes(i, s, u) && Runs(u, k - 1, t);
    }
  }

  lemma StepLaw(cfg: Config, i: Instruction, s: Machine)
    requires WellFormed(i) && |s.mem.perms| >= s.mem.size && |s.mem.bytes| >= s.mem.size && Execute(i, s).Next?
    requires Agreement.Faithful(cfg, i, s)
    ensures Executes(i, s, Execute(i, s).machine)
  {
    hide Executes, Execute, OperandsAgree, Permitted, Wrap, BranchTaken;
    InterpretedLaw(i, s);
  }
}
