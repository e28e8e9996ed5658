/** Where the two engines part, exactly: for each difference in the source, the condition under which they
    still agree. */
module Divergences {
  import opened Words
  import opened Instructions
  import opened Memories
  import opened Interpreter
  import opened HostMachine
  import opened RegisterCaches
  import opened CacheMeaning
  import opened Translator
  import opened CodeMeaning
  import opened Labels
  import opened BranchMeaning
  import opened ComputeMeaning
  import opened ValueAgreement
  import opened Simulation
  import opened Engine
  import Agreement
  import InstructionSimulation
  import AccessSimulation
  import BlockSimulation
  import opened VirtualMachine

  // ----- emitted code against one step of the interpreter -----

  /** Gone on to the block at s's pc. */
  ghost predicate Goes(env: Env, cfg: Config, o: Outcome, s: Machine)
    requires EnvOk(env, cfg)
  {
    InRange(cfg, s.Pc()) && Departs(env, cfg, o, s.regs, s.mem, s.Pc(), s.Pc())
  }

  /** A branch whose register state is x has gone to t. */
  lemma WentTo(env: Env, cfg: Config, o: Outcome, x: Registers, t: Machine)
    requires EnvOk(env, cfg) && InRange(cfg, t.Pc()) && t.regs == SetPc(x, t.Pc())
    requires Departs(env, cfg, o, x, t.mem, t.Pc(), t.Pc())
    ensures Goes(env, cfg, o, t)
  {
    hide Departs;
    DepartsSetPc(env, cfg, o, x, t.mem, t.Pc(), t.Pc(), t.Pc());
  }

  /** A load to x0 is not generated: the code goes on as if it had been executed, which the interpreter
      does exactly when the access is permitted. */
  lemma LoadToZero(env: Env, cfg: Config, c: Cache, n: Label, i: Instruction, rest: Code, h: Host, s: Machine)
    requires Sim(env, cfg, c, h, s) && i.op.Load? && i.rd == 0
    ensures var p := LoadPiece(cfg, c, n, s.Pc(), i);
            && Run(env, p.code + rest, h) == Run(env, rest, h) && Sim(env, cfg, p.cache, h, Skipped(s))
            && (Execute(i, s) == Next(Skipped(s)) <==> Permitted(s.mem, LoadAddress(i, s), LoadWidth(i.op.load),
               ReadAccess))
  {
    hide Run, Valid, NoneLocked, Agree, FixedRegisters, Padded, Permitted, LoadLE, LoadExtend, Wrap;
    InstructionSimulation.NothingEmitted(env, cfg, c, rest, h, s);
  }

  /** jal goes where the interpreter goes exactly when the block table has an entry for the target;
      otherwise it comes back with its own pc, which is never a misaligned target. */
  lemma JalAgrees(env: Env, cfg: Config, c: Cache, n: Label, i: Instruction, rest: Code, h: Host, s: Machine)
    requires Sim(env, cfg, c, h, s) && i.op.Jal? && s.Pc() % 4 == 0
    requires Resolves(cfg, rest, JalPiece(cfg, c, n, s.Pc(), i).exits)
    ensures var o := Run(env, JalPiece(cfg, c, n, s.Pc(), i).code + rest, h);
            var target := Wrap(s.Pc() + i.imm);
            && Execute(i, s).Next?
            && (Goes(env, cfg, o, Execute(i, s).machine) <==> InRange(cfg, target))
            && (!InRange(cfg, target) ==>
                  o.Returned? && o.host.r[EXIT_PC] == s.Pc() && (target % 4 != 0 ==> s.Pc() != target))
  {
    hide Run, Valid, NoneLocked, Agree, FixedRegisters, Padded, Resolves, JalPiece, Departs, InTable, Execute, Wrap;
    Agreement.JumpExecutes(i, s);
    InstructionSimulation.JalMeaning(env, cfg, c, n, i, rest, h, s);
    if InRange(cfg, Wrap(s.Pc() + i.imm)) {
      WentTo(env, cfg, Run(env, JalPiece(cfg, c, n, s.Pc(), i).code + rest, h), Linked(i, s), Execute(i, s).machine);
    }
  }

  /** jalr agrees with the interpreter exactly when the table has an entry for the target and either the
      computed address is even or the block there is translated already; an odd one comes back unmasked. */
  lemma JalrAgrees(env: Env, cfg: Config, c: Cache, n: Label, i: Instruction, rest: Code, h: Host, s: Machine)
    requires Sim(env, cfg, c, h, s) && i.op.Jalr?
    requires Resolves(cfg, rest, JalrPiece(cfg, c, n, s.Pc(), i).exits)
    ensures var o := Run(env, JalrPiece(cfg, c, n, s.Pc(), i).code + rest, h);
            var v := Wrap(s.regs[i.rs1] + i.imm);
            var target := ClearLowBit(v);
            && Execute(i, s).Next?
            && (Goes(env, cfg, o, Execute(i, s).machine) <==>
                InRange(cfg, target) && (v % 2 == 0 || env.offsets[target / 4] != 0))
            && (o.Returned? ==> o.host.r[EXIT_PC] == v)
  {
    hide Run, Valid, NoneLocked, Agree, FixedRegisters, Padded, Resolves, JalrPiece, InTable, Execute, Wrap;
    Agreement.JumpExecutes(i, s);
    InstructionSimulation.JalrMeaning(env, cfg, c, n, i, rest, h, s);
    var o := Run(env, JalrPiece(cfg, c, n, s.Pc(), i).code + rest, h);
    var v := Wrap(s.regs[i.rs1] + i.imm);
    var x, t := Linked(i, s), Execute(i, s).machine;
    if InRange(cfg, ClearLowBit(v)) {
      DepartsSetPc(env, cfg, o, x, s.mem, t.Pc(), t.Pc(), t.Pc());
      DepartsSetPc(env, cfg, o, x, s.mem, t.Pc(), t.Pc(), v);
    }
  }

  /** A conditional branch that is taken agrees exactly when the table has an entry for the target. */
  lemma TakenBranchAgrees(env: Env, cfg: Config, c: Cache, n: Label, i: Instruction, rest: Code, h: Host, s: Machine)
    requires Sim(env, cfg, c, h, s) && i.op.Branch? && BranchTaken(i.op.branch, s.regs[i.rs1], s.regs[i.rs2])
    requires Resolves(cfg, rest, BranchPiece(cfg, c, n, s.Pc(), i).exits)
    ensures var o := Run(env, BranchPiece(cfg, c, n, s.Pc(), i).code + rest, h);
            && Execute(i, s).Next?
            && (Goes(env, cfg, o, Execute(i, s).machine) <==> InRange(cfg, Wrap(s.Pc() + i.imm)))
            && (!InRange(cfg, Wrap(s.Pc() + i.imm)) ==> o.Returned? && o.host.r[EXIT_PC] == s.Pc())
  {
    hide Run, Valid, NoneLocked, Agree, FixedRegisters, Padded, Resolves, BranchPiece, Departs, InTable, BranchTaken,
      Wrap;
    var g := AccessSimulation.BranchPieceMeaning(env, cfg, c, n, i, rest, h, s);
    if InRange(cfg, Wrap(s.Pc() + i.imm)) {
      WentTo(env, cfg, Run(env, BranchPiece(cfg, c, n, s.Pc(), i).code + rest, h), s.regs, Execute(i, s).machine);
    }
  }

  // ----- the run's own turns: entering, and what is left to the interpreter -----

  /** The Vm has taken the guest on at s: it is in the code of the block there, or only wants room for it. */
  ghost predicate TakesOn(p: Params, v: Vm, s: Machine) {
    || v.phase == Dead(BufferFull)
    || (v.phase.InCode? && EnvOk(EnvOf(p, v.buffer), p.config)
        && BlockSimulation.Enters(EnvOf(p, v.buffer), ConfigAt(p, s.Pc()), v.phase.host, s))
  }

  /** The pc of entry: the Vm takes the guest on exactly when the block table has an entry for it. For a
      misaligned one the interpreter leaves with an exit, but the Vm fails a verify; for one past the
      table it reads past its end, whatever the interpreter does there. */
  lemma EntryIsExact(p: Params, v: Vm)
    requires Prepared(p, v)
    ensures var s := v.machine;
            && (TakesOn(p, VmStep(p, v), s) <==> InRange(p.config, s.Pc()))
            && (s.Pc() % 4 != 0 <==> VmStep(p, v).phase == Dead(BadInsert))
            && (s.Pc() % 4 != 0 ==> Step(s) == Stop(SimpleExit(UnalignedPc)))
            && (s.Pc() % 4 == 0 && s.Pc() / 4 >= p.config.maxBlocks <==> VmStep(p, v).phase == Dead(TableOverrun))
  {
    hide EngineReaches, EngineMove, Dispatch, BlockCoherent, WriteXorExecute, Padded, BlockSimulation.Enters, SameCode,
      Fetch, CameTo, Blocks;
    StartTracks(p, v);
    DispatchTracks(p, v, Waiting(p, v), 0, Waiting(p, v));
    LookupIsExact(p, v);
  }

  /** An instruction handed over that the interpreter completes: the run goes on with its result exactly
      when the block table has an entry for the next pc; else the table is read past its end, where the
      interpreter would go on. */
  lemma HandOverIsExact(p: Params, v: Vm, o: Outcome, g0: Guest, k: nat, g: Guest)
    requires Along(p, v.buffer, g0, k, g) && g.machine.Pc() % 4 == 0 && EngineEffect(p.config, g.machine).Exits?
    requires HandsOver(EngineEffect(p.config, g.machine).reason) && Step(g.machine).Next?
    requires ComesTo(EnvOf(p, v.buffer), p.config, o, EngineEffect(p.config, g.machine))
    ensures o.Returned?
    ensures var w, t := Return(v, o.host), Step(g.machine).machine;
            && w == Vm(t, v.buffer, Dispatching)
            && (TakesOn(p, VmStep(p, w), t) <==> InRange(p.config, t.Pc()))
            && (!InRange(p.config, t.Pc()) <==> VmStep(p, w).phase == Dead(TableOverrun))
  {
    hide EngineReaches, EngineEffect, Coherent, WriteXorExecute, Padded, ParamsOk, Step, Leaves, Return, Back, Dispatch,
      TakesOn, VmStep, CameTo;
    var env, s, e := EnvOf(p, v.buffer), g.machine, EngineEffect(p.config, g.machine);
    ExitsProperly(p.config, s);
    LeavesReason(env, o, s.regs, s.mem, s.Pc(), e.reason);
    ReturnedMachine(env, o, s, e.reason);
    ReturnCases(v, o.host, e.reason);
    HandedOverPc(p.config, s);
    AlongMove(p, v.buffer, g0, k, g);
    EntryIsExact(p, Vm(Step(s).machine, v.buffer, Dispatching));
  }

  lemma HandedOverPc(cfg: Config, s: Machine)
    requires |s.mem.perms| >= s.mem.size && |s.mem.bytes| >= s.mem.size && s.Pc() % 4 == 0
    requires EngineEffect(cfg, s).Exits? && HandsOver(EngineEffect(cfg, s).reason) && Step(s).Next?
    ensures Step(s).machine.Pc() == Wrap(s.Pc() + 4) && Step(s).machine.Pc() % 4 == 0
  {
    hide Fetch, Permitted, StoreLE, LoadLE, LoadExtend, ComputeValue, BranchTaken, ClearLowBit, HostCompute;
    Agreement.WrapAligned(s.Pc());
  }

  // ----- values: the translator against the instruction set -----

  /** Translated Mulw multiplies the low words, as section 7.1 has it; the interpreter divides them. */
  lemma MulwMultiplies(a: Word, b: Word)
    ensures HostMulDiv(Mulw, a, b) == SignExtend32(Signed32(a) * Signed32(b))
  {
    hide SignExtend32;
    var ka := Signed32Is(a);
    var kb := Signed32Is(b);
    var la := Low32Is(a);
    var lb := Low32Is(b);
    ProductCongruent(TWO32, Low32(a), Signed32(a), ka + la, Low32(b), Signed32(b), kb + lb);
    var k := (ka + la) * Signed32(b) + Signed32(a) * (kb + lb) + (ka + la) * (kb + lb) * TWO32;
    ModCongruent(TWO32, Low32(a) * Low32(b), Signed32(a) * Signed32(b), k);
    SignExtendCongruent(Low32(a) * Low32(b), Signed32(a) * Signed32(b));
    SignExtendLow(Low32(a) * Low32(b));
  }
}
