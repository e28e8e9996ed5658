/** Guests on which the two engines part, one for each difference in the flow of control: what the Vm comes
    to, beside what the interpreter does. */
module StrayGuests {
  import opened Words
  import opened Instructions
  import opened Memories
  import opened Interpreter
  import opened HostMachine
  import opened Translator
  import Simulation
  import opened Engine
  import Agreement
  import CodeBuffers
  import opened VirtualMachine
  import opened CodeLengths
  import Divergences
  import opened FirstRun

  // ----- the guests -----

  /** jal to a misaligned address, two bytes on */
  const JAL_ASTRAY: Word32 := Encode(Jal, 0, 0, 0, 2)

  /** jalr through x1 */
  const JALR_ASTRAY: Word32 := Encode(Jalr, 0, 1, 0, 0)

  /** a branch always taken, eight bytes on */
  const BRANCH_ASTRAY: Word32 := Encode(Branch(Beq), 0, 0, 0, 8)

  /** a load to x0 from an address that may not be read */
  const LOAD_ASTRAY: Word32 := Encode(Load(Lb), 0, 0, 0, 12)

  /** a misaligned load from an address that may be read */
  const ACCESS_ASTRAY: Word32 := Encode(Load(Lh), 2, 0, 0, 5)

  // ----- runs that stop within two instructions -----

  /** Where a run is that the engine stops at its first instruction, or at its second. */
  lemma StopsAt(cfg: Config, g: Guest, k: nat, h: Guest)
    requires EngineReaches(cfg, g, k, h)
    ensures !EngineMove(cfg, g).On? ==> k == 0 && h == g
  {
    hide EngineMove, WriteXorExecute, Padded;
  }

  lemma StopsAfter(cfg: Config, g: Guest, k: nat, h: Guest, u: Guest)
    requires EngineReaches(cfg, g, k, h) && Sound(g.machine) && Sound(u.machine)
    requires EngineMove(cfg, g) == On(u) && !EngineMove(cfg, u).On?
    ensures (k == 0 && h == g) || (k == 1 && h == u)
  {
    hide EngineMove, WriteXorExecute, Padded;
    if k > 0 {
      StopsAt(cfg, u, k - 1, h);
    }
  }

  /** Nothing can be fetched at t: both engines stop there, each in its own way. */
  lemma NothingThere(cfg: Config, t: Machine, blocks: set<nat>)
    requires ValidMem(t.mem) && Fetch(t.mem, t.Pc()) == None && t.Pc() % 4 == 0
    ensures Step(t) == Stop(SimpleExit(InstructionFetchFault))
    ensures EngineMove(cfg, Guest(t, blocks)) == Off(t, SimpleExit(InstructionFetchFault))
  {
    hide Fetch, Padded;
  }

  /** The first instruction of such a guest, under either engine. */
  lemma FirstInstruction(p: Params, v: Vm, w: Word32, blocks: nat)
    requires Starts(p, v, w, blocks)
    ensures var s := v.machine;
            && s.mem == OneInstruction(w) && s.Pc() == 0 && s.regs[0] == 0 && p.config.maxBlocks == blocks
            && Prepared(p, v) && Sound(s) && |s.mem.perms| >= s.mem.size && |s.mem.bytes| >= s.mem.size
            && Step(s) == Execute(Decoded(w), s) && EngineEffect(p.config, s) == EffectOf(p.config, Decoded(w), s)
  {
    hide Execute, EffectOf, Translate, Padded, WriteXorExecute, OneInstruction, Fetch, Decoded, Room, BlockCoherent;
    OnlyFirst(w);
    StartsPrepared(p, v, w, blocks);
    Agreement.StepIsExecute(v.machine, Decoded(w));
  }

  lemma NeverFills(p: Params, v: Vm, w: Word32, blocks: nat, n: nat)
    requires Starts(p, v, w, blocks)
    ensures VmRun(p, v, n).phase != Dead(BufferFull)
  {
    hide Starts, VmRun, Prepared, Room;
    StartsPrepared(p, v, w, blocks);
    NeverFull(p, v, n);
  }

  /** A run the engine stops at its first instruction. */
  lemma ExitsAtOnce(p: Params, v: Vm, w: Word32, blocks: nat, t: Machine, e: Exit)
    requires Starts(p, v, w, blocks) && Sound(v.machine) && EngineMove(p.config, Waiting(p, v)) == Off(t, e)
    ensures VmRun(p, v, 2).phase == Done(e) && VmRun(p, v, 2).machine == t
  {
    hide VmRun, OneInstruction, Padded, WriteXorExecute, EngineReaches, EngineMove, BlockCoherent, Room, Blocks;
    StartsPrepared(p, v, w, blocks);
    NeverFills(p, v, w, blocks, 2);
    var k, g := RunIsTranslated(p, v, 2);
    StopsAt(p.config, Waiting(p, v), k, g);
  }

  /** A run the engine stops at its second instruction. */
  lemma ExitsAfterOne(p: Params, v: Vm, w: Word32, blocks: nat, u: Guest, t: Machine, e: Exit)
    requires Starts(p, v, w, blocks) && Sound(v.machine) && Sound(u.machine)
             && Simulation.InRange(p.config, u.machine.Pc())
    requires EngineMove(p.config, Waiting(p, v)) == On(u) && EngineMove(p.config, u) == Off(t, e)
    ensures VmRun(p, v, 4).phase == Done(e) && VmRun(p, v, 4).machine == t
  {
    hide VmRun, OneInstruction, Padded, WriteXorExecute, EngineReaches, EngineMove, BlockCoherent, Room, Blocks;
    StartsPrepared(p, v, w, blocks);
    NeverFills(p, v, w, blocks, 4);
    var k, g := RunIsTranslated(p, v, 4);
    StopsAfter(p.config, Waiting(p, v), k, g, u);
  }

  // ----- jal to a misaligned target -----

  /** The interpreter jumps and then leaves with the misaligned pc; the Vm leaves with that of the jal. */
  lemma JalAstray(p: Params, v: Vm) returns (t: Machine)
    requires Starts(p, v, JAL_ASTRAY, 1)
    ensures ValidMem(v.machine.mem) && ValidMem(t.mem)
    ensures Step(v.machine) == Next(t) && t.Pc() == 2 && Step(t) == Stop(SimpleExit(UnalignedPc))
    ensures var w := VmRun(p, v, 2); w.phase == Done(SimpleExit(UnalignedPc)) && w.machine.Pc() == 0
  {
    hide Starts, Prepared, Decoded, VmRun, OneInstruction, Encode, Padded, WriteXorExecute, Fetch, Execute, EffectOf;
    var s := v.machine;
    FirstInstruction(p, v, JAL_ASTRAY, 1);
    DecodeEncode(Jal, 0, 0, 0, 2);
    JumpToTwo(p.config, Decoded(JAL_ASTRAY), s);
    t := Step(s).machine;
    ExitsAtOnce(p, v, JAL_ASTRAY, 1, MachineAt(s.regs, 0, s.mem), SimpleExit(UnalignedPc));
  }

  lemma JumpToTwo(cfg: Config, i: Instruction, s: Machine)
    requires |s.mem.perms| >= s.mem.size && |s.mem.bytes| >= s.mem.size && i.op == Jal && i.rd == 0
    requires s.Pc() == 0 && i.imm == 2
    ensures EffectOf(cfg, i, s) == Exits(MachineAt(s.regs, 0, s.mem), ArchUnalignedPc)
    ensures Execute(i, s) == Next(MachineAt(s.regs, 2, s.mem))
  {
  }

  // ----- a taken branch past the table -----

  /** The interpreter goes there and finds nothing to fetch; the Vm leaves from the branch. */
  lemma BranchAstray(p: Params, v: Vm) returns (t: Machine)
    requires Starts(p, v, BRANCH_ASTRAY, 2)
    ensures ValidMem(v.machine.mem) && ValidMem(t.mem)
    ensures Step(v.machine) == Next(t) && t.Pc() == 8 && Step(t) == Stop(SimpleExit(InstructionFetchFault))
    ensures var w := VmRun(p, v, 2); w.phase == Done(SimpleExit(OutOfBoundsPc)) && w.machine.Pc() == 0
  {
    hide Starts, Prepared, Decoded, VmRun, OneInstruction, Encode, Padded, WriteXorExecute, Fetch;
    var s := v.machine;
    FirstInstruction(p, v, BRANCH_ASTRAY, 2);
    DecodeEncode(Branch(Beq), 0, 0, 0, 8);
    OnlyFirst(BRANCH_ASTRAY);
    t := Step(s).machine;
    NothingThere(p.config, t, {});
    ExitsAtOnce(p, v, BRANCH_ASTRAY, 2, MachineAt(s.regs, 0, s.mem), SimpleExit(OutOfBoundsPc));
  }

  // ----- a load to x0 that faults -----

  /** The interpreter leaves with the fault; the Vm goes on to the next instruction. */
  lemma LoadAstray(p: Params, v: Vm)
    requires Starts(p, v, LOAD_ASTRAY, 2)
    ensures ValidMem(v.machine.mem) && Step(v.machine) == Stop(Exit(MemoryReadFault, 12, 0))
    ensures var w := VmRun(p, v, 4); w.phase == Done(SimpleExit(InstructionFetchFault)) && w.machine.Pc() == 4
  {
    hide Starts, Prepared, Decoded, VmRun, OneInstruction, Encode, Padded, WriteXorExecute, Fetch, EngineEffect, Step;
    LoadSkipped(p, v);
    OnlyFirst(LOAD_ASTRAY);
    var t := Skipped(v.machine);
    var u := Guest(t, Waiting(p, v).blocks);
    NothingThere(p.config, t, u.blocks);
    ExitsAfterOne(p, v, LOAD_ASTRAY, 2, u, t, SimpleExit(InstructionFetchFault));
  }

  lemma LoadSkipped(p: Params, v: Vm)
    requires Starts(p, v, LOAD_ASTRAY, 2)
    ensures var s := v.machine;
            && Sound(s) && |s.mem.perms| >= s.mem.size && |s.mem.bytes| >= s.mem.size && p.config.maxBlocks == 2
            && s.mem == OneInstruction(LOAD_ASTRAY) && s.Pc() == 0
            && EngineEffect(p.config, s) == Falls(Skipped(s)) && Step(s) == Stop(Exit(MemoryReadFault, 12, 0))
  {
    hide Starts, Prepared, Decoded, OneInstruction, Encode, Padded, WriteXorExecute, Fetch, Permitted, LoadLE,
      LoadExtend, Step, EngineEffect, Execute, EffectOf;
    FirstInstruction(p, v, LOAD_ASTRAY, 2);
    DecodeEncode(Load(Lb), 0, 0, 0, 12);
    NotReadable(LOAD_ASTRAY);
    FaultToZero(p.config, Decoded(LOAD_ASTRAY), v.machine, 12);
  }

  lemma FaultToZero(cfg: Config, i: Instruction, s: Machine, address: Word)
    requires |s.mem.perms| >= s.mem.size && |s.mem.bytes| >= s.mem.size && i.op == Load(Lb) && i.rd == 0
    requires address == Wrap(s.regs[i.rs1] + i.imm) && !Permitted(s.mem, address, 1, ReadAccess)
    ensures EffectOf(cfg, i, s) == Falls(Skipped(s)) && Execute(i, s) == Stop(Exit(MemoryReadFault, address, 0))
  {
    hide Permitted, LoadLE, LoadExtend, Wrap;
  }

  lemma NotReadable(w: Word32)
    ensures var m := OneInstruction(w);
            |m.perms| >= m.size && !Permitted(m, 12, 1, ReadAccess) && Permitted(m, 5, 2, ReadAccess)
  {
    hide HasFlag;
    Flags();
    assert !HasFlag(OneInstruction(w).perms[12], Flag(ReadAccess));
  }

  // ----- one trip at a time -----

  /** After one trip the code of the first block is about to run. */
  lemma FirstTrip(p: Params, v: Vm, w: Word32, blocks: nat)
    requires Starts(p, v, w, blocks)
    ensures var u := VmRun(p, v, 1);
            u.phase.InCode? && Tracks(p, u, Waiting(p, v), 0, Waiting(p, v))
            && |u.buffer.offsets| == blocks && forall b :: 0 < b < blocks ==> u.buffer.offsets[b] == 0
  {
    hide Translate, Padded, WriteXorExecute, EngineReaches, Room, BlockCoherent, Dispatch, Tracks, OneInstruction,
      Translates;
    StartsPrepared(p, v, w, blocks);
    NeverFills(p, v, w, blocks, 1);
    assert VmRun(p, v, 0) == v && VmRun(p, v, 1) == VmStep(p, v);
    StartTracks(p, v);
    DispatchTracks(p, v, Waiting(p, v), 0, Waiting(p, v));
    LookupIsExact(p, v);
    var _ := TripFills(p, v);
  }

  /** The code of a block whose first instruction does not fall through comes to that instruction's
      effect. */
  lemma SecondTrip(p: Params, u: Vm, g: Guest)
    requires Tracks(p, u, g, 0, g) && u.phase.InCode? && !EngineEffect(p.config, g.machine).Falls?
    ensures Runnable(u) && Along(p, u.buffer, g, 0, g) && g.blocks == Blocks(u.buffer)
    ensures var o := Run(EnvOf(p, u.buffer), CodeBuffers.CodeFrom(u.buffer, u.phase.offset), u.phase.host);
            && ComesTo(EnvOf(p, u.buffer), p.config, o, EngineEffect(p.config, g.machine))
            && VmStep(p, u) == AfterCode(p, u, o)
  {
    hide EngineReaches, WriteXorExecute, Padded, EngineEffect, Run, AfterCode, BlockCoherent, SameCode, ComesTo, Blocks,
      EngineMove;
    var n, t := CodeComesTo(p, u, g, 0, g);
    assert n == 0 && t.machine == g.machine;
  }

  // ----- jalr to an odd address -----

  /** With an odd address in x1 whose block is not translated: the interpreter clears the lowest bit and
      goes there; the Vm comes back with the odd address and fails a verify. */
  lemma JalrAstray(p: Params, v: Vm) returns (t: Machine)
    requires Starts(p, v, JALR_ASTRAY, 2) && v.machine.regs[1] == 5
    ensures ValidMem(v.machine.mem) && ValidMem(t.mem)
    ensures Step(v.machine) == Next(t) && t.Pc() == 4 && Step(t) == Stop(SimpleExit(InstructionFetchFault))
    ensures var w := VmRun(p, v, 3); w.phase == Dead(BadInsert) && w.machine.Pc() == 5
  {
    hide Starts, Prepared, Decoded, OneInstruction, Encode, Padded, WriteXorExecute, Fetch, VmStep, Tracks, Execute,
      EffectOf;
    var s := v.machine;
    FirstInstruction(p, v, JALR_ASTRAY, 2);
    DecodeEncode(Jalr, 0, 1, 0, 0);
    JumpToFour(p.config, Decoded(JALR_ASTRAY), s);
    OnlyFirst(JALR_ASTRAY);
    t := Step(s).machine;
    NothingThere(p.config, t, {});
    FirstTrip(p, v, JALR_ASTRAY, 2);
    var u := VmRun(p, v, 1);
    OddBranch(p, u, Waiting(p, v));
    assert VmRun(p, v, 2) == VmStep(p, u) && VmRun(p, v, 3) == VmStep(p, VmStep(p, u));
  }

  lemma JumpToFour(cfg: Config, i: Instruction, s: Machine)
    requires |s.mem.perms| >= s.mem.size && |s.mem.bytes| >= s.mem.size && i.op == Jalr && i.rd == 0
             && cfg.maxBlocks == 2
    requires Wrap(s.regs[i.rs1] + i.imm) == 5
    ensures EffectOf(cfg, i, s) == Branches(MachineAt(s.regs, 4, s.mem), 5)
    ensures Execute(i, s) == Next(MachineAt(s.regs, 4, s.mem))
  {
    hide Wrap;
    assert ClearLowBit(5) == 4;
  }

  lemma OddBranch(p: Params, u: Vm, g: Guest)
    requires Tracks(p, u, g, 0, g) && u.phase.InCode? && EngineEffect(p.config, g.machine).Branches?
    requires var e := EngineEffect(p.config, g.machine); e.machine.Pc() / 4 !in Blocks(u.buffer) && e.report % 4 != 0
    ensures var w := VmStep(p, VmStep(p, u));
            w.phase == Dead(BadInsert) && w.machine.Pc() == EngineEffect(p.config, g.machine).report
  {
    hide EngineReaches, WriteXorExecute, Padded, EngineEffect, Run, BlockCoherent, SameCode, ComesTo, AfterCode,
      Dispatch, Translate, CameTo, Blocks;
    SecondTrip(p, u, g);
    var o := Run(EnvOf(p, u.buffer), CodeBuffers.CodeFrom(u.buffer, u.phase.offset), u.phase.host);
    var h := BranchTracks(p, u, o, g, 0, g);
    DispatchTracks(p, VmStep(p, u), g, 1, h);
    LookupIsExact(p, VmStep(p, u));
  }

  // ----- a misaligned access in the last block of the table -----

  /** The interpreter loads and goes on; the Vm has it do so, and then reads past the block table. */
  lemma AccessAstray(p: Params, v: Vm) returns (t: Machine)
    requires Starts(p, v, ACCESS_ASTRAY, 1)
    ensures ValidMem(v.machine.mem) && ValidMem(t.mem)
    ensures Step(v.machine) == Next(t) && t.Pc() == 4 && Step(t) == Stop(SimpleExit(InstructionFetchFault))
    ensures var w := VmRun(p, v, 3); w.phase == Dead(TableOverrun) && w.machine == t
  {
    hide Starts, Prepared, Decoded, OneInstruction, Encode, Padded, WriteXorExecute, Fetch, VmStep, Tracks, Permitted,
      Loaded, Execute, EffectOf;
    var s := v.machine;
    FirstInstruction(p, v, ACCESS_ASTRAY, 1);
    DecodeEncode(Load(Lh), 2, 0, 0, 5);
    OnlyFirst(ACCESS_ASTRAY);
    NotReadable(ACCESS_ASTRAY);
    MisalignedLoad(p.config, Decoded(ACCESS_ASTRAY), s, 5);
    t := Step(s).machine;
    NothingThere(p.config, t, {});
    FirstTrip(p, v, ACCESS_ASTRAY, 1);
    var u := VmRun(p, v, 1);
    HandedOver(p, u, Waiting(p, v));
    assert VmRun(p, v, 2) == VmStep(p, u) && VmRun(p, v, 3) == VmStep(p, VmStep(p, u));
  }

  lemma MisalignedLoad(cfg: Config, i: Instruction, s: Machine, address: Word)
    requires |s.mem.perms| >= s.mem.size && |s.mem.bytes| >= s.mem.size && i.op == Load(Lh) && i.rd != 0 && s.Pc() == 0
    requires address == Wrap(s.regs[i.rs1] + i.imm) && address % 2 != 0 && Permitted(s.mem, address, 2, ReadAccess)
    ensures EffectOf(cfg, i, s) == Exits(s, ArchReadFault)
    ensures Execute(i, s).Next? && Execute(i, s).machine.mem == s.mem && Execute(i, s).machine.Pc() == 4
  {
    hide Permitted, LoadLE, LoadExtend;
    assert Wrap(4) == 4;
  }

  lemma HandedOver(p: Params, u: Vm, g: Guest)
    requires Tracks(p, u, g, 0, g) && u.phase.InCode? && g.machine.Pc() % 4 == 0
    requires EngineEffect(p.config, g.machine).Exits? && HandsOver(EngineEffect(p.config, g.machine).reason)
    requires Step(g.machine).Next? && !Simulation.InRange(p.config, Step(g.machine).machine.Pc())
    ensures var w := VmStep(p, VmStep(p, u)); w.phase == Dead(TableOverrun) && w.machine == Step(g.machine).machine
  {
    hide EngineReaches, WriteXorExecute, Padded, EngineEffect, Run, BlockCoherent, SameCode, ComesTo, Translate, Step,
      Tracks, Blocks;
    SecondTrip(p, u, g);
    var o := Run(EnvOf(p, u.buffer), CodeBuffers.CodeFrom(u.buffer, u.phase.offset), u.phase.host);
    Divergences.HandOverIsExact(p, u, o, g, 0, g);
  }
}
