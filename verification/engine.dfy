/** What translated code does to a guest, for every guest: the translator's own semantics, one
    instruction at a time. */
module Engine {
  import opened Words
  import opened Instructions
  import opened Memories
  import opened Interpreter
  import opened HostMachine
  import CacheMeaning
  import opened Translator
  import opened CodeMeaning
  import BranchMeaning
  import opened ComputeMeaning
  import opened Simulation

  /** Code falls through to the next instruction; or branches to a block of the table, reporting an
      address if the block is not there; or leaves with a reason. The pc of each machine is where the
      guest is then. */
  datatype Effect = Falls(machine: Machine) | Branches(machine: Machine, report: Word) | Exits(machine: Machine,
    reason: ArchExit)

  /** The guest a well-formed run is about: memory in shape, no byte both writable and executable. */
  ghost predicate Sound(s: Machine) {
    ValidMem(s.mem) && WriteXorExecute(s.mem) && s.regs[0] == 0
  }

  function MachineAt(x: Registers, pc: Word, m: Mem): Machine { Machine(SetPc(x, pc), m) }

  function Skipped(s: Machine): Machine { MachineAt(s.regs, Wrap(s.Pc() + 4), s.mem) }

  /** The engine's value of an instruction that only computes. */
  function Computed(i: Instruction, s: Machine): Machine
    requires IsCompute(i.op)
  {
    MachineAt(SetReg(s.regs, i.rd, HostCompute(i, s.Pc(), s.regs[i.rs1], s.regs[i.rs2])), Wrap(s.Pc() + 4), s.mem)
  }

  function LoadAddress(i: Instruction, s: Machine): Word { Wrap(s.regs[i.rs1] + i.imm) }

  function LoadedValue(i: Instruction, s: Machine): Word
    requires i.op.Load? && |s.mem.perms| >= s.mem.size && |s.mem.bytes| >= s.mem.size
    requires Permitted(s.mem, LoadAddress(i, s), LoadWidth(i.op.load), ReadAccess)
  {
    LoadExtend(i.op.load, LoadLE(s.mem.bytes, LoadAddress(i, s), LoadWidth(i.op.load)))
  }

  function Loaded(i: Instruction, s: Machine): Machine
    requires i.op.Load? && |s.mem.perms| >= s.mem.size && |s.mem.bytes| >= s.mem.size
    requires Permitted(s.mem, LoadAddress(i, s), LoadWidth(i.op.load), ReadAccess)
  {
    MachineAt(SetReg(s.regs, i.rd, LoadedValue(i, s)), Wrap(s.Pc() + 4), s.mem)
  }

  function Stored(i: Instruction, s: Machine): Machine
    requires i.op.Store? && |s.mem.perms| >= s.mem.size && |s.mem.bytes| >= s.mem.size
    requires Permitted(s.mem, LoadAddress(i, s), StoreWidth(i.op.store), WriteAccess)
  {
    MachineAt(s.regs, Wrap(s.Pc() + 4), s.mem.(bytes := StoreLE(s.mem.bytes, LoadAddress(i, s), StoreWidth(i.op.store),
      s.regs[i.rs2])))
  }

  function Linked(i: Instruction, s: Machine): Registers { SetReg(s.regs, i.rd, Wrap(s.Pc() + 4)) }

  /** A branch to a known target: errors found at translation time leave with the branch's own pc. */
  function BranchTo(cfg: Config, x: Registers, m: Mem, target: Word, pc: Word): Effect {
    if target % 4 != 0 then Exits(MachineAt(x, pc, m), ArchUnalignedPc)
    else if target / 4 >= cfg.maxBlocks then Exits(MachineAt(x, pc, m), ArchOutOfBoundsPc)
    else Branches(MachineAt(x, target, m), target)
  }

  /** A branch through a register: only the jump itself masks the lowest bit. */
  function BranchThrough(cfg: Config, x: Registers, m: Mem, v: Word): Effect {
    var target := ClearLowBit(v);
    if target % 4 != 0 then Exits(MachineAt(x, v, m), ArchUnalignedPc)
    else if target / 4 >= cfg.maxBlocks then Exits(MachineAt(x, v, m), ArchOutOfBoundsPc)
    else Branches(MachineAt(x, target, m), v)
  }

  function EffectOf(cfg: Config, i: Instruction, s: Machine): Effect
    requires |s.mem.perms| >= s.mem.size && |s.mem.bytes| >= s.mem.size
  {
    match i.op
    case Jal => BranchTo(cfg, Linked(i, s), s.mem, Wrap(s.Pc() + i.imm), s.Pc())
    case Jalr => BranchThrough(cfg, Linked(i, s), s.mem, Wrap(s.regs[i.rs1] + i.imm))
    case Branch(op) =>
      if BranchTaken(op, s.regs[i.rs1], s.regs[i.rs2]) then BranchTo(cfg, s.regs, s.mem, Wrap(s.Pc() + i.imm), s.Pc())
      else Falls(Skipped(s))
    case Load(op) =>
      if i.rd == 0 then Falls(Skipped(s))
      else if AccessChecked(s, LoadAddress(i, s), LoadWidth(op), ReadAccess) then Falls(Loaded(i, s))
      else Exits(s, ArchReadFault)
    case Store(op) =>
      if AccessChecked(s, LoadAddress(i, s), StoreWidth(op), WriteAccess) then Falls(Stored(i, s))
        else Exits(s, ArchWriteFault)
    case MulHigh(_) => Exits(s, ArchUnsupported)
    case Fence => Falls(Skipped(s))
    case Ecall => Exits(s, ArchEcall)
    case Ebreak => Exits(s, ArchEbreak)
    case Undefined => Exits(s, ArchUndefined)
    case _ => if i.rd == 0 && i.op.MulDiv? then Exits(s, ArchUnsupported) else Falls(Computed(i, s))
  }

  function EngineEffect(cfg: Config, s: Machine): Effect
    requires |s.mem.perms| >= s.mem.size && |s.mem.bytes| >= s.mem.size
  {
    match Fetch(s.mem, s.Pc())
    case None => Exits(s, ArchFetchFault)
    case Some(i) => EffectOf(cfg, i, s)
  }

  // ----- what an effect keeps -----

  lemma EffectOfKeeps(cfg: Config, i: Instruction, s: Machine)
    requires Sound(s)
    ensures var t := EffectOf(cfg, i, s).machine; Sound(t) && SameCode(s.mem, t.mem)
    ensures !EffectOf(cfg, i, s).Falls? ==> EffectOf(cfg, i, s).machine.mem == s.mem
  {
    hide HasFlag, Flag, WriteXorExecute, SameCode, Padded, HostCompute, LoadLE, StoreLE, LoadExtend, BranchTaken, Wrap,
      ClearLowBit, Permitted;
    SameCodeItself(s.mem);
    if i.op.Store? && AccessChecked(s, LoadAddress(i, s), StoreWidth(i.op.store), WriteAccess) {
      StoreKeepsCode(s.mem, LoadAddress(i, s), StoreWidth(i.op.store), s.regs[i.rs2]);
      StoredIs(i, s);
    }
  }

  lemma StoredIs(i: Instruction, s: Machine)
    requires i.op.Store? && |s.mem.perms| >= s.mem.size && |s.mem.bytes| >= s.mem.size
    requires Permitted(s.mem, LoadAddress(i, s), StoreWidth(i.op.store), WriteAccess)
    ensures WriteMem(s.mem, LoadAddress(i, s), StoreWidth(i.op.store), s.regs[i.rs2]) == Some(Stored(i, s).mem)
  {
    hide StoreLE, HasFlag;
  }

  /** Whatever the guest does, its memory stays in shape and its code as it was; only instructions that
      fall through change memory at all. */
  lemma EffectKeeps(cfg: Config, s: Machine)
    requires Sound(s)
    ensures var t := EngineEffect(cfg, s).machine; Sound(t) && SameCode(s.mem, t.mem)
    ensures !EngineEffect(cfg, s).Falls? ==> EngineEffect(cfg, s).machine.mem == s.mem
  {
    hide EffectOf, WriteXorExecute, SameCode, Padded, Fetch;
    SameCodeItself(s.mem);
    if Fetch(s.mem, s.Pc()).Some? {
      EffectOfKeeps(cfg, Fetch(s.mem, s.Pc()).value, s);
    }
  }

  lemma FallsPast(cfg: Config, i: Instruction, s: Machine)
    requires |s.mem.perms| >= s.mem.size && |s.mem.bytes| >= s.mem.size && EffectOf(cfg, i, s).Falls?
    ensures EffectOf(cfg, i, s).machine.Pc() == Wrap(s.Pc() + 4)
  {
    hide HostCompute, LoadLE, StoreLE, LoadExtend, BranchTaken, Wrap, ClearLowBit, Permitted;
  }

  /** k instructions in a row fall through, from s to t. */
  ghost predicate FallsTo(cfg: Config, s: Machine, k: nat, t: Machine)
    decreases k
  {
    Sound(s)
    && if k == 0 then s == t
       else EngineEffect(cfg, s).Falls? && FallsTo(cfg, EngineEffect(cfg, s).machine, k - 1, t)
  }

  lemma SameCodeTransitive(m: Mem, n: Mem, l: Mem)
    requires SameCode(m, n) && SameCode(n, l)
    ensures SameCode(m, l)
  {
    hide HasFlag;
  }

  lemma ExitsProperly(cfg: Config, s: Machine)
    requires |s.mem.perms| >= s.mem.size && |s.mem.bytes| >= s.mem.size && EngineEffect(cfg, s).Exits?
    ensures var e := EngineEffect(cfg, s);
            e.reason != ArchBlockNotGenerated && e.reason != ArchSingleStep && (HandsOver(e.reason) ==> e.machine == s)
  {
    hide HostCompute, LoadLE, StoreLE, LoadExtend, BranchTaken, Wrap, ClearLowBit, Permitted, Fetch;
  }

  /** The address reported is the target but for its lowest bit. */
  lemma ReportIs(cfg: Config, s: Machine)
    requires |s.mem.perms| >= s.mem.size && |s.mem.bytes| >= s.mem.size && EngineEffect(cfg, s).Branches?
    ensures var e := EngineEffect(cfg, s); InRange(cfg, e.machine.Pc()) && ClearLowBit(e.report) == e.machine.Pc()
  {
    hide HostCompute, LoadLE, StoreLE, LoadExtend, BranchTaken, Wrap, Permitted, Fetch, ClearLowBit;
    var e := EngineEffect(cfg, s);
    if e.machine.Pc() % 4 == 0 {
      AlignedStays(e.machine.Pc());
    }
  }

  lemma AlignedStays(pc: Word)
    requires pc % 4 == 0
    ensures ClearLowBit(pc) == pc
  {
    DivUnique(pc, 2, 2 * (pc / 4), 0);
  }

  // ----- runs under the engine -----

  /** The instructions code does not do itself but leaves to the interpreter. */
  predicate HandsOver(r: ArchExit) { r == ArchUnsupported || r == ArchReadFault || r == ArchWriteFault }

  function ExitReason(r: ArchExit): Reason {
    match r
    case ArchUnalignedPc => UnalignedPc
    case ArchOutOfBoundsPc => OutOfBoundsPc
    case ArchFetchFault => InstructionFetchFault
    case ArchUndefined => UndefinedInstruction
    case ArchEcall => EcallExit
    case _ => EbreakExit
  }

  /** A guest, and the blocks there is code for, or will be when its pc has been looked up. */
  datatype Guest = Guest(machine: Machine, blocks: set<nat>)

  /** About to look the pc up: a block the table has an entry for is translated if it has not been. */
  function Arrived(cfg: Config, s: Machine, blocks: set<nat>): Guest {
    Guest(s, if InRange(cfg, s.Pc()) then blocks + {s.Pc() / 4} else blocks)
  }

  /** One instruction under the engine, the interpreter's help included: the run goes on, or leaves the VM,
      or meets what C++ leaves undefined, or fatal_error. */
  datatype Move = On(guest: Guest) | Off(machine: Machine, exit: Exit) | Lost | Halted

  /** Only a branch whose block has not been translated comes back with the address it reported. */
  function EngineMove(cfg: Config, g: Guest): Move
    requires var m := g.machine.mem; |m.perms| >= m.size && |m.bytes| >= m.size
  {
    var s := g.machine;
    match EngineEffect(cfg, s)
    case Falls(t) => On(Guest(t, g.blocks))
    case Branches(t, report) =>
      On(if t.Pc() / 4 in g.blocks then Guest(t, g.blocks)
         else Arrived(cfg, MachineAt(t.regs, report, t.mem), g.blocks))
    case Exits(t, reason) =>
      if !HandsOver(reason) then Off(t, SimpleExit(ExitReason(reason)))
      else
        match Step(s)
        case Next(u) => On(Arrived(cfg, u, g.blocks))
        case Stop(e) => Off(s, e)
        case UndefinedBehaviour => Lost
        case Fatal => Halted
  }

  lemma MoveKeeps(cfg: Config, g: Guest)
    requires Sound(g.machine) && EngineMove(cfg, g).On?
    ensures var t := EngineMove(cfg, g).guest.machine; Sound(t) && SameCode(g.machine.mem, t.mem)
  {
    hide EngineEffect, Step, WriteXorExecute, SameCode, Padded, InRange;
    EffectKeeps(cfg, g.machine);
    if EngineEffect(cfg, g.machine).Exits? {
      ExitsProperly(cfg, g.machine);
      StepKeeps(g.machine);
    }
  }

  /** k instructions under the engine lead from g to h: its run is one sequence. */
  ghost predicate EngineReaches(cfg: Config, g: Guest, k: nat, h: Guest)
    decreases k
  {
    Sound(g.machine)
    && if k == 0 then g == h
       else EngineMove(cfg, g).On? && EngineReaches(cfg, EngineMove(cfg, g).guest, k - 1, h)
  }

  lemma EngineStays(cfg: Config, g: Guest)
    requires Sound(g.machine)
    ensures EngineReaches(cfg, g, 0, g)
  {
    hide WriteXorExecute, Padded;
  }

  lemma {:induction false} EngineTogether(cfg: Config, g: Guest, k: nat, h: Guest, j: nat, l: Guest)
    requires EngineReaches(cfg, g, k, h) && EngineReaches(cfg, h, j, l)
    ensures EngineReaches(cfg, g, k + j, l)
    decreases k
  {
    hide EngineMove, WriteXorExecute, Padded;
    if k > 0 {
      EngineTogether(cfg, EngineMove(cfg, g).guest, k - 1, h, j, l);
    }
  }

  /** A longer run has a shorter one at its start. */
  lemma {:induction false} EngineSplits(cfg: Config, g: Guest, k: nat, h: Guest, j: nat) returns (l: Guest)
    requires EngineReaches(cfg, g, k, h) && j <= k
    ensures EngineReaches(cfg, g, j, l) && EngineReaches(cfg, l, k - j, h)
    decreases j
  {
    hide EngineMove, WriteXorExecute, Padded;
    l := g;
    if j > 0 {
      l := EngineSplits(cfg, EngineMove(cfg, g).guest, k - 1, h, j - 1);
    }
  }

  lemma EngineOnce(cfg: Config, g: Guest)
    requires Sound(g.machine) && EngineMove(cfg, g).On?
    ensures EngineReaches(cfg, g, 1, EngineMove(cfg, g).guest)
  {
    hide EngineMove, WriteXorExecute, Padded, SameCode;
    MoveKeeps(cfg, g);
    EngineStays(cfg, EngineMove(cfg, g).guest);
  }

  lemma {:induction false} FallsReach(cfg: Config, s: Machine, k: nat, t: Machine, blocks: set<nat>)
    requires FallsTo(cfg, s, k, t)
    ensures EngineReaches(cfg, Guest(s, blocks), k, Guest(t, blocks))
    decreases k
  {
    hide EngineEffect, WriteXorExecute, Padded;
    if k > 0 {
      FallsReach(cfg, EngineEffect(cfg, s).machine, k - 1, t, blocks);
    }
  }

  /** A guest's code and the shape of its memory last as long as it runs. */
  lemma {:induction false} EngineKeeps(cfg: Config, g: Guest, k: nat, h: Guest)
    requires EngineReaches(cfg, g, k, h)
    ensures Sound(h.machine) && SameCode(g.machine.mem, h.machine.mem)
    decreases k
  {
    hide EngineMove, WriteXorExecute, SameCode, Padded;
    SameCodeItself(g.machine.mem);
    if k > 0 {
      var l := EngineMove(cfg, g).guest;
      MoveKeeps(cfg, g);
      EngineKeeps(cfg, l, k - 1, h);
      SameCodeTransitive(g.machine.mem, l.machine.mem, h.machine.mem);
    }
  }

  // ----- the base pc does not matter -----

  lemma EffectAnywhere(cfg: Config, pc: Word, s: Machine)
    requires |s.mem.perms| >= s.mem.size && |s.mem.bytes| >= s.mem.size
    ensures EngineEffect(cfg.(basePc := pc), s) == EngineEffect(cfg, s)
  {
    hide HostCompute, LoadLE, StoreLE, LoadExtend, BranchTaken, Wrap, ClearLowBit, Permitted, Fetch;
  }

  lemma {:induction false} FallsAnywhere(cfg: Config, pc: Word, s: Machine, k: nat, t: Machine)
    requires FallsTo(cfg.(basePc := pc), s, k, t)
    ensures FallsTo(cfg, s, k, t)
    decreases k
  {
    hide EngineEffect, WriteXorExecute, Padded;
    if k > 0 {
      EffectAnywhere(cfg, pc, s);
      FallsAnywhere(cfg, pc, EngineEffect(cfg, s).machine, k - 1, t);
    }
  }

  // ----- how code has left -----

  /** A run of code has come to an effect other than falling through, all of the guest in the table. */
  ghost predicate ComesTo(env: Env, cfg: Config, o: Outcome, e: Effect)
    requires EnvOk(env, cfg)
  {
    match e
    case Falls(_) => false
    case Branches(t, report) => InRange(cfg, t.Pc()) && BranchMeaning.Departs(env, cfg, o, t.regs, t.mem, t.Pc(),
      report)
    case Exits(t, reason) => Leaves(env, o, t.regs, t.mem, t.Pc(), reason)
  }

  lemma ComesAnywhere(env: Env, cfg: Config, pc: Word, o: Outcome, e: Effect)
    requires EnvOk(env, cfg)
    ensures ComesTo(env, cfg.(basePc := pc), o, e) <==> ComesTo(env, cfg, o, e)
  {
    hide Leaves, CacheMeaning.InTable;
  }
}
