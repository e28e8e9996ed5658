/** Where an instruction under the engine is the interpreter's: the exact condition for each, and runs in
    which it always holds. */
module Agreement {
  import opened Words
  import opened Instructions
  import opened Memories
  import opened Interpreter
  import opened Translator
  import opened ComputeMeaning
  import opened OperandAgreement
  import opened Simulation
  import opened Engine
  import BlockSimulation

  // ----- runs of the interpreter -----

  /** k steps of the interpreter lead from s to t. */
  ghost predicate Reaches(s: Machine, k: nat, t: Machine)
    decreases k
  {
    Sound(s) && if k == 0 then s == t else Step(s).Next? && Reaches(Step(s).machine, k - 1, t)
  }

  lemma ReachesNothing(s: Machine, t: Machine)
    ensures Reaches(s, 0, t) <==> Sound(s) && s == t
  {
    hide Step, Sound;
  }

  /** The interpreter's run is one sequence of states: a state it cannot step from is its last. */
  lemma {:induction false} LastState(s: Machine, k: nat, t: Machine, j: nat, u: Machine)
    requires Reaches(s, k, t) && Reaches(s, j, u) && Sound(u) && !Step(u).Next?
    ensures k <= j && (k == j ==> t == u)
    decreases k
  {
    hide Step, WriteXorExecute, Padded;
    if k > 0 {
      if j == 0 {
        assert false;
      } else {
        LastState(Step(s).machine, k - 1, t, j - 1, u);
      }
    }
  }

  lemma {:induction false} ReachesOneMore(s: Machine, k: nat, t: Machine)
    requires Reaches(s, k, t) && Sound(t) && Step(t).Next?
    ensures Reaches(s, k + 1, Step(t).machine)
    decreases k
  {
    hide Step, WriteXorExecute, Padded;
    if k == 0 {
      StepKeeps(t);
      assert Reaches(Step(t).machine, 0, Step(t).machine);
    } else {
      ReachesOneMore(Step(s).machine, k - 1, t);
    }
  }

  // ----- one instruction -----

  /** After an instruction under the engine the run is where the interpreter's is, or has stopped with it;
      an instruction left to the interpreter must in addition lead to a pc the block table has. */
  predicate Follows(cfg: Config, g: Guest)
    requires var m := g.machine.mem; |m.perms| >= m.size && |m.bytes| >= m.size
  {
    var s := g.machine;
    match EngineEffect(cfg, s)
    case Exits(t, reason) =>
      if HandsOver(reason) then Step(s).Next? ==> InRange(cfg, Step(s).machine.Pc())
      else t == s && Step(s) == Stop(SimpleExit(ExitReason(reason)))
    case _ => EngineMove(cfg, g).On? && Step(s) == Next(EngineMove(cfg, g).guest.machine)
  }

  /** The same, as a test of the instruction's operands: what is left out are branch targets that are
      misaligned or past the block table, odd jalr targets, loads to x0 that fault, operands on which the
      engines compute different values, and instructions left to the interpreter after which the pc is
      past the table. */
  predicate Faithful(cfg: Config, i: Instruction, s: Machine)
    requires |s.mem.perms| >= s.mem.size
  {
    var pc, a, b := s.Pc(), s.regs[i.rs1], s.regs[i.rs2];
    var address := Wrap(a + i.imm);
    match i.op
    case Jal => InRange(cfg, Wrap(pc + i.imm))
    case Jalr => InRange(cfg, address)
    case Branch(op) => BranchTaken(op, a, b) ==> InRange(cfg, Wrap(pc + i.imm))
    case Load(op) =>
      if i.rd == 0 then Permitted(s.mem, address, LoadWidth(op), ReadAccess)
      else address % LoadWidth(op) != 0 && Permitted(s.mem, address, LoadWidth(op), ReadAccess) ==>
        InRange(cfg, Wrap(pc + 4))
    case Store(op) =>
      address % StoreWidth(op) != 0 && Permitted(s.mem, address, StoreWidth(op), WriteAccess) ==>
        InRange(cfg, Wrap(pc + 4))
    case _ =>
      IsCompute(i.op) ==>
        if i.rd != 0 then OperandsAgree(i, a, b)
        else i.op.MulDiv? && DefinedInCpp(i.op.mulDiv, a, b) ==> InRange(cfg, Wrap(pc + 4))
  }

  /** The one case in which the block table decides: a jalr to an odd address. */
  predicate OddJump(cfg: Config, i: Instruction, g: Guest) {
    var v := Wrap(g.machine.regs[i.rs1] + i.imm);
    i.op.Jalr? && v % 2 != 0 && InRange(cfg, ClearLowBit(v)) && ClearLowBit(v) / 4 in g.blocks
  }

  lemma StepIsExecute(s: Machine, i: Instruction)
    requires |s.mem.perms| >= s.mem.size && |s.mem.bytes| >= s.mem.size
    requires s.Pc() % 4 == 0 && Fetch(s.mem, s.Pc()) == Some(i)
    ensures Step(s) == Execute(i, s)
  {
    hide Execute, Fetch;
  }

  lemma JumpExecutes(i: Instruction, s: Machine)
    requires (i.op.Jal? || i.op.Jalr?) && |s.mem.perms| >= s.mem.size && |s.mem.bytes| >= s.mem.size
    ensures var to := if i.op.Jal? then Wrap(s.Pc() + i.imm) else ClearLowBit(Wrap(s.regs[i.rs1] + i.imm));
            Execute(i, s) == Next(MachineAt(Linked(i, s), to, s.mem))
  {
    hide Wrap, ClearLowBit;
  }

  lemma SetPcTwice(x: Registers, pc: Word, to: Word, m: Mem)
    ensures MachineAt(SetPc(x, pc), to, m) == MachineAt(x, to, m)
  {
  }

  /** i is the instruction g is about to execute. */
  ghost predicate OnTurn(i: Instruction, g: Guest) {
    && ValidMem(g.machine.mem) && g.machine.Pc() % 4 == 0 && Fetch(g.machine.mem, g.machine.Pc()) == Some(i)
  }

  lemma JalFollows(cfg: Config, i: Instruction, g: Guest)
    requires i.op.Jal? && OnTurn(i, g)
    ensures Follows(cfg, g) <==> Faithful(cfg, i, g.machine)
  {
    hide Fetch, Wrap, Execute;
    var s := g.machine;
    StepIsExecute(s, i);
    JumpExecutes(i, s);
    var to := Wrap(s.Pc() + i.imm);
    SetPcTwice(Linked(i, s), to, to, s.mem);
  }

  lemma JalrFollows(cfg: Config, i: Instruction, g: Guest)
    requires i.op.Jalr? && OnTurn(i, g)
    ensures Follows(cfg, g) <==> Faithful(cfg, i, g.machine) || OddJump(cfg, i, g)
  {
    hide Fetch, Wrap, Execute, ClearLowBit;
    var s := g.machine;
    StepIsExecute(s, i);
    JumpExecutes(i, s);
    var v := Wrap(s.regs[i.rs1] + i.imm);
    var to := ClearLowBit(v);
    SetPcTwice(Linked(i, s), to, v, s.mem);
    assert MachineAt(Linked(i, s), v, s.mem).Pc() == v && MachineAt(Linked(i, s), to, s.mem).Pc() == to;
    EvenTarget(cfg, v);
  }

  lemma EvenTarget(cfg: Config, v: Word)
    ensures v % 2 == 0 <==> ClearLowBit(v) == v
    ensures InRange(cfg, v) <==> InRange(cfg, ClearLowBit(v)) && v % 2 == 0
  {
    hide ClearLowBit;
    EvenIsClear(v);
    if v % 4 == 0 {
      AlignedStays(v);
    }
  }

  lemma EvenIsClear(v: Word)
    ensures v % 2 == 0 <==> ClearLowBit(v) == v
  {
  }

  lemma BranchesFollow(cfg: Config, i: Instruction, g: Guest)
    requires i.op.Branch? && OnTurn(i, g)
    ensures Follows(cfg, g) <==> Faithful(cfg, i, g.machine)
  {
    hide Fetch, Wrap, BranchTaken;
    var s := g.machine;
    StepIsExecute(s, i);
  }

  lemma AccessesFollow(cfg: Config, i: Instruction, g: Guest)
    requires (i.op.Load? || i.op.Store?) && OnTurn(i, g)
    ensures Follows(cfg, g) <==> Faithful(cfg, i, g.machine)
  {
    hide Fetch, Wrap, LoadLE, StoreLE, LoadExtend, HasFlag;
    var s := g.machine;
    StepIsExecute(s, i);
  }

  lemma ValuesFollow(cfg: Config, i: Instruction, g: Guest)
    requires IsCompute(i.op) && OnTurn(i, g)
    ensures Follows(cfg, g) <==> Faithful(cfg, i, g.machine)
  {
    hide Fetch, Wrap, ComputeValue, HostCompute, OperandsAgree, DefinedInCpp, WellFormed;
    var s := g.machine;
    StepIsExecute(s, i);
    BlockSimulation.FetchedWellFormed(s.mem, s.Pc());
    OperandsAgreeIsExact(i, s.Pc(), s.regs[i.rs1], s.regs[i.rs2]);
    CppValue(i, s.Pc(), s.regs[i.rs1], s.regs[i.rs2]);
    var v := ComputeValue(i, s.Pc(), s.regs[i.rs1], s.regs[i.rs2]);
    if i.rd != 0 && v.Some? {
      assert MachineAt(SetReg(s.regs, i.rd, v.value), Wrap(s.Pc() + 4), s.mem).regs[i.rd] == v.value;
      assert Computed(i, s).regs[i.rd] == HostCompute(i, s.Pc(), s.regs[i.rs1], s.regs[i.rs2]);
    }
  }

  lemma CppValue(i: Instruction, pc: Word, a: Word, b: Word)
    requires IsCompute(i.op)
    ensures ComputeValue(i, pc, a, b).Some? <==> (i.op.MulDiv? ==> DefinedInCpp(i.op.mulDiv, a, b))
  {
    hide MulDivValue, DefinedInCpp, ImmValue, ShiftValue, RegValue;
    if i.op.MulDiv? {
      DefinedIs(i.op.mulDiv, a, b);
    }
  }

  lemma OthersFollow(cfg: Config, i: Instruction, g: Guest)
    requires i.op.MulHigh? || i.op.Fence? || i.op.Ecall? || i.op.Ebreak? || i.op.Undefined?
    requires OnTurn(i, g)
    ensures Follows(cfg, g) && Faithful(cfg, i, g.machine)
  {
    hide Fetch, Wrap;
    var s := g.machine;
    StepIsExecute(s, i);
  }

  /** Exactly when an instruction under the engine is the interpreter's. */
  lemma FaithfulIsExact(cfg: Config, i: Instruction, g: Guest)
    requires OnTurn(i, g)
    ensures Follows(cfg, g) <==> Faithful(cfg, i, g.machine) || OddJump(cfg, i, g)
  {
    hide Follows, Faithful, Fetch, OddJump;
    assert i.op.Jalr? || !OddJump(cfg, i, g) by { OnlyJalr(cfg, i, g); }
    match i.op
    case Jal => JalFollows(cfg, i, g);
    case Jalr => JalrFollows(cfg, i, g);
    case Branch(_) => BranchesFollow(cfg, i, g);
    case Load(_) => AccessesFollow(cfg, i, g);
    case Store(_) => AccessesFollow(cfg, i, g);
    case _ =>
      if IsCompute(i.op) {
        ValuesFollow(cfg, i, g);
      } else {
        OthersFollow(cfg, i, g);
      }
  }

  lemma OnlyJalr(cfg: Config, i: Instruction, g: Guest)
    ensures OddJump(cfg, i, g) ==> i.op.Jalr?
  {
    hide Wrap, ClearLowBit;
  }

  // ----- runs -----

  /** None of the first k states of the interpreter's run is one in which the engines differ. */
  ghost predicate FaithfulFor(cfg: Config, s: Machine, k: nat) {
    forall j: nat, t: Machine :: j < k && Reaches(s, j, t) && Sound(t) && Fetch(t.mem, t.Pc()).Some?
                                 ==> Faithful(cfg, Fetch(t.mem, t.Pc()).value, t)
  }

  lemma FaithfulNow(cfg: Config, s: Machine, k: nat)
    requires Sound(s) && 0 < k && FaithfulFor(cfg, s, k) && Fetch(s.mem, s.Pc()).Some?
    ensures Faithful(cfg, Fetch(s.mem, s.Pc()).value, s)
  {
    hide Faithful, Fetch, WriteXorExecute;
    assert Reaches(s, 0, s);
  }

  lemma FaithfulLater(cfg: Config, s: Machine, k: nat)
    requires Sound(s) && 0 < k && FaithfulFor(cfg, s, k) && Step(s).Next?
    ensures Sound(Step(s).machine) && FaithfulFor(cfg, Step(s).machine, k - 1)
  {
    hide Faithful, Fetch, Step, WriteXorExecute, Padded;
    StepKeeps(s);
    var t := Step(s).machine;
    forall j: nat, u: Machine | j < k - 1 && Reaches(t, j, u) && Sound(u) && Fetch(u.mem, u.Pc()).Some?
      ensures Faithful(cfg, Fetch(u.mem, u.Pc()).value, u)
    {
      var i := j + 1;
      assert Reaches(s, i, u);
    }
  }

  lemma FaithfulFewer(cfg: Config, s: Machine, k: nat, j: nat)
    requires FaithfulFor(cfg, s, k) && j <= k
    ensures FaithfulFor(cfg, s, j)
  {
    hide Faithful, Fetch, Reaches, Sound;
  }

  lemma WrapAligned(pc: Word)
    requires pc % 4 == 0
    ensures Wrap(pc + 4) % 4 == 0
  {
  }

  /** Where the engine's move is the interpreter's step. */
  ghost predicate Agrees(cfg: Config, g: Guest)
    requires Sound(g.machine)
  {
    var s := g.machine;
    match EngineMove(cfg, g)
    case On(h) =>
      && Step(s) == Next(h.machine) && h.machine.Pc() % 4 == 0
      && (!EngineEffect(cfg, s).Falls? ==> InRange(cfg, h.machine.Pc()))
    case Off(t, e) => t == s && Step(s) == Stop(e)
    case Lost => Step(s) == UndefinedBehaviour
    case Halted => Step(s) == Fatal
  }

  /** One instruction of a faithful run. */
  lemma FaithfulMove(cfg: Config, g: Guest, k: nat)
    requires Sound(g.machine) && 0 < k && FaithfulFor(cfg, g.machine, k) && g.machine.Pc() % 4 == 0
    ensures Agrees(cfg, g)
  {
    hide FaithfulFor, EffectOf, Execute, Fetch, WriteXorExecute, Padded, Faithful, OddJump;
    var s := g.machine;
    if Fetch(s.mem, s.Pc()).Some? {
      var i := Fetch(s.mem, s.Pc()).value;
      FaithfulNow(cfg, s, k);
      FaithfulIsExact(cfg, i, g);
      match EngineEffect(cfg, s) {
        case Falls(_) =>
          FallsPast(cfg, i, s);
          WrapAligned(s.Pc());
        case Branches(_, _) => BranchAgrees(cfg, i, g);
        case Exits(_, _) => ExitsProperly(cfg, s);
      }
    }
  }

  /** The address a faithful branch reports is its target. */
  lemma BranchAgrees(cfg: Config, i: Instruction, g: Guest)
    requires OnTurn(i, g) && Faithful(cfg, i, g.machine) && EngineEffect(cfg, g.machine).Branches?
    ensures EngineMove(cfg, g).On? && InRange(cfg, EngineMove(cfg, g).guest.machine.Pc())
  {
    hide Fetch, Permitted, ClearLowBit, OperandsAgree, DefinedInCpp, HostCompute, BranchTaken, LoadLE, StoreLE,
      LoadExtend, Wrap;
    if i.op.Jalr? {
      AlignedStays(Wrap(g.machine.regs[i.rs1] + i.imm));
    }
  }

  /** A run under the engine is the interpreter's own as long as it is faithful. */
  lemma {:induction false} EngineIsInterpreter(cfg: Config, g: Guest, k: nat, h: Guest)
    requires EngineReaches(cfg, g, k, h) && FaithfulFor(cfg, g.machine, k) && g.machine.Pc() % 4 == 0
    ensures Reaches(g.machine, k, h.machine) && Sound(h.machine) && h.machine.Pc() % 4 == 0
    decreases k
  {
    hide FaithfulFor, EngineMove, EngineEffect, Step, WriteXorExecute, Padded, InRange;
    if k > 0 {
      FaithfulMove(cfg, g, k);
      FaithfulLater(cfg, g.machine, k);
      EngineIsInterpreter(cfg, EngineMove(cfg, g).guest, k - 1, h);
    }
  }

  /** And the next move agrees if the next state is faithful too. */
  lemma {:induction false} NextAgrees(cfg: Config, g: Guest, k: nat, h: Guest)
    requires EngineReaches(cfg, g, k, h) && FaithfulFor(cfg, g.machine, k + 1) && g.machine.Pc() % 4 == 0
    ensures Sound(h.machine) && Agrees(cfg, h)
    decreases k
  {
    hide FaithfulFor, EngineMove, EngineEffect, Step, WriteXorExecute, Padded, InRange;
    FaithfulMove(cfg, g, k + 1);
    if k > 0 {
      FaithfulLater(cfg, g.machine, k + 1);
      NextAgrees(cfg, EngineMove(cfg, g).guest, k - 1, h);
    }
  }
}
