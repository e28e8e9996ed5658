/** The Cpu object and the interpreter as it runs: registers and memory updated in place. */
module InterpreterObject {
  import opened Words
  import opened Instructions
  import opened Memories
  import opened Interpreter
  import Engine
  import Agreement

  class Cpu {
    const table: array<Word>

    ghost predicate Valid()
      reads table
    {
      table.Length == 33
    }

    ghost function View(): Registers
      reads table
      requires Valid()
    {
      table[..]
    }

    constructor ()
      ensures Valid() && fresh(table) && View() == seq(33, _ => 0)
    {
      table := new Word[33](_ => 0);
    }

    method Get(reg: nat) returns (value: Word)
      requires Valid() && reg <= PC
      ensures value == View()[reg]
    {
      value := table[reg];
    }

    /** Register::Zero is hard-wired. */
    method Set(reg: nat, value: Word)
      requires Valid() && reg <= PC
      modifies table
      ensures Valid() && View() == if reg == 0 then old(View()) else old(View())[reg := value]
    {
      if reg != 0 {
        table[reg] := value;
      }
    }
  }

  /** What a step of the interpreter comes to for its caller. */
  datatype Stepped = WentOn | Left(exit: Exit) | Unpredicted | FatalStop

  ghost predicate Does(r: StepResult, s: Machine, done: Stepped, t: Machine) {
    match r
    case Next(u) => done == WentOn && t == u
    case Stop(e) => done == Left(e) && t == s
    case UndefinedBehaviour => done == Unpredicted && t == s
    case Fatal => done == FatalStop && t == s
  }

  ghost function MachineOf(cpu: Cpu, memory: Memory): Machine
    requires cpu.Valid()
    reads cpu.table, memory.contents, memory.permissions
  {
    Machine(cpu.View(), memory.View())
  }

  ghost predicate Usable(cpu: Cpu, memory: Memory)
    reads cpu.table, memory.contents, memory.permissions
  {
    cpu.Valid() && memory.Valid() && Distinct(cpu.table, memory.contents) && Distinct(cpu.table, memory.permissions)
  }

  predicate Distinct(a: object, b: object) { a != b }

  /** The instructions that only compute, and the destination they write. */
  method StepCompute(i: Instruction, cpu: Cpu) returns (ok: bool)
    requires cpu.Valid() && IsCompute(i.op)
    modifies cpu.table
    ensures cpu.Valid()
    ensures var s := old(cpu.View());
            match ComputeValue(i, s[PC], s[i.rs1], s[i.rs2])
            case Some(v) => ok && cpu.View() == SetReg(s, i.rd, v)
            case None => !ok && cpu.View() == s
  {
    hide ComputeValue;
    var pc := cpu.Get(PC);
    var a := cpu.Get(i.rs1);
    var b := cpu.Get(i.rs2);
    var result := ComputeValue(i, pc, a, b);
    if result == None {
      return false;
    }
    cpu.Set(i.rd, result.value);
    return true;
  }

  method StepLoad(i: Instruction, cpu: Cpu, memory: Memory) returns (fault: Option<Exit>)
    requires Usable(cpu, memory) && i.op.Load?
    modifies cpu.table
    ensures Usable(cpu, memory)
    ensures var s := old(cpu.View());
            var address := Wrap(s[i.rs1] + i.imm);
            match ReadMem(memory.View(), address, LoadWidth(i.op.load), ReadAccess)
            case Some(v) => fault == None && cpu.View() == SetReg(s, i.rd, LoadExtend(i.op.load, v))
            case None => fault == Some(Exit(MemoryReadFault, address, i.rd)) && cpu.View() == s
  {
    hide ReadMem, LoadExtend, LoadWidth;
    var base := cpu.Get(i.rs1);
    var address := Wrap(base + i.imm);
    var v := memory.Read(address, LoadWidth(i.op.load), ReadAccess);
    if v == None {
      return Some(Exit(MemoryReadFault, address, i.rd));
    }
    cpu.Set(i.rd, LoadExtend(i.op.load, v.value));
    return None;
  }

  method StepStore(i: Instruction, cpu: Cpu, memory: Memory) returns (fault: Option<Exit>)
    requires Usable(cpu, memory) && i.op.Store?
    modifies memory.contents
    ensures Usable(cpu, memory) && cpu.View() == old(cpu.View())
    ensures var s := cpu.View();
            var address := Wrap(s[i.rs1] + i.imm);
            match WriteMem(old(memory.View()), address, StoreWidth(i.op.store), s[i.rs2])
            case Some(m) => fault == None && memory.View() == m
            case None => fault == Some(Exit(MemoryWriteFault, address, i.rs2)) && memory.View() == old(memory.View())
  {
    hide WriteMem, StoreWidth;
    var base := cpu.Get(i.rs1);
    var value := cpu.Get(i.rs2);
    var address := Wrap(base + i.imm);
    var ok := memory.Write(address, StoreWidth(i.op.store), value);
    if !ok {
      return Some(Exit(MemoryWriteFault, address, i.rs2));
    }
    return None;
  }

  method StepJump(i: Instruction, cpu: Cpu) returns (target: Word)
    requires cpu.Valid() && (i.op.Jal? || i.op.Jalr?)
    modifies cpu.table
    ensures cpu.Valid()
    ensures var s := old(cpu.View());
            var pc: int := s[PC];
            cpu.View() == SetReg(s, i.rd, Wrap(pc + 4))
            && target == if i.op.Jal? then Wrap(pc + i.imm) else ClearLowBit(Wrap(s[i.rs1] + i.imm))
  {
    hide ClearLowBit;
    var pc := cpu.Get(PC);
    var base := cpu.Get(i.rs1);
    target := if i.op.Jal? then Wrap(pc + i.imm) else ClearLowBit(Wrap(base + i.imm));
    cpu.Set(i.rd, Wrap(pc + 4));
  }

  /** Interpreter::step */
  method StepOnce(cpu: Cpu, memory: Memory) returns (done: Stepped)
    requires Usable(cpu, memory)
    modifies cpu.table, memory.contents
    ensures Usable(cpu, memory)
    ensures Does(Step(old(MachineOf(cpu, memory))), old(MachineOf(cpu, memory)), done, MachineOf(cpu, memory))
  {
    hide ReadMem, WriteMem, Decoded, ComputeValue, ClearLowBit, BranchTaken, Padded, ValidMem, Execute;
    ghost var s := MachineOf(cpu, memory);
    SizesOf(s.mem);
    var pc := cpu.Get(PC);
    if pc % 4 != 0 {
      return Left(SimpleExit(UnalignedPc));
    }
    var encoded := memory.Read(pc, 4, ExecuteAccess);
    if encoded == None {
      return Left(SimpleExit(InstructionFetchFault));
    }
    var i := Decoded(Low32(encoded.value));
    done := StepInstruction(i, pc, cpu, memory);
  }

  lemma SizesOf(m: Mem)
    requires ValidMem(m)
    ensures |m.perms| >= m.size && |m.bytes| >= m.size
  {
  }

  /** The switch of Interpreter::step. */
  method StepInstruction(i: Instruction, pc: Word, cpu: Cpu, memory: Memory) returns (done: Stepped)
    requires Usable(cpu, memory) && pc == cpu.View()[PC]
    requires |memory.View().perms| >= memory.size && |memory.View().bytes| >= memory.size
    modifies cpu.table, memory.contents
    ensures Usable(cpu, memory)
    ensures Does(Execute(i, old(MachineOf(cpu, memory))), old(MachineOf(cpu, memory)), done, MachineOf(cpu, memory))
  {
    hide ReadMem, WriteMem, ComputeValue, ClearLowBit, BranchTaken, Padded, ValidMem, LoadExtend;
    var nextPc := Wrap(pc + 4);
    match i.op {
      case Jal =>
        nextPc := StepJump(i, cpu);
      case Jalr =>
        nextPc := StepJump(i, cpu);
      case Branch(op) =>
        var a := cpu.Get(i.rs1);
        var b := cpu.Get(i.rs2);
        if BranchTaken(op, a, b) {
          nextPc := Wrap(pc + i.imm);
        }
      case Load(_) =>
        var fault := StepLoad(i, cpu, memory);
        if fault.Some? {
          return Left(fault.value);
        }
      case Store(_) =>
        var fault := StepStore(i, cpu, memory);
        if fault.Some? {
          return Left(fault.value);
        }
      case MulHigh(_) =>
        return FatalStop;
      case Fence =>
      case Ecall =>
        return Left(SimpleExit(EcallExit));
      case Ebreak =>
        return Left(SimpleExit(EbreakExit));
      case Undefined =>
        return Left(SimpleExit(UndefinedInstruction));
      case _ =>
        var ok := StepCompute(i, cpu);
        if !ok {
          return Unpredicted;
        }
    }
    cpu.Set(PC, nextPc);
    return WentOn;
  }

  /** Vm::run_interpreter, followed for at most `limit` steps: the source's loop need not end. */
  method RunInterpreter(cpu: Cpu, memory: Memory, limit: nat) returns (done: Stepped, ghost steps: nat)
    requires Usable(cpu, memory) && Engine.Sound(MachineOf(cpu, memory))
    modifies cpu.table, memory.contents
    ensures Usable(cpu, memory) && Agreement.Reaches(old(MachineOf(cpu, memory)), steps, MachineOf(cpu, memory))
    ensures match done
            case WentOn => steps == limit
            case Left(e) => steps <= limit && Step(MachineOf(cpu, memory)) == Stop(e)
            case Unpredicted => Step(MachineOf(cpu, memory)) == UndefinedBehaviour
            case FatalStop => Step(MachineOf(cpu, memory)) == Fatal
  {
    hide Step, WriteXorExecute, Padded;
    steps := 0;
    for i := 0 to limit
      invariant Usable(cpu, memory) && steps == i
      invariant Agreement.Reaches(old(MachineOf(cpu, memory)), steps, MachineOf(cpu, memory))
                && Engine.Sound(MachineOf(cpu, memory))
    {
      ghost var s := MachineOf(cpu, memory);
      done := StepOnce(cpu, memory);
      if done != WentOn {
        return;
      }
      StepKeeps(s);
      Agreement.ReachesOneMore(old(MachineOf(cpu, memory)), steps, s);
      steps := steps + 1;
    }
    return WentOn, steps;
  }
}
