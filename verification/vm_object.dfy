/** Executor::run and Vm::run as they go: registers, memory and the code buffer updated in place, trip
    after trip. */
module VmObject {
  import opened Words
  import opened Memories
  import opened Interpreter
  import opened HostMachine
  import opened Translator
  import Simulation
  import Engine
  import opened Agreement
  import CodeLayout
  import opened CodeBuffers
  import opened VirtualMachine
  import WholeRuns
  import opened CodeGeneration
  import opened InterpreterObject

  class GuestVm {
    const memory: Memory
    const codeBuffer: CodeBuffer
    const params: Params

    ghost predicate Valid(cpu: Cpu)
      reads cpu.table, memory.contents, memory.permissions, codeBuffer, codeBuffer.cells, codeBuffer.blockToOffset
    {
      && Usable(cpu, memory) && codeBuffer.Valid()
      && Apart(codeBuffer.blockToOffset, memory.contents, memory.permissions)
      && Apart(codeBuffer.cells, memory.contents, memory.permissions)
      && Apart(cpu.table, codeBuffer.blockToOffset, codeBuffer.cells)
    }

    ghost function View(cpu: Cpu, phase: Phase): Vm
      requires Valid(cpu)
      reads cpu.table, memory.contents, memory.permissions, codeBuffer, codeBuffer.cells, codeBuffer.blockToOffset
    {
      Vm(MachineOf(cpu, memory), codeBuffer.View(), phase)
    }

    constructor (memory: Memory, codeBuffer: CodeBuffer, params: Params)
      ensures this.memory == memory && this.codeBuffer == codeBuffer && this.params == params
    {
      this.memory, this.codeBuffer, this.params := memory, codeBuffer, params;
    }

    /** The host state native code is entered in. */
    method EntryHost(cpu: Cpu) returns (h: Host)
      requires Valid(cpu)
      ensures h == Entry(params, MachineOf(cpu, memory))
    {
      h := Entry(params, Machine(cpu.table[..], Mem(memory.size, memory.contents[..], memory.permissions[..])));
    }

    /** Executor::generate_code: translates the block at a pc and puts it into the code buffer. */
    method GenerateCode(pc: Word, cpu: Cpu) returns (r: Option<Word>)
      requires Valid(cpu)
      modifies codeBuffer`nextFreeOffset, codeBuffer.cells, codeBuffer.blockToOffset
      ensures Valid(cpu) && MachineOf(cpu, memory) == old(MachineOf(cpu, memory))
      ensures match InsertCode(old(codeBuffer.View()), pc, Translate(ConfigAt(params, pc), memory.View()))
              case At(offset, after) => r == Some(offset) && codeBuffer.View() == after
              case _ => r == None && codeBuffer.View() == old(codeBuffer.View())
    {
      hide Translate, Allocate, Padded, RegisterCaches.Valid;
      var generator := new CodeGenerator(memory, ConfigAt(params, pc));
      generator.GenerateCode();
      r := codeBuffer.Insert(pc, generator.assembler.code);
    }

    /** The top of Executor::run's loop: looks the pc up, translates it if need be, and enters. */
    method DispatchTrip(cpu: Cpu) returns (phase: Phase)
      requires Valid(cpu) && Runnable(View(cpu, Dispatching))
      modifies codeBuffer`nextFreeOffset, codeBuffer.cells, codeBuffer.blockToOffset
      ensures Valid(cpu) && View(cpu, phase) == Dispatch(params, old(View(cpu, Dispatching)))
    {
      hide Translate, Allocate, Padded, Entry;
      var pc := cpu.Get(PC);
      var found := codeBuffer.Get(pc);
      match found
      case PastTable => return Dead(TableOverrun);
      case Found(offset) =>
        var h := EntryHost(cpu);
        return InCode(offset, h);
      case Absent =>
        ghost var before := codeBuffer.View();
        var code := GenerateCode(pc, cpu);
        if code == None {
          AbsentInserts(before, pc, Translate(ConfigAt(params, pc), memory.View()));
          return Dead(if pc % 4 != 0 then BadInsert else BufferFull);
        }
        var h := EntryHost(cpu);
        return InCode(code.value, h);
    }

    /** What the trampoline brought back, in the cpu and in guest memory. */
    method ComeBack(cpu: Cpu, h: Host)
      requires Valid(cpu) && ValidMem(h.mem) && SameCode(memory.View(), h.mem)
      modifies cpu.table, memory.contents
      ensures Valid(cpu) && MachineOf(cpu, memory) == Back(h) && codeBuffer.View() == old(codeBuffer.View())
    {
      hide Padded, HasFlag;
      for i := 0 to 33
        invariant Valid(cpu) && codeBuffer.View() == old(codeBuffer.View()) && memory.View() == old(memory.View())
        invariant forall k :: 0 <= k < i ==> cpu.table[k] == Back(h).regs[k]
      {
        cpu.table[i] := if i == PC then h.r[EXIT_PC] else h.table[i];
      }
      assert cpu.View() == Back(h).regs;
      for i := 0 to memory.contents.Length
        invariant Valid(cpu) && codeBuffer.View() == old(codeBuffer.View())
                  && memory.permissions[..] == old(memory.permissions[..])
        invariant cpu.View() == Back(h).regs
        invariant forall k :: 0 <= k < i ==> memory.contents[k] == h.mem.bytes[k]
      {
        memory.contents[i] := h.mem.bytes[i];
      }
      assert memory.contents[..] == h.mem.bytes;
    }

    /** The interpreter's turn, for one instruction. */
    method InterpretTrip(cpu: Cpu) returns (phase: Phase)
      requires Valid(cpu)
      modifies cpu.table, memory.contents
      ensures Valid(cpu)
      ensures View(cpu, phase) == InterpretOne(old(View(cpu, Dispatching)), old(MachineOf(cpu, memory)))
    {
      hide Step, Padded;
      var done := StepOnce(cpu, memory);
      match done
      case WentOn => return Dispatching;
      case Left(e) => return Done(e);
      case Unpredicted => return Dead(Unpredictable);
      case FatalStop => return Dead(FatalError);
    }

    /** The switches on the exit reason in Executor::run and Vm::run. */
    method ReturnTrip(cpu: Cpu, h: Host) returns (phase: Phase)
      requires Valid(cpu) && ValidMem(h.mem) && SameCode(memory.View(), h.mem)
      modifies cpu.table, memory.contents
      ensures Valid(cpu) && View(cpu, phase) == Return(old(View(cpu, Dispatching)), h)
    {
      hide Step, Padded, Back, SameCode;
      ComeBack(cpu, h);
      var reason := h.r[EXIT_REASON];
      ReasonCodes();
      if reason == 3 || reason == 4 {
        return Dispatching;
      } else if reason == 0 {
        return Done(SimpleExit(UnalignedPc));
      } else if reason == 1 {
        return Done(SimpleExit(OutOfBoundsPc));
      } else if reason == 2 {
        return Done(SimpleExit(InstructionFetchFault));
      } else if reason == 5 {
        return Done(SimpleExit(UndefinedInstruction));
      } else if reason == 9 {
        return Done(SimpleExit(EcallExit));
      } else if reason == 10 {
        return Done(SimpleExit(EbreakExit));
      } else if 6 <= reason <= 8 {
        phase := InterpretTrip(cpu);
      } else {
        return Dead(HostFault);
      }
    }

    /** Native code, from its entry to where it leaves the block. */
    method CodeTrip(cpu: Cpu, offset: Word, h: Host) returns (phase: Phase)
      requires Valid(cpu) && offset / 4 <= codeBuffer.cells.Length
      requires var o := Run(EnvOf(params, codeBuffer.View()), CodeFrom(codeBuffer.View(), offset), h);
               o.Returned? ==> ValidMem(o.host.mem) && SameCode(memory.View(), o.host.mem)
      modifies cpu.table, memory.contents
      ensures Valid(cpu)
      ensures var v := old(View(cpu, InCode(offset, h)));
              View(cpu, phase) == AfterCode(params, v, Run(EnvOf(params, v.buffer), CodeFrom(v.buffer, offset), h))
    {
      hide Run, Return, SameCode, Padded;
      var env := Env(params.statePtr, params.memBase, params.permBase, params.blockBase, params.codeBase,
        params.returnTo,
                     params.callerRegs[FRAME], params.callerRegs[PLATFORM], codeBuffer.blockToOffset[..]);
      var o := Run(env, CodeLayout.Flatten(codeBuffer.cells[..][offset / 4..]), h);
      match o
      case Crash => return Dead(HostFault);
      case Jumped(to, g) => return InCode(to, g);
      case Returned(g) =>
        phase := ReturnTrip(cpu, g);
        ReturnIgnoresPhase(old(View(cpu, InCode(offset, h))), g);
    }

    /** Vm::run, followed for at most `trips` trips: like the guest, it need not end. It never faults on
        the host, whatever the guest; and an exit after `steps` instructions is one the interpreter comes to,
        in the same state, if none of its states up to there is one in which the engines differ. */
    method RunFor(cpu: Cpu, trips: nat) returns (phase: Phase, ghost steps: nat)
      requires Valid(cpu) && Prepared(params, View(cpu, Dispatching))
      modifies cpu.table, memory.contents, codeBuffer`nextFreeOffset, codeBuffer.cells, codeBuffer.blockToOffset
      ensures Valid(cpu) && View(cpu, phase) == VmRun(params, old(View(cpu, Dispatching)), trips)
              && phase != Dead(HostFault)
      ensures phase.Done? && Simulation.InRange(params.config, old(cpu.View()[PC])) ==>
                FaithfulFor(params.config, old(MachineOf(cpu, memory)), steps + 1) ==>
                  && Reaches(old(MachineOf(cpu, memory)), steps, MachineOf(cpu, memory))
                  && Step(MachineOf(cpu, memory)) == Stop(phase.exit)
    {
      hide VmStep, Prepared, Tracks, Dispatch, Run, Step, Padded, WriteXorExecute, Reaches, SameCode, AfterCode,
        Engine.EngineReaches, Engine.EngineMove, DiesOf, FaithfulFor, Simulation.InRange, Waiting, Blocks;
      ghost var v := View(cpu, Dispatching);
      phase := Dispatching;
      for i := 0 to trips
        invariant Valid(cpu) && View(cpu, phase) == VmRun(params, v, i)
      {
        ghost var k, g := RunTracks(params, v, i);
        ghost var u := View(cpu, phase);
        match phase {
          case Dispatching =>
            DispatchTracks(params, u, Waiting(params, v), k, g);
            phase := DispatchTrip(cpu);
          case InCode(offset, h) =>
            ReturnsMemory(params, u, Waiting(params, v), k, g);
            phase := CodeTrip(cpu, offset, h);
          case _ =>
        }
        StepCases(params, u);
      }
      steps := 0;
      ghost var _, _ := RunIsTranslated(params, v, trips);
      if Simulation.InRange(params.config, v.machine.Pc()) {
        ghost var g;
        steps, g := WholeRuns.RunIsSound(params, v, trips);
        SoFar(params, v, steps);
      }
    }
  }

  lemma SoFar(p: Params, v: Vm, k: nat)
    ensures FaithfulFor(p.config, v.machine, k + 1) ==> FaithfulFor(p.config, v.machine, k)
  {
    if FaithfulFor(p.config, v.machine, k + 1) {
      FaithfulFewer(p.config, v.machine, k + 1, k);
    }
  }

  lemma AbsentInserts(b: Buffer, pc: Word, code: Code)
    requires ValidBuffer(b) && Find(b, pc) == Absent && !InsertCode(b, pc, code).At?
    ensures InsertCode(b, pc, code) == if pc % 4 != 0 then Misaligned else OutOfMemory
  {
    hide WriteCode;
  }

  lemma ReasonCodes()
    ensures ArchCode(ArchUnalignedPc) == 0 && ArchCode(ArchOutOfBoundsPc) == 1 && ArchCode(ArchFetchFault) == 2
    ensures ArchCode(ArchBlockNotGenerated) == 3 && ArchCode(ArchSingleStep) == 4 && ArchCode(ArchUndefined) == 5
    ensures ArchCode(ArchUnsupported) == 6 && ArchCode(ArchReadFault) == 7 && ArchCode(ArchWriteFault) == 8
    ensures ArchCode(ArchEcall) == 9 && ArchCode(ArchEbreak) == 10
  {
  }

  lemma ReturnIgnoresPhase(v: Vm, h: Host)
    ensures Return(v.(phase := Dispatching), h) == Return(v, h)
  {
    hide Step, Padded, Back;
  }

  lemma StepCases(p: Params, v: Vm)
    ensures Final(v) ==> VmStep(p, v) == v
    ensures v.phase.Dispatching? && Runnable(v) ==> VmStep(p, v) == Dispatch(p, v)
    ensures v.phase.InCode? && Runnable(v) ==>
              VmStep(p, v) == AfterCode(p, v, Run(EnvOf(p, v.buffer), CodeFrom(v.buffer, v.phase.offset),
                v.phase.host))
  {
    hide Dispatch, Run, AfterCode, Padded;
  }
}
