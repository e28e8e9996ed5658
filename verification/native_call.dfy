/** The trampoline around translated code: how the Vm enters it and what it brings back. */
module NativeCalls {
  import opened Words
  import opened Memories
  import opened Interpreter
  import opened HostMachine
  import CacheMeaning
  import Translator
  import CodeMeaning
  import opened Engine
  import opened CodeBuffers
  import opened VirtualMachine
  import opened Trampolines

  /** The caller's registers where it calls translated code: the entry point is in the scratch register by
      then. */
  function CallerRegs(s: Caller): HRegs
    requires |s.block| == 10
  {
    s.r[TRAMPOLINE_BLOCK := s.block[ENTRYPOINT]]
  }

  /** Executor::run calls the trampoline for a guest, with the block that goes with it. */
  ghost predicate Calls(p: Params, m: Machine, s: Caller) {
    && s.r[0] == s.at && |s.block| == 10 && p.callerRegs == CallerRegs(s)
    && s.block[..ENTRYPOINT] == [p.statePtr, p.memBase, p.permBase, Wrap(m.mem.size), p.blockBase,
       Wrap(4 * p.config.maxBlocks),
                                 p.codeBase]
  }

  /** The host state after the call: the return address in its register. */
  function Called(p: Params, m: Machine, called: Caller): Host {
    Host(called.r[RETURN := p.returnTo], p.callerFlags, m.regs, m.mem)
  }

  lemma EntryIsCalled(p: Params, m: Machine, s: Caller, called: Caller)
    requires Calls(p, m, s)
    requires forall f: nat :: f < ENTRYPOINT ==> called.r[f] == s.block[f]
    requires called.r[TRAMPOLINE_BLOCK] == s.block[ENTRYPOINT]
    requires forall r: HReg :: r >= ENTRYPOINT && r != TRAMPOLINE_BLOCK ==> called.r[r] == s.r[r]
    ensures Called(p, m, called) == Entry(p, m)
  {
    var a, b := Called(p, m, called).r, Entry(p, m).r;
    forall f: nat | f < ENTRYPOINT
      ensures called.r[f] == s.block[..ENTRYPOINT][f]
    {
    }
    forall r: HReg
      ensures a[r] == b[r]
    {
      if r < ENTRYPOINT {
        assert called.r[r] == s.block[..ENTRYPOINT][r];
      }
    }
    assert a == b;
  }

  /** Code that has come back has spared the registers nobody may touch. */
  lemma ReturnSpares(p: Params, v: Vm, g0: Guest, k: nat, g: Guest)
    requires Tracks(p, v, g0, k, g) && v.phase.InCode?
    ensures Runnable(v)
    ensures var o := Run(EnvOf(p, v.buffer), CodeFrom(v.buffer, v.phase.offset), v.phase.host);
            o.Returned? ==> CodeMeaning.Spared(EnvOf(p, v.buffer), o.host) && VmStep(p, v) == Return(v, o.host)
  {
    hide EngineReaches, WriteXorExecute, Padded, EngineEffect, Run, CacheMeaning.InTable, BlockCoherent, SameCode,
      Return, Coherent, Blocks;
    var _, _ := CodeComesTo(p, v, g0, k, g);
  }

  /** A whole native call, over any number of blocks that jump to one another. What the trampoline does on
      the way in makes exactly the state the Vm enters code in; and when the code of the last block comes
      back with g, the trampoline has the reason and the pc of g in its block, the stack as it was, and
      every register a callee must keep: X18 to X30. */
  lemma NativeCall(p: Params, v: Vm, n: nat, s: Caller) returns (called: Caller, t: Caller)
    requires Prepared(p, v) && Calls(p, v.machine, s) && n > 0
             && forall j :: 0 < j <= n ==> VmRun(p, v, j).phase.InCode?
    ensures ApplyAll(EnterCode(SAVER.pairs), s) == Some(called)
    ensures VmRun(p, v, 1).phase.host == Called(p, v.machine, called)
    ensures Runnable(VmRun(p, v, n))
    ensures var w := VmRun(p, v, n);
            var o := Run(EnvOf(p, w.buffer), CodeFrom(w.buffer, w.phase.offset), w.phase.host);
            o.Returned? ==>
              && ApplyAll(LeaveCode(SAVER.pairs), called.(r := o.host.r)) == Some(t)
              && t.block == s.block[EXIT_REASON_FIELD := o.host.r[EXIT_REASON]][EXIT_PC_FIELD := o.host.r[EXIT_PC]]
              && t.sp == s.sp && KeepsStack(s, t, s.sp) && (forall r: HReg :: 18 <= r <= 30 ==> t.r[r] == s.r[r])
              && VmRun(p, v, n + 1) == Return(w, o.host)
  {
    hide Prepared, VmStep, Return, Run, EngineReaches, SAVER, ApplyAll, EnterCode, LeaveCode, Tracks, Entry, Waiting;
    var w := VmRun(p, v, n);
    var k, g := RunTracks(p, v, n);
    ReturnSpares(p, w, Waiting(p, v), k, g);
    var o := Run(EnvOf(p, w.buffer), CodeFrom(w.buffer, w.phase.offset), w.phase.host);
    var body := if o.Returned? then o.host.r else s.r;
    called, t := TrampolineMeaning(s, s);
    called, t := TrampolineMeaning(s, called.(r := body));
    EntryIsCalled(p, v.machine, s, called);
    FirstEntry(p, v);
    if o.Returned? {
      assert KeepsStack(called, called.(r := body), called.sp);
      SparedRegisters(p, w.buffer, o.host, s);
    }
  }

  lemma FirstEntry(p: Params, v: Vm)
    requires Prepared(p, v) && VmRun(p, v, 1).phase.InCode?
    ensures VmRun(p, v, 1).phase.host == Entry(p, v.machine)
  {
    hide Entry, Translator.Translate, Allocate, Padded, WriteXorExecute, BlockCoherent;
    assert VmRun(p, v, 0) == v && VmRun(p, v, 1) == VmStep(p, v);
  }

  lemma SparedRegisters(p: Params, b: Buffer, g: Host, s: Caller)
    requires CodeMeaning.Spared(EnvOf(p, b), g) && |s.block| == 10 && p.callerRegs == CallerRegs(s)
    ensures g.r[PLATFORM] == s.r[PLATFORM] && g.r[FRAME] == s.r[FRAME]
  {
  }

  /** Whatever the caller has in its registers the next time, the run can be taken up again where it looks a
      pc up: so this holds of every call a run makes. */
  lemma EveryCall(p: Params, v: Vm, n: nat, regs: HRegs)
    requires Prepared(p, v) && VmRun(p, v, n).phase.Dispatching?
    ensures Prepared(p.(callerRegs := regs), VmRun(p, v, n))
  {
    hide VmRun, EngineReaches, WriteXorExecute, BlockCoherent, ValidBuffer, Padded, CameTo, Blocks;
    var k, g := RunTracks(p, v, n);
    AnyCallerCoherent(p, VmRun(p, v, n).buffer, g.machine.mem, regs);
  }

  lemma AnyCallerCoherent(p: Params, b: Buffer, m: Mem, regs: HRegs)
    requires Coherent(p, b, m)
    ensures Coherent(p.(callerRegs := regs), b, m)
  {
    hide Translator.Translate, ValidBuffer, ValidMem, Contains;
    forall block | 0 <= block < |b.offsets|
      ensures BlockCoherent(p.(callerRegs := regs), b, m, block)
    {
      assert BlockCoherent(p, b, m, block);
    }
  }
}
