/** Instructions that compute a register, and jumps: what their emitted code does for every guest state. */
module InstructionSimulation {
  import opened Words
  import opened Instructions
  import opened Memories
  import opened Interpreter
  import opened HostMachine
  import opened RegisterCaches
  import opened CacheProperties
  import opened CacheMeaning
  import opened Translator
  import opened TranslationChecks
  import opened CodeMeaning
  import opened Labels
  import opened BranchMeaning
  import opened ComputeMeaning
  import opened Simulation
  import Engine

  // ----- instructions that only compute -----

  /** Operands an instruction does not lock do not matter to it. */
  lemma UnusedOperands(i: Instruction, pc: Word, a: Word, b: Word, a2: Word, b2: Word)
    requires IsCompute(i.op)
    requires |Requests(i)| == 3 ==> a == a2 && b == b2
    requires |Requests(i)| == 2 || i.op.SetImm? ==> a == a2
    ensures HostCompute(i, pc, a, b) == HostCompute(i, pc, a2, b2)
  {
    hide HostImm, HostShift, HostReg, HostMulDiv, Signed;
  }

  /** A register written through the host register given for it, and everything released. */
  lemma WriteBack(env: Env, cfg: Config, c: Cache, reqs: seq<Request>, g: Host, f: Host, x: Registers, size: nat,
                  v: Word)
    requires Idle(c) && reqs != [] && LockedFor(c, reqs, Lock(c, reqs))
    requires var k := |reqs| - 1;
             reqs[k].reg != 0 && Junk(reqs) <= {reqs[k].reg} && Computes(g, f, Lock(c, reqs).regs[k], v)
    requires Agree(Lock(c, reqs).cache, g, x, Junk(reqs)) && FixedRegisters(env, cfg, size, g)
    ensures var l, k := Lock(c, reqs), |reqs| - 1;
            var e := Unlock(UnlockClean(l.cache, l.regs[..k]), l.regs[k], true);
            Idle(e) && MayUnlockAll(l.regs) && Agree(e, f, x[reqs[k].reg := v], {}) && FixedRegisters(env, cfg, size, f)
  {
    hide Valid, Lock, Agree, Requested, LocksOnly, NoneLocked, Unlock, UnlockClean, MayUnlockAll, Junk, HeldBy,
      Computes, AllHeld;
    var l, k := Lock(c, reqs), |reqs| - 1;
    var d := UnlockClean(l.cache, l.regs[..k]);
    WriteReleased(c, reqs, l);
    UnlockCleanAgrees(l.cache, l.regs[..k], g, x, Junk(reqs));
    AgreeWeaken(d, g, x, Junk(reqs), {reqs[k].reg});
    HeldRegister(d, reqs[k].reg, l.regs[k]);
    ComputesFrame(env, cfg, size, g, f, l.regs[k], v);
    WriteMeaning(d, g, f, x, reqs[k].reg, l.regs[k], v, {reqs[k].reg});
    assert {reqs[k].reg} - {reqs[k].reg} == {};
  }

  lemma ComputesFrame(env: Env, cfg: Config, size: nat, g: Host, f: Host, d: HReg, v: Word)
    requires Computes(g, f, d, v) && Operand0(d)
    ensures g.table == f.table && f.r[d] == v
    ensures forall t: SlotId :: CacheReg(t) != d ==> f.r[CacheReg(t)] == g.r[CacheReg(t)]
    ensures FixedRegisters(env, cfg, size, g) ==> FixedRegisters(env, cfg, size, f)
  {
  }

  lemma ComputeJunk(i: Instruction)
    ensures Junk(Requests(i)) <= {i.rd}
  {
    JunkIsWritten(Requests(i), i.rd);
  }

  lemma RequestsAre(i: Instruction)
    requires IsCompute(i.op)
    ensures var reqs := Requests(i);
            && (|reqs| == 1 <==> i.op.Lui? || i.op.Auipc? || (i.op.SetImm? && i.rs1 == 0))
            && (|reqs| >= 2 ==> reqs[0] == ReadOf(i.rs1)) && (|reqs| == 3 ==> reqs[1] == ReadOf(i.rs2))
  {
  }

  /** The body of a computing instruction, after its lock. */
  lemma BodyRun(env: Env, cfg: Config, i: Instruction, s: Machine, regs: seq<HReg>, rest: Code, g: Host)
    returns (f: Host)
    requires IsCompute(i.op) && WellFormed(i) && i.rd != 0 && |regs| == |Requests(i)| && g.r[BASE_PC] == cfg.basePc
    requires s.regs[0] == 0
    requires forall k :: 0 <= k < |regs| && (Requests(i)[k].reg == 0 || !Requests(i)[k].writeOnly) ==>
             Get(g, regs[k]) == s.regs[Requests(i)[k].reg]
    requires forall k :: 0 <= k < |regs| ==> Operand0(regs[k]) && (regs[k] == XZR <==> Requests(i)[k].reg == 0)
    ensures var k := |regs| - 1;
            Run(env, ComputeBody(cfg, i, s.Pc(), regs[0], regs[if k == 2 then 1 else 0], regs[k]) + rest, g)
              == Run(env, rest, f)
            && Computes(g, f, regs[k], HostCompute(i, s.Pc(), s.regs[i.rs1], s.regs[i.rs2]))
  {
    hide Run, ComputeBody, HostCompute, Computes, Requests, Get;
    var pc, k := s.Pc(), |regs| - 1;
    var a, b, d := regs[0], regs[if k == 2 then 1 else 0], regs[k];
    RequestsAre(i);
    BodyMeaning(env, cfg, i, pc, a, b, d, g);
    var body := ComputeBody(cfg, i, pc, a, b, d);
    f := ExecAll(env, body, g).value;
    RunAll(env, body, rest, g);
    UnusedOperands(i, pc, if i.op.SetImm? && i.rs1 == 0 then 0 else Get(g, a), Get(g, b), s.regs[i.rs1], s.regs[i.rs2]);
  }

  lemma ComputeWritten(env: Env, cfg: Config, c: Cache, n: Label, i: Instruction, rest: Code, h: Host, s: Machine)
    returns (f: Host)
    requires Sim(env, cfg, c, h, s) && IsCompute(i.op) && WellFormed(i) && i.rd != 0
    ensures var p := ComputePiece(cfg, c, n, s.Pc(), i);
            p.goesOn && Run(env, p.code + rest, h) == Run(env, rest, f)
              && Sim(env, cfg, p.cache, f, Engine.Computed(i, s))
  {
    hide Run, ComputeBody, HostCompute, Computes, Requests, Lock, Agree, FixedRegisters, Unlock, UnlockClean,
      MayUnlockAll, Junk, Valid, NoneLocked, Padded, Requested, LocksOnly, AllHeld;
    var reqs := Requests(i);
    LockAll(c, reqs);
    var l, k := Lock(c, reqs), |reqs| - 1;
    var body := ComputeBody(cfg, i, s.Pc(), l.regs[0], l.regs[if k == 2 then 1 else 0], l.regs[k]);
    var g := LockRun(env, cfg, c, reqs, body + rest, h, s);
    assert (l.code + body) + rest == l.code + (body + rest);
    FixedIsReady(env, cfg, s.mem.size, g);
    SimZero(env, cfg, c, h, s);
    f := BodyRun(env, cfg, i, s, l.regs, rest, g);
    ComputeJunk(i);
    var v := HostCompute(i, s.Pc(), s.regs[i.rs1], s.regs[i.rs2]);
    WriteBack(env, cfg, c, reqs, g, f, s.regs, s.mem.size, v);
    ComputesMem(g, f, l.regs[k], v);
    AgreeSetPc(ComputePiece(cfg, c, n, s.Pc(), i).cache, f, s.regs[i.rd := v], {}, Wrap(s.Pc() + 4));
  }

  lemma ComputesMem(g: Host, f: Host, d: HReg, v: Word)
    requires Computes(g, f, d, v)
    ensures f.mem == g.mem
  {
  }

  lemma SimZero(env: Env, cfg: Config, c: Cache, h: Host, s: Machine)
    requires Sim(env, cfg, c, h, s)
    ensures s.regs[0] == 0
  {
  }

  /** Nothing emitted for an instruction without an effect but on the pc. */
  lemma NothingEmitted(env: Env, cfg: Config, c: Cache, rest: Code, h: Host, s: Machine)
    requires Sim(env, cfg, c, h, s)
    ensures Run(env, [] + rest, h) == Run(env, rest, h)
    ensures Sim(env, cfg, c, h, Machine(SetPc(s.regs, Wrap(s.Pc() + 4)), s.mem))
  {
    hide Run, Agree, Valid, NoneLocked;
    assert [] + rest == rest;
    AgreeSetPc(c, h, s.regs, {}, Wrap(s.Pc() + 4));
  }

  lemma ExitSimulates(env: Env, cfg: Config, c: Cache, r: ArchExit, rest: Code, h: Host, s: Machine)
    requires Sim(env, cfg, c, h, s)
    ensures Leaves(env, Run(env, ExitCode(cfg, c, r, s.Pc()) + rest, h), s.regs, s.mem, s.Pc(), r)
  {
    hide Run, Agree, Leaves, ExitCode, Valid, NoneLocked;
    ExitMeaning(env, cfg, c, r, s.Pc(), rest, h, s.regs, {});
  }

  /** An instruction that computes leaves its host value in rd and nothing else changed; into x0 it
      emits nothing, or leaves to the interpreter. */
  lemma ComputeSimulates(env: Env, cfg: Config, c: Cache, n: Label, i: Instruction, rest: Code, h: Host, s: Machine)
    returns (g: Host)
    requires Sim(env, cfg, c, h, s) && IsCompute(i.op) && WellFormed(i)
    ensures var p := ComputePiece(cfg, c, n, s.Pc(), i);
            var o := Run(env, p.code + rest, h);
            if i.rd == 0 && i.op.MulDiv? then Leaves(env, o, s.regs, s.mem, s.Pc(), ArchUnsupported)
            else p.goesOn && o == Run(env, rest, g) && Sim(env, cfg, p.cache, g, Engine.Computed(i, s))
  {
    hide Run, Agree, Valid, NoneLocked, FixedRegisters, Padded, HostCompute, Requests, Lock, ComputeBody, Leaves,
      Unlock, UnlockClean, MayUnlockAll, ExitCode;
    g := h;
    if i.rd != 0 {
      g := ComputeWritten(env, cfg, c, n, i, rest, h, s);
    } else if i.op.MulDiv? {
      ExitSimulates(env, cfg, c, ArchUnsupported, rest, h, s);
    } else {
      NothingEmitted(env, cfg, c, rest, h, s);
    }
  }

  // ----- jumps -----

  lemma PutComputes(g: Host, d: HReg, v: Word)
    requires d != XZR
    ensures Computes(g, Put(g, d, v), d, v)
  {
  }

  lemma UnlockNone(c: Cache)
    requires Shape(c)
    ensures UnlockClean(c, []) == c
  {
  }

  /** The link register, written before the branch. */
  lemma LinkMeaning(env: Env, cfg: Config, c: Cache, n: Label, rd: GuestReg, rest: Code, h: Host, s: Machine)
    returns (g: Host)
    requires Sim(env, cfg, c, h, s)
    ensures var p := LinkPiece(cfg, c, n, s.Pc(), rd);
            var x := SetReg(s.regs, rd, Wrap(s.Pc() + 4));
            p.next == n && p.exits == [] && Run(env, p.code + rest, h) == Run(env, rest, g)
            && Branching(env, cfg, p.cache, g, x) && g.mem == s.mem
  {
    hide Run, Valid, NoneLocked, Agree, FixedRegisters, Padded, Lock, LoadImmediate, Unlock, MayUnlock, Junk, Requested,
      LocksOnly, AllHeld, Computes, ExecAll;
    g := h;
    if rd == 0 {
      assert [] + rest == rest;
    } else {
      var reqs, v := [WriteOnly(rd)], Wrap(s.Pc() + 4);
      var l := Lock(c, reqs);
      LockAll(c, reqs);
      var load := LoadImmediate(cfg, l.regs[0], v);
      var g1 := LockRun(env, cfg, c, reqs, load + rest, h, s);
      assert (l.code + load) + rest == l.code + (load + rest);
      FixedIsReady(env, cfg, s.mem.size, g1);
      LoadImmediateMeaning(env, cfg, l.regs[0], v, g1);
      g := Put(g1, l.regs[0], v);
      RunAll(env, load, rest, g1);
      JunkIsWritten(reqs, rd);
      PutComputes(g1, l.regs[0], v);
      WriteBack(env, cfg, c, reqs, g1, g, s.regs, s.mem.size, v);
      UnlockNone(l.cache);
      assert l.regs[..0] == [];
    }
  }

  /** jal, for every target: one the block table has no entry for leaves with jal's own pc, the link
      register already written. */
  lemma JalMeaning(env: Env, cfg: Config, c: Cache, n: Label, i: Instruction, rest: Code, h: Host, s: Machine)
    requires Sim(env, cfg, c, h, s) && Resolves(cfg, rest, JalPiece(cfg, c, n, s.Pc(), i).exits)
    ensures var o := Run(env, JalPiece(cfg, c, n, s.Pc(), i).code + rest, h);
            var x, target := SetReg(s.regs, i.rd, Wrap(s.Pc() + 4)), Wrap(s.Pc() + i.imm);
            if target % 4 != 0 then Leaves(env, o, x, s.mem, s.Pc(), ArchUnalignedPc)
            else if target / 4 >= cfg.maxBlocks then Leaves(env, o, x, s.mem, s.Pc(), ArchOutOfBoundsPc)
            else Departs(env, cfg, o, x, s.mem, target, target)
  {
    hide Run, Valid, NoneLocked, Agree, FixedRegisters, Padded, LinkPiece, StaticBranch, Branching, Leaves, Departs,
      Resolves;
    SimEnv(env, cfg, c, h, s);
    var link := LinkPiece(cfg, c, n, s.Pc(), i.rd);
    var branch := StaticBranch(cfg, link.cache, link.next, Wrap(s.Pc() + i.imm), A_REG, s.Pc());
    var g := LinkMeaning(env, cfg, c, n, i.rd, branch.code + rest, h, s);
    assert (link.code + branch.code) + rest == link.code + (branch.code + rest);
    StaticBranchMeaning(env, cfg, link.cache, link.next, Wrap(s.Pc() + i.imm), s.Pc(), rest, g,
      SetReg(s.regs, i.rd, Wrap(s.Pc() + 4)));
  }

  lemma SimEnv(env: Env, cfg: Config, c: Cache, h: Host, s: Machine)
    requires Sim(env, cfg, c, h, s)
    ensures EnvOk(env, cfg) && ValidMem(s.mem) && |s.mem.perms| >= s.mem.size && |s.mem.bytes| >= s.mem.size
  {
  }

  /** The target of jalr in the register the branch will read, just after rs1 is locked. */
  lemma JalrTarget(env: Env, cfg: Config, c: Cache, i: Instruction, rest: Code, h: Host, s: Machine) returns (g: Host)
    requires Sim(env, cfg, c, h, s)
    ensures var l := Lock(c, [ReadOf(i.rs1)]);
            l.ok && Valid(l.cache) && |l.regs| == 1 && Operand0(l.regs[0])
            && var o := AddOffset(cfg, l.regs[0], A_REG, i.imm);
               && Run(env, l.code + (o.code + rest), h) == Run(env, rest, g)
               && Branching(env, cfg, l.cache, g, s.regs) && g.mem == s.mem
               && o.reg != XZR && (o.reg == A_REG || o.reg == l.regs[0]) && g.r[o.reg] == Wrap(s.regs[i.rs1] + i.imm)
  {
    hide Run, Valid, NoneLocked, Agree, FixedRegisters, Padded, Lock, AddOffset, Junk, Requested, LocksOnly, AllHeld,
      ExecAll, Wrap;
    var reqs := [ReadOf(i.rs1)];
    var l := Lock(c, reqs);
    LockAll(c, reqs);
    var o := AddOffset(cfg, l.regs[0], A_REG, i.imm);
    var g1 := LockRun(env, cfg, c, reqs, o.code + rest, h, s);
    FixedIsReady(env, cfg, s.mem.size, g1);
    AddOffsetMeaning(env, cfg, l.regs[0], A_REG, i.imm, g1);
    g := ExecAll(env, o.code, g1).value;
    RunAll(env, o.code, rest, g1);
    NoJunk(i.rs1);
    ScratchKeeps(env, cfg, s.mem.size, l.cache, g1, g, s.regs, {});
  }

  lemma NoJunk(r: GuestReg)
    ensures Junk([ReadOf(r)]) == {}
  {
  }

  /** The link register of jalr, written after its target is known: even when the two registers are
      one, the branch still sees the target. */
  lemma JalrLink(env: Env, cfg: Config, c: Cache, i: Instruction, from: HReg, target: Word, link: Word, rest: Code,
                 h: Host, x: Registers)
    returns (g: Host)
    requires Idle(c) && i.rd != 0
    requires var l := Lock(c, [ReadOf(i.rs1)]);
             Branching(env, cfg, l.cache, h, x) && |l.regs| == 1 && (from == A_REG || from == l.regs[0]) && from != XZR
             && h.r[from] == target
    ensures var l := Lock(c, [ReadOf(i.rs1)]);
            var m := Lock(l.cache, [WriteOnly(i.rd)]);
            |m.regs| == 1
            && var d := m.regs[0];
               var code := m.code + ((if d == from then [MovReg(A_REG, from)] else []) + LoadImmediate(cfg, d, link));
               var to := if d == from then A_REG else from;
               && Run(env, code + rest, h) == Run(env, rest, g)
               && Branching(env, cfg, Unlock(m.cache, d, true), g, x[i.rd := link]) && g.mem == h.mem
                  && g.r[to] == target
  {
    hide Run, Valid, NoneLocked, Agree, FixedRegisters, Padded, Lock, LoadImmediate, Unlock, MayUnlock, Junk, Requested,
      LocksOnly, ExecAll, KeepsLocked;
    var l := Lock(c, [ReadOf(i.rs1)]);
    var m := Lock(l.cache, [WriteOnly(i.rd)]);
    JalrLocks(c, i.rs1, i.rd);
    var d := m.regs[0];
    FixedIsReady(env, cfg, h.mem.size, h);
    LockKeepsView(env, l.cache, [WriteOnly(i.rd)], h, x, {});
    assert {} + Junk([WriteOnly(i.rd)]) == Junk([WriteOnly(i.rd)]);
    var h1 := ExecAll(env, m.code, h).value;
    CacheOnlyKeeps(env, cfg, h.mem.size, h, h1);
    JunkIsWritten([WriteOnly(i.rd)], i.rd);
    AgreeWeaken(m.cache, h1, x, Junk([WriteOnly(i.rd)]), {i.rd});
    LockedTarget(c, i.rs1, from, h, h1);
    HeldRegister(m.cache, i.rd, d);
    var moved := if d == from then [MovReg(A_REG, from)] else [];
    var h2 := if d == from then Put(h1, A_REG, target) else h1;
    ExecOne(env, MovReg(A_REG, from), h1);
    assert ExecAll(env, moved, h1) == Some(h2) by { MovedRun(env, d, from, h1); }
    FixedIsReady(env, cfg, h.mem.size, h1);
    LoadImmediateMeaning(env, cfg, d, link, h2);
    g := Put(h2, d, link);
    var load := LoadImmediate(cfg, d, link);
    assert (m.code + (moved + load)) + rest == m.code + (moved + (load + rest));
    RunAll(env, m.code, moved + (load + rest), h);
    RunAll(env, moved, load + rest, h1);
    RunAll(env, load, rest, h2);
    WriteMeaning(m.cache, h1, g, x, i.rd, d, link, {i.rd});
    assert {i.rd} - {i.rd} == {};
    UnlockValid(m.cache, i.rd, d, true);
    LinkFrame(env, cfg, h.mem.size, h1, g, d);
  }

  lemma MovedRun(env: Env, d: HReg, from: HReg, h: Host)
    requires from != XZR
    ensures ExecAll(env, if d == from then [MovReg(A_REG, from)] else [], h)
         == Some(if d == from then Put(h, A_REG, h.r[from]) else h)
  {
    ExecOne(env, MovReg(A_REG, from), h);
  }

  lemma LockedTarget(c: Cache, rs1: GuestReg, from: HReg, h: Host, g: Host)
    requires Idle(c) && from != XZR
    requires var l := Lock(c, [ReadOf(rs1)]);
             |l.regs| == 1 && (from == A_REG || from == l.regs[0]) && LockedHeld(l.cache, h, g) && CacheOnly(h, g)
    ensures g.r[from] == h.r[from]
  {
    hide Valid, NoneLocked, Lock, LocksOnly, Requested;
    var reqs := [ReadOf(rs1)];
    LockFromIdle(c, reqs);
    LockIs(c, reqs);
    assert Given(Lock(c, reqs).cache, reqs[0].reg, Lock(c, reqs).regs[0]);
  }

  lemma LinkFrame(env: Env, cfg: Config, size: nat, h: Host, g: Host, d: HReg)
    requires FixedRegisters(env, cfg, size, h) && Operand0(d)
    requires forall n: HReg :: n != d && n != A_REG ==> g.r[n] == h.r[n]
    ensures FixedRegisters(env, cfg, size, g)
  {
  }

  /** jalr, for every target: the jump clears the lowest bit, an exit reports it as it was. */
  lemma JalrMeaning(env: Env, cfg: Config, c: Cache, n: Label, i: Instruction, rest: Code, h: Host, s: Machine)
    requires Sim(env, cfg, c, h, s) && Resolves(cfg, rest, JalrPiece(cfg, c, n, s.Pc(), i).exits)
    ensures var o := Run(env, JalrPiece(cfg, c, n, s.Pc(), i).code + rest, h);
            var x, v := SetReg(s.regs, i.rd, Wrap(s.Pc() + 4)), Wrap(s.regs[i.rs1] + i.imm);
            var target := ClearLowBit(v);
            if target % 4 != 0 then Leaves(env, o, x, s.mem, v, ArchUnalignedPc)
            else if target / 4 >= cfg.maxBlocks then Leaves(env, o, x, s.mem, v, ArchOutOfBoundsPc)
            else Departs(env, cfg, o, x, s.mem, target, v)
  {
    hide Run, Valid, NoneLocked, Agree, FixedRegisters, Padded, Lock, AddOffset, LoadImmediate, Unlock, MayUnlock,
      DynamicBranch, Leaves, Departs, Resolves, ClearLowBit, Wrap, Branching;
    var l := Lock(c, [ReadOf(i.rs1)]);
    JalrLocks(c, i.rs1, i.rd);
    var from := AddOffset(cfg, l.regs[0], A_REG, i.imm);
    if i.rd == 0 {
      var branch := DynamicBranch(cfg, l.cache, n, from.reg, B_REG);
      var g := JalrTarget(env, cfg, c, i, branch.code + rest, h, s);
      assert (l.code + (from.code + branch.code)) + rest == l.code + (from.code + (branch.code + rest));
      DynamicBranchMeaning(env, cfg, l.cache, n, from.reg, rest, g, s.regs);
    } else {
      var m := Lock(l.cache, [WriteOnly(i.rd)]);
      var d, link := m.regs[0], Wrap(s.Pc() + 4);
      var moved := if d == from.reg then [MovReg(A_REG, from.reg)] else [];
      var to := if d == from.reg then A_REG else from.reg;
      var load := LoadImmediate(cfg, d, link);
      var branch := DynamicBranch(cfg, Unlock(m.cache, d, true), n, to, B_REG);
      var code := m.code + (moved + load);
      var g := JalrTarget(env, cfg, c, i, code + (branch.code + rest), h, s);
      assert (l.code + (from.code + (m.code + (moved + (load + branch.code))))) + rest == l.code
        + (from.code + (code + (branch.code + rest)));
      var f := JalrLink(env, cfg, c, i, from.reg, Wrap(s.regs[i.rs1] + i.imm), link, branch.code + rest, g, s.regs);
      DynamicBranchMeaning(env, cfg, Unlock(m.cache, d, true), n, to, rest, f, s.regs[i.rd := link]);
    }
  }
}
