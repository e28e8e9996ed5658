/** Conditional branches, loads and stores: both ways out of each. */
module AccessSimulation {
  import opened Words
  import opened Instructions
  import opened Memories
  import opened Interpreter
  import opened HostMachine
  import opened RegisterCaches
  import opened CacheProperties
  import opened CacheMeaning
  import opened Translator
  import opened TranslationChecks
  import opened CodeMeaning
  import AccessMeaning
  import opened Labels
  import opened BranchMeaning
  import ComputeMeaning
  import opened Simulation
  import opened Engine
  import InstructionSimulation

  // ----- conditional branches -----

  lemma InvertedIs(op: BranchOp, a: Word, b: Word)
    ensures Holds(Inverted(op), (a, b)) <==> !BranchTaken(op, a, b)
  {
  }

  lemma FlagsAreScratch(h: Host, flags: (Word, Word))
    ensures OnlyScratch(h, h.(flags := flags))
  {
  }

  lemma ReadsHaveNoJunk(a: GuestReg, b: GuestReg)
    ensures Junk([ReadOf(a), ReadOf(b)]) == {}
  {
  }

  /** Releasing registers locked for reading leaves the same state, idle. */
  lemma ReadBack(env: Env, cfg: Config, c: Cache, a: GuestReg, b: GuestReg, g: Host, s: Machine, t: Machine)
    requires var reqs := [ReadOf(a), ReadOf(b)];
             Idle(c) && LockedFor(c, reqs, Lock(c, reqs)) && Agree(Lock(c, reqs).cache, g, s.regs, {})
    requires t.regs == SetPc(s.regs, t.Pc()) && g.mem == t.mem && ValidMem(t.mem) && t.mem.size == s.mem.size
    requires FixedRegisters(env, cfg, s.mem.size, g) && EnvOk(env, cfg) && !cfg.skipPermissionChecks
    ensures var l := Lock(c, [ReadOf(a), ReadOf(b)]);
            Sim(env, cfg, UnlockClean(l.cache, l.regs), g, t)
  {
    hide Valid, NoneLocked, Agree, FixedRegisters, Padded, Lock, Requested, LocksOnly, AllHeld, UnlockClean;
    var reqs := [ReadOf(a), ReadOf(b)];
    var l := Lock(c, reqs);
    ReadsReleased(c, reqs, l);
    UnlockCleanAgrees(l.cache, l.regs, g, s.regs, {});
    AgreeSetPc(UnlockClean(l.cache, l.regs), g, s.regs, {}, t.Pc());
  }

  /** The host state on both paths of a conditional branch, just after the comparison. */
  lemma BranchHead(env: Env, cfg: Config, c: Cache, n: Label, i: Instruction, taken: Code, rest: Code, h: Host,
                   s: Machine)
    returns (g: Host)
    requires Sim(env, cfg, c, h, s) && i.op.Branch? && !Binds(taken, n)
    ensures var reqs := [ReadOf(i.rs1), ReadOf(i.rs2)];
            var l := Lock(c, reqs);
            LockedFor(c, reqs, l) && Agree(l.cache, g, s.regs, {}) && FixedRegisters(env, cfg, s.mem.size, g)
              && g.mem == s.mem
            && Run(env, l.code + ([CmpReg(true, l.regs[0], l.regs[1]), BCond(Inverted(i.op.branch), n)]
               + (taken + [Bind(n)])) + rest, h)
            == Run(env, if BranchTaken(i.op.branch, s.regs[i.rs1], s.regs[i.rs2]) then taken + ([Bind(n)] + rest)
              else rest, g)
  {
    hide Run, After, Valid, NoneLocked, Agree, FixedRegisters, Padded, Lock, Requested, LocksOnly, AllHeld, Junk, Holds,
      Inverted, BranchTaken;
    var reqs := [ReadOf(i.rs1), ReadOf(i.rs2)];
    var l := Lock(c, reqs);
    LockAll(c, reqs);
    var a, b := s.regs[i.rs1], s.regs[i.rs2];
    var test := [CmpReg(true, l.regs[0], l.regs[1]), BCond(Inverted(i.op.branch), n)];
    var g1 := LockRun(env, cfg, c, reqs, test + (taken + ([Bind(n)] + rest)), h, s);
    assert Get(g1, l.regs[0]) == a && Get(g1, l.regs[1]) == b by {
      assert reqs[0] == ReadOf(i.rs1) && reqs[1] == ReadOf(i.rs2);
    }
    assert l.code + (test + (taken + [Bind(n)])) + rest == l.code + (test + (taken + ([Bind(n)] + rest)));
    g := g1.(flags := (a, b));
    CompareAndBranch(env, CmpReg(true, l.regs[0], l.regs[1]), Inverted(i.op.branch), n, taken + ([Bind(n)] + rest), g1,
      (a, b));
    InvertedIs(i.op.branch, a, b);
    AfterSkips(taken, [Bind(n)] + rest, n);
    AfterHere(rest, n);
    ReadsHaveNoJunk(i.rs1, i.rs2);
    FlagsAreScratch(g1, (a, b));
    ScratchKeeps(env, cfg, s.mem.size, l.cache, g1, g, s.regs, {});
  }

  /** A conditional branch: flushing on the taken path changes nothing of what the cache promises on
      the other, where the block goes on. */
  lemma BranchPieceMeaning(env: Env, cfg: Config, c: Cache, n: Label, i: Instruction, rest: Code, h: Host, s: Machine)
    returns (g: Host)
    requires Sim(env, cfg, c, h, s) && i.op.Branch? && Resolves(cfg, rest, BranchPiece(cfg, c, n, s.Pc(), i).exits)
    ensures var p := BranchPiece(cfg, c, n, s.Pc(), i);
            var o := Run(env, p.code + rest, h);
            var target := Wrap(s.Pc() + i.imm);
            if !BranchTaken(i.op.branch, s.regs[i.rs1], s.regs[i.rs2]) then
              p.goesOn && o == Run(env, rest, g) && Sim(env, cfg, p.cache, g,
                Machine(SetPc(s.regs, Wrap(s.Pc() + 4)), s.mem))
            else if target % 4 != 0 then Leaves(env, o, s.regs, s.mem, s.Pc(), ArchUnalignedPc)
            else if target / 4 >= cfg.maxBlocks then Leaves(env, o, s.regs, s.mem, s.Pc(), ArchOutOfBoundsPc)
            else Departs(env, cfg, o, s.regs, s.mem, target, target)
  {
    hide Run, Valid, NoneLocked, Agree, FixedRegisters, Padded, Lock, Requested, LocksOnly, AllHeld, StaticBranch,
      Leaves, Departs, Resolves, BranchTaken, UnlockClean, MayUnlockAll, Wrap;
    var reqs := [ReadOf(i.rs1), ReadOf(i.rs2)];
    var l := Lock(c, reqs);
    LockAll(c, reqs);
    var target := Wrap(s.Pc() + i.imm);
    var taken := StaticBranch(cfg, l.cache, n + 1, target, A_REG, s.Pc());
    StaticBranchNoBinds(cfg, l.cache, n + 1, target, A_REG, s.Pc());
    NoBindsMeans(taken.code, n);
    g := BranchHead(env, cfg, c, n, i, taken.code, rest, h, s);
    if BranchTaken(i.op.branch, s.regs[i.rs1], s.regs[i.rs2]) {
      TakenResolves(cfg, l.cache, n, target, s.Pc(), rest);
      StaticBranchMeaning(env, cfg, l.cache, n + 1, target, s.Pc(), [Bind(n)] + rest, g, s.regs);
    } else {
      ReadBack(env, cfg, c, i.rs1, i.rs2, g, s, Machine(SetPc(s.regs, Wrap(s.Pc() + 4)), s.mem));
    }
  }

  lemma TakenResolves(cfg: Config, c: Cache, n: Label, target: Word, pc: Word, rest: Code)
    requires Shape(c) && Resolves(cfg, rest, StaticBranch(cfg, c, n + 1, target, A_REG, pc).exits)
    ensures Resolves(cfg, [Bind(n)] + rest, StaticBranch(cfg, c, n + 1, target, A_REG, pc).exits)
  {
    hide Resolves, StaticBranch;
    StaticBranchExits(cfg, c, n + 1, target, A_REG, pc);
    ResolvesThrough(cfg, [Bind(n)], rest, StaticBranch(cfg, c, n + 1, target, A_REG, pc).exits);
  }

  // ----- loads and stores -----

  lemma CheckIsScratch(h: Host, g: Host)
    requires AccessMeaning.OnlyCheck(h, g)
    ensures OnlyScratch(h, g)
  {
  }

  lemma RegisterIsScratch(h: Host, g: Host)
    requires OnlyRegister(h, g, A_REG)
    ensures OnlyScratch(h, g)
  {
  }

  lemma ScratchTwice(h: Host, f: Host, g: Host)
    requires OnlyScratch(h, f) && OnlyScratch(f, g)
    ensures OnlyScratch(h, g)
  {
  }

  lemma ScratchKeepsOperand(h: Host, g: Host, n: HReg)
    requires OnlyScratch(h, g) && ComputeMeaning.Operand0(n)
    ensures Get(g, n) == Get(h, n)
  {
  }

  /** The address, offset added, in a register the check does not touch. */
  lemma AddressRun(env: Env, cfg: Config, base: HReg, imm: int, rest: Code, g: Host) returns (f: Host)
    requires ComputeMeaning.Operand0(base) && g.r[BASE_PC] == cfg.basePc
    ensures var o := AddOffset(cfg, base, A_REG, imm);
            && Run(env, o.code + rest, g) == Run(env, rest, f) && OnlyScratch(g, f)
            && o.reg != XZR && o.reg != B_REG && o.reg != C_REG && f.r[o.reg] == Wrap(Get(g, base) + imm)
  {
    hide Run, AddOffset, ExecAll, Wrap;
    var o := AddOffset(cfg, base, A_REG, imm);
    AddOffsetMeaning(env, cfg, base, A_REG, imm, g);
    f := ExecAll(env, o.code, g).value;
    RunAll(env, o.code, rest, g);
    RegisterIsScratch(g, f);
  }

  /** Everything in front of the access itself. */
  lemma AccessHead(env: Env, cfg: Config, c: Cache, reqs: seq<Request>, n: Label, w: nat, a: Access, imm: int,
                   rest: Code,
                   h: Host, s: Machine) returns (g: Host)
    requires Sim(env, cfg, c, h, s) && |reqs| == 2 && !reqs[0].writeOnly && Width(w)
    ensures var l := Lock(c, reqs);
            LockedFor(c, reqs, l) && Agree(l.cache, g, s.regs, Junk(reqs)) && FixedRegisters(env, cfg, s.mem.size, g)
              && g.mem == s.mem
            && var o := AddOffset(cfg, l.regs[0], A_REG, imm);
               var address := Wrap(s.regs[reqs[0].reg] + imm);
               && o.reg != XZR && g.r[o.reg] == address
               && ComputeMeaning.Operand0(l.regs[1]) && (l.regs[1] == XZR <==> reqs[1].reg == 0)
               && (!reqs[1].writeOnly ==> Get(g, l.regs[1]) == s.regs[reqs[1].reg])
               && Run(env, l.code + (o.code + (ValidateAccess(cfg, o.reg, n, w, a) + rest)), h)
                  == Run(env, if AccessChecked(s, address, w, a) then rest else After(rest, n), g)
  {
    hide Run, After, Valid, NoneLocked, Agree, FixedRegisters, Padded, Lock, Requested, LocksOnly, AllHeld, Junk,
      AddOffset, ValidateAccess, Permitted, Wrap, OnlyScratch;
    var l := Lock(c, reqs);
    LockAll(c, reqs);
    var o := AddOffset(cfg, l.regs[0], A_REG, imm);
    var check := ValidateAccess(cfg, o.reg, n, w, a);
    var g1 := LockRun(env, cfg, c, reqs, o.code + (check + rest), h, s);
    FixedIsReady(env, cfg, s.mem.size, g1);
    var g2 := AddressRun(env, cfg, l.regs[0], imm, check + rest, g1);
    ScratchKeeps(env, cfg, s.mem.size, l.cache, g1, g2, s.regs, Junk(reqs));
    SameMem(g1, g2);
    g := AccessMeaning.ValidateMeaning(env, cfg, o.reg, n, w, a, rest, g2);
    CheckIsScratch(g2, g);
    ScratchKeeps(env, cfg, s.mem.size, l.cache, g2, g, s.regs, Junk(reqs));
    SameMem(g2, g);
    ScratchTwice(g1, g2, g);
    ScratchKeepsOperand(g1, g, l.regs[1]);
    assert reqs[0].reg == 0 || !reqs[0].writeOnly;
  }

  lemma SameMem(h: Host, g: Host)
    requires OnlyScratch(h, g)
    ensures g.mem == h.mem
  {
  }

  /** A load to a register other than x0: the value in memory, or the fault exit with the
      registers as they were, though the destination was locked for writing by then. */
  lemma LoadMeaning(env: Env, cfg: Config, c: Cache, n: Label, i: Instruction, rest: Code, h: Host, s: Machine)
    returns (g: Host)
    requires Sim(env, cfg, c, h, s) && i.op.Load? && i.rd != 0
             && Resolves(cfg, rest, LoadPiece(cfg, c, n, s.Pc(), i).exits)
    ensures var p := LoadPiece(cfg, c, n, s.Pc(), i);
            var o := Run(env, p.code + rest, h);
            if AccessChecked(s, Wrap(s.regs[i.rs1] + i.imm), LoadWidth(i.op.load), ReadAccess) then
              p.goesOn && o == Run(env, rest, g) && Sim(env, cfg, p.cache, g, Loaded(i, s))
            else Leaves(env, o, s.regs, s.mem, s.Pc(), ArchReadFault)
  {
    hide Run, After, Valid, NoneLocked, Agree, FixedRegisters, Padded, Lock, Requested, LocksOnly, AllHeld, Junk,
      AddOffset, ValidateAccess, Permitted, Wrap, Unlock, MayUnlockAll, Resolves, Leaves, TakeSnapshot, LoadWidth, Exec;
    g := h;
    var reqs, w := [ReadOf(i.rs1), WriteOnly(i.rd)], LoadWidth(i.op.load);
    var l := Lock(c, reqs);
    LockAll(c, reqs);
    var o := AddOffset(cfg, l.regs[0], A_REG, i.imm);
    var load := LdrMem(w, SignedLoad(i.op.load), l.regs[1], MEMORY_BASE, o.reg);
    var address := Wrap(s.regs[i.rs1] + i.imm);
    var f := AccessHead(env, cfg, c, reqs, n, w, ReadAccess, i.imm, [load] + rest, h, s);
    var check := ValidateAccess(cfg, o.reg, n, w, ReadAccess);
    assert (l.code + (o.code + (check + [load]))) + rest == l.code + (o.code + (check + ([load] + rest)));
    if AccessChecked(s, address, w, ReadAccess) {
      LoadExec(env, cfg, i, l.regs[1], o.reg, address, f, s);
      var v := LoadedValue(i, s);
      g := Put(f, l.regs[1], v);
      RunOne(env, load, rest, f);
      JunkIsWritten(reqs, i.rd);
      InstructionSimulation.PutComputes(f, l.regs[1], v);
      InstructionSimulation.WriteBack(env, cfg, c, reqs, f, g, s.regs, s.mem.size, v);
      UnlockOne(l.cache, l.regs[0]);
      assert l.regs[..1] == [l.regs[0]];
      AgreeSetPc(LoadPiece(cfg, c, n, s.Pc(), i).cache, g, s.regs[i.rd := v], {}, Wrap(s.Pc() + 4));
    } else {
      AfterSkips([load], rest, n);
      FixedIsReady(env, cfg, s.mem.size, f);
      TakeFault(env, cfg, rest, [FaultExit(l.cache, n, ReadAccess, s.Pc())], 0, l.cache, f, s.regs, Junk(reqs));
    }
  }

  lemma UnlockOne(c: Cache, n: HReg)
    requires Shape(c)
    ensures UnlockClean(c, [n]) == Unlock(c, n, false)
  {
    InstructionSimulation.UnlockNone(Unlock(c, n, false));
  }

  lemma LoadExec(env: Env, cfg: Config, i: Instruction, d: HReg, index: HReg, address: Word, f: Host, s: Machine)
    requires i.op.Load? && i.rd != 0 && ValidMem(s.mem) && FixedRegisters(env, cfg, s.mem.size, f) && f.mem == s.mem
    requires index != XZR && f.r[index] == address == Wrap(s.regs[i.rs1] + i.imm)
    requires Permitted(s.mem, address, LoadWidth(i.op.load), ReadAccess)
    ensures Exec(env, LdrMem(LoadWidth(i.op.load), SignedLoad(i.op.load), d, MEMORY_BASE, index), f)
         == Some(Put(f, d, LoadedValue(i, s)))
  {
    hide LoadLE, SignExtend, HasFlag;
  }

  /** A store: the bytes written, or the fault exit with nothing changed. */
  lemma StoreMeaning(env: Env, cfg: Config, c: Cache, n: Label, i: Instruction, rest: Code, h: Host, s: Machine)
    returns (g: Host)
    requires Sim(env, cfg, c, h, s) && i.op.Store? && Resolves(cfg, rest, StorePiece(cfg, c, n, s.Pc(), i).exits)
    ensures var p := StorePiece(cfg, c, n, s.Pc(), i);
            var o := Run(env, p.code + rest, h);
            if AccessChecked(s, Wrap(s.regs[i.rs1] + i.imm), StoreWidth(i.op.store), WriteAccess) then
              p.goesOn && o == Run(env, rest, g) && Sim(env, cfg, p.cache, g, Stored(i, s))
            else Leaves(env, o, s.regs, s.mem, s.Pc(), ArchWriteFault)
  {
    hide Run, After, Valid, NoneLocked, Agree, FixedRegisters, Padded, Lock, Requested, LocksOnly, AllHeld, Junk,
      AddOffset, ValidateAccess, Permitted, Wrap, UnlockClean, MayUnlockAll, Resolves, Leaves, TakeSnapshot, StoreWidth,
      Exec;
    g := h;
    var reqs, w := [ReadOf(i.rs1), ReadOf(i.rs2)], StoreWidth(i.op.store);
    var l := Lock(c, reqs);
    LockAll(c, reqs);
    var o := AddOffset(cfg, l.regs[0], A_REG, i.imm);
    var store := StrMem(w, l.regs[1], MEMORY_BASE, o.reg);
    var address := Wrap(s.regs[i.rs1] + i.imm);
    var f := AccessHead(env, cfg, c, reqs, n, w, WriteAccess, i.imm, [store] + rest, h, s);
    ReadsHaveNoJunk(i.rs1, i.rs2);
    var check := ValidateAccess(cfg, o.reg, n, w, WriteAccess);
    assert (l.code + (o.code + (check + [store]))) + rest == l.code + (o.code + (check + ([store] + rest)));
    if AccessChecked(s, address, w, WriteAccess) {
      g := StoreExec(env, cfg, i, l.regs[1], o.reg, address, f, s);
      RunOne(env, store, rest, f);
      OtherMem(env, cfg, l.cache, f, g, s.regs, s.mem.size);
      ReadBack(env, cfg, c, i.rs1, i.rs2, g, s, Stored(i, s));
    } else {
      AfterSkips([store], rest, n);
      FixedIsReady(env, cfg, s.mem.size, f);
      TakeFault(env, cfg, rest, [FaultExit(l.cache, n, WriteAccess, s.Pc())], 0, l.cache, f, s.regs, {});
    }
  }

  lemma OtherMem(env: Env, cfg: Config, c: Cache, f: Host, g: Host, x: Registers, size: nat)
    requires Shape(c) && g.r == f.r && g.table == f.table && Agree(c, f, x, {}) && FixedRegisters(env, cfg, size, f)
    ensures Agree(c, g, x, {}) && FixedRegisters(env, cfg, size, g)
  {
    var none: set<GuestReg> := {};
    forall r: GuestReg
      ensures AgreeAt(c, g, x, none, r)
    {
      assert AgreeAt(c, f, x, none, r);
    }
  }

  lemma StoreExec(env: Env, cfg: Config, i: Instruction, v: HReg, index: HReg, address: Word, f: Host, s: Machine)
    returns (g: Host)
    requires i.op.Store? && ValidMem(s.mem) && FixedRegisters(env, cfg, s.mem.size, f) && f.mem == s.mem
    requires index != XZR && f.r[index] == address == Wrap(s.regs[i.rs1] + i.imm) && Get(f, v) == s.regs[i.rs2]
    requires Permitted(s.mem, address, StoreWidth(i.op.store), WriteAccess)
    ensures Exec(env, StrMem(StoreWidth(i.op.store), v, MEMORY_BASE, index), f) == Some(g)
    ensures g.r == f.r && g.table == f.table && ValidMem(g.mem)
    ensures var t := Stored(i, s); t.regs == SetPc(s.regs, t.Pc()) && g.mem == t.mem && t.mem.size == s.mem.size
  {
    hide StoreLE, HasFlag;
    g := Exec(env, StrMem(StoreWidth(i.op.store), v, MEMORY_BASE, index), f).value;
  }
}
