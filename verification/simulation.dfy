/** How host states stand for guest machines between two translated instructions. */
module Simulation {
  import opened Words
  import opened Instructions
  import opened Memories
  import opened Interpreter
  import opened HostMachine
  import opened RegisterCaches
  import CacheProperties
  import opened CacheMeaning
  import opened Translator
  import TranslationChecks
  import opened CodeMeaning
  import BranchMeaning
  import ComputeMeaning

  /** Host state h, between two instructions translated with cache c, stands for guest machine s. */
  ghost predicate Sim(env: Env, cfg: Config, c: Cache, h: Host, s: Machine) {
    && TranslationChecks.Idle(c) && Agree(c, h, s.regs, {}) && FixedRegisters(env, cfg, s.mem.size, h)
    && h.mem == s.mem && ValidMem(s.mem) && EnvOk(env, cfg) && !cfg.skipPermissionChecks
  }

  predicate InRange(cfg: Config, pc: Word) {
    pc % 4 == 0 && pc / 4 < cfg.maxBlocks
  }

  predicate AccessChecked(s: Machine, address: Word, w: nat, a: Access)
    requires |s.mem.perms| >= s.mem.size && w != 0
  {
    address % w == 0 && Permitted(s.mem, address, w, a)
  }

  // ----- small steps shared below -----

  lemma AgreeSetPc(c: Cache, h: Host, x: Registers, junk: set<GuestReg>, pc: Word)
    requires Shape(c) && Agree(c, h, x, junk)
    ensures Agree(c, h, SetPc(x, pc), junk)
  {
    forall r: GuestReg
      ensures AgreeAt(c, h, SetPc(x, pc), junk, r)
    {
      assert AgreeAt(c, h, x, junk, r);
    }
  }

  lemma TableSetPc(h: Host, x: Registers, pc: Word)
    ensures InTable(h, SetPc(x, pc)) <==> InTable(h, x)
  {
    forall r: GuestReg
      ensures SetPc(x, pc)[r] == x[r]
    {
    }
  }

  lemma LeavesSetPc(env: Env, o: Outcome, x: Registers, m: Mem, v: Word, pc: Word, r: ArchExit)
    ensures Leaves(env, o, SetPc(x, v), m, pc, r) <==> Leaves(env, o, x, m, pc, r)
  {
    hide InTable;
    if o.Returned? {
      TableSetPc(o.host, x, v);
    }
  }

  lemma DepartsSetPc(env: Env, cfg: Config, o: Outcome, x: Registers, m: Mem, v: Word, target: Word, pc: Word)
    requires target / 4 < |env.offsets|
    ensures BranchMeaning.Departs(env, cfg, o, SetPc(x, v), m, target, pc)
            <==> BranchMeaning.Departs(env, cfg, o, x, m, target, pc)
  {
    hide InTable, Leaves;
    LeavesSetPc(env, o, x, m, v, pc, ArchBlockNotGenerated);
    if o.Jumped? {
      TableSetPc(o.host, x, v);
    }
  }

  /** Code that only touched cache registers and the table leaves the fixed registers alone. */
  lemma CacheOnlyKeeps(env: Env, cfg: Config, size: nat, h: Host, g: Host)
    requires CacheOnly(h, g) && FixedRegisters(env, cfg, size, h)
    ensures FixedRegisters(env, cfg, size, g)
  {
  }

  // ----- releasing locks -----

  lemma {:induction false} UnlockCleanAgrees(c: Cache, ns: seq<HReg>, h: Host, x: Registers, junk: set<GuestReg>)
    requires Shape(c) && Agree(c, h, x, junk)
    ensures Agree(UnlockClean(c, ns), h, x, junk)
    decreases |ns|
  {
    if ns != [] {
      hide Agree, Unlock;
      UnlockAgrees(c, ns[0], h, x, junk);
      UnlockCleanAgrees(Unlock(c, ns[0], false), ns[1..], h, x, junk);
    }
  }

  /** The lock at the start of an instruction, at run time. */
  lemma LockRun(env: Env, cfg: Config, c: Cache, reqs: seq<Request>, rest: Code, h: Host, s: Machine) returns (g: Host)
    requires Sim(env, cfg, c, h, s) && |reqs| <= CACHE_SIZE
    ensures var l := Lock(c, reqs);
            TranslationChecks.LockedFor(c, reqs, l) && Run(env, l.code + rest, h) == Run(env, rest, g)
            && Agree(l.cache, g, s.regs, Junk(reqs)) && FixedRegisters(env, cfg, s.mem.size, g) && g.mem == s.mem
            && (forall k :: 0 <= k < |reqs| && (reqs[k].reg == 0 || !reqs[k].writeOnly) ==>
               Get(g, l.regs[k]) == s.regs[reqs[k].reg])
            && forall k :: 0 <= k < |reqs| ==>
                 ComputeMeaning.Operand0(l.regs[k]) && (l.regs[k] == XZR <==> reqs[k].reg == 0)
  {
    hide Run, Lock, Valid, Agree, FixedRegisters, Requested, CacheProperties.LocksOnly, NoneLocked, Reads,
      CacheProperties.HeldBy;
    var l := Lock(c, reqs);
    TranslationChecks.LockAll(c, reqs);
    FixedIsReady(env, cfg, s.mem.size, h);
    LockKeepsView(env, c, reqs, h, s.regs, {});
    assert {} + Junk(reqs) == Junk(reqs);
    g := ExecAll(env, l.code, h).value;
    RunAll(env, l.code, rest, h);
    CacheOnlyKeeps(env, cfg, s.mem.size, h, g);
    forall k | 0 <= k < |reqs|
      ensures reqs[k].reg == 0 || !reqs[k].writeOnly ==> Get(g, l.regs[k]) == s.regs[reqs[k].reg]
      ensures ComputeMeaning.Operand0(l.regs[k]) && (l.regs[k] == XZR <==> reqs[k].reg == 0)
    {
      HeldRegister(l.cache, reqs[k].reg, l.regs[k]);
      if reqs[k].reg == 0 || !reqs[k].writeOnly {
        ReadsAreNotJunk(reqs, k);
        GivenValue(l.cache, g, s.regs, Junk(reqs), reqs[k].reg, l.regs[k]);
      }
    }
  }

  lemma FixedIsReady(env: Env, cfg: Config, size: nat, h: Host)
    requires FixedRegisters(env, cfg, size, h)
    ensures Ready(env, h) && h.r[BASE_PC] == cfg.basePc && Spared(env, h)
  {
  }

  lemma HeldRegister(c: Cache, r: GuestReg, n: HReg)
    requires Shape(c) && CacheProperties.HeldBy(c, r, n)
    ensures ComputeMeaning.Operand0(n) && (n == XZR <==> r == 0)
  {
    if r != 0 {
      CacheRegInverse(c.toSlot[r]);
    }
  }

  lemma ReadsAreNotJunk(reqs: seq<Request>, k: nat)
    requires k < |reqs| && (reqs[k].reg == 0 || !reqs[k].writeOnly)
    ensures reqs[k].reg !in Junk(reqs)
  {
    assert reqs[k] in reqs;
  }

  lemma JunkIsWritten(reqs: seq<Request>, rd: GuestReg)
    requires forall q :: q in reqs && q.writeOnly ==> q.reg == rd
    ensures Junk(reqs) <= {rd}
  {
  }
}
