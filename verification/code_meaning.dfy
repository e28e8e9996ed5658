/** What the pieces of emitted code shared by many instructions do when they run. */
module CodeMeaning {
  import opened Words
  import opened Instructions
  import opened Memories
  import opened Interpreter
  import opened HostMachine
  import opened RegisterCaches
  import opened CacheMeaning
  import opened Translator

  // ----- registers that hold what the trampoline passed in -----

  /** The reserved registers are as the trampoline left them. */
  ghost predicate Spared(env: Env, h: Host) {
    h.r[RETURN] == env.returnTo && h.r[FRAME] == env.frame && h.r[PLATFORM] == env.platform
  }

  ghost predicate EntryRegisters(env: Env, cfg: Config, size: nat, h: Host) {
    && Spared(env, h)
    && h.r[REGISTER_STATE] == env.statePtr && h.r[MEMORY_BASE] == env.memBase
    && h.r[PERMISSIONS_BASE] == env.permBase && h.r[MEMORY_SIZE] == size
    && h.r[BLOCK_BASE] == env.blockBase && h.r[MAX_EXECUTABLE_PC] == 4 * cfg.maxBlocks
    && h.r[CODE_BASE] == env.codeBase
  }

  ghost predicate FixedRegisters(env: Env, cfg: Config, size: nat, h: Host) {
    EntryRegisters(env, cfg, size, h) && h.r[BASE_PC] == cfg.basePc
  }

  /** The block table has an entry for each block and lies within the address space. */
  ghost predicate EnvOk(env: Env, cfg: Config) {
    |env.offsets| == cfg.maxBlocks && env.blockBase + 4 * cfg.maxBlocks < TWO64
  }

  // ----- frames -----

  ghost predicate OnlyRegister(h: Host, g: Host, d: HReg) {
    && g.table == h.table && g.mem == h.mem && g.flags == h.flags
    && forall n: HReg :: n != d ==> g.r[n] == h.r[n]
  }

  /** Only the scratch registers and flags changed. */
  ghost predicate OnlyScratch(h: Host, g: Host) {
    && g.table == h.table && g.mem == h.mem
    && forall n: HReg :: n != A_REG && n != B_REG && n != C_REG ==> g.r[n] == h.r[n]
  }

  lemma ScratchKeeps(env: Env, cfg: Config, size: nat, c: Cache, h: Host, g: Host, x: Registers, junk: set<GuestReg>)
    requires Shape(c) && OnlyScratch(h, g)
    ensures Agree(c, h, x, junk) ==> Agree(c, g, x, junk)
    ensures FixedRegisters(env, cfg, size, h) ==> FixedRegisters(env, cfg, size, g)
  {
    if Agree(c, h, x, junk) {
      forall r: GuestReg
        ensures AgreeAt(c, g, x, junk, r)
      {
        assert AgreeAt(c, h, x, junk, r);
        if c.toSlot[r] != NONE {
          CacheRegInverse(c.toSlot[r]);
        }
      }
    }
  }

  // ----- immediates -----

  lemma SignedCongruent(v: Word, base: Word)
    ensures Wrap(base + (Signed(v) - Signed(base))) == v
  {
    var k := (if v < TWO63 then 0 else -1) - (if base < TWO63 then 0 else -1);
    WrapCongruent(base + (Signed(v) - Signed(base)), v, k);
  }

  lemma LoadImmediateMeaning(env: Env, cfg: Config, d: HReg, v: Word, h: Host)
    requires d != XZR && h.r[BASE_PC] == cfg.basePc
    ensures ExecAll(env, LoadImmediate(cfg, d, v), h) == Some(Put(h, d, v))
  {
    var offset := Signed(v) - Signed(cfg.basePc);
    SignedCongruent(v, cfg.basePc);
    ExecOne(env, AddImm(d, BASE_PC, offset), h);
    ExecOne(env, MovImm(d, v), h);
  }

  lemma AddOffsetMeaning(env: Env, cfg: Config, value: HReg, scratch: HReg, offset: int, h: Host)
    requires scratch != XZR && scratch != value && scratch != BASE_PC && h.r[BASE_PC] == cfg.basePc
    ensures var o := AddOffset(cfg, value, scratch, offset);
            ExecAll(env, o.code, h).Some? && o.reg != XZR && (o.reg == value || o.reg == scratch)
            && var g := ExecAll(env, o.code, h).value;
               OnlyRegister(h, g, scratch) && g.r[o.reg] == Wrap(Get(h, value) + offset)
  {
    if value == XZR {
      LoadImmediateMeaning(env, cfg, scratch, Wrap(offset), h);
    } else if offset == 0 {
    } else if offset in cfg.addImms {
      ExecOne(env, AddImm(scratch, value, offset), h);
    } else {
      LoadImmediateMeaning(env, cfg, scratch, Wrap(offset), h);
      var add := Alu(AddX, scratch, value, scratch);
      var g := Put(h, scratch, Wrap(offset));
      ExecAllAppend(env, LoadImmediate(cfg, scratch, Wrap(offset)), [add], h);
      ExecOne(env, add, g);
      WrapAdd(Get(h, value), offset);
    }
  }

  // ----- leaving to the trampoline -----

  lemma ExitTailMeaning(env: Env, cfg: Config, reason: ArchExit, rest: Code, h: Host)
    requires h.r[BASE_PC] == cfg.basePc && Spared(env, h)
    ensures Run(env, ExitTail(cfg, reason) + rest, h) == Returned(Put(h, EXIT_REASON, ArchCode(reason)))
  {
    hide ArchCode, Run;
    var load := LoadImmediate(cfg, EXIT_REASON, ArchCode(reason));
    LoadImmediateMeaning(env, cfg, EXIT_REASON, ArchCode(reason), h);
    assert ExitTail(cfg, reason) + rest == load + ([Ret] + rest);
    RunAll(env, load, [Ret] + rest, h);
    RunOne(env, Ret, rest, Put(h, EXIT_REASON, ArchCode(reason)));
  }

  /** The state an exit hands back: all guest registers in the table, pc and reason in X1 and X0. */
  ghost predicate Leaves(env: Env, o: Outcome, x: Registers, m: Mem, pc: Word, reason: ArchExit) {
    o.Returned? && Spared(env, o.host) && InTable(o.host, x) && o.host.mem == m && o.host.r[EXIT_PC] == pc
      && o.host.r[EXIT_REASON] == ArchCode(reason)
  }

  lemma ExitWithPc(env: Env, cfg: Config, pcCode: Code, pc: Word, reason: ArchExit, rest: Code, h: Host, x: Registers)
    requires h.r[BASE_PC] == cfg.basePc && Spared(env, h) && InTable(h, x)
             && ExecAll(env, pcCode, h) == Some(Put(h, EXIT_PC, pc))
    ensures Leaves(env, Run(env, (pcCode + ExitTail(cfg, reason)) + rest, h), x, h.mem, pc, reason)
  {
    hide ArchCode, Run, ExitTail, ExecAll, Exec;
    assert (pcCode + ExitTail(cfg, reason)) + rest == pcCode + (ExitTail(cfg, reason) + rest);
    RunAll(env, pcCode, ExitTail(cfg, reason) + rest, h);
    ExitTailMeaning(env, cfg, reason, rest, Put(h, EXIT_PC, pc));
  }

  /** generate_exit: the whole guest state is handed back whatever the cache holds. */
  lemma ExitMeaning(env: Env, cfg: Config, c: Cache, reason: ArchExit, pc: Word, rest: Code, h: Host, x: Registers,
                    junk: set<GuestReg>)
    requires Shape(c) && Valid(c) && Agree(c, h, x, junk) && Ready(env, h) && h.r[BASE_PC] == cfg.basePc
             && Spared(env, h)
    ensures Leaves(env, Run(env, ExitCode(cfg, c, reason, pc) + rest, h), x, h.mem, pc, reason)
  {
    hide Valid, Agree, Run, ExitTail, Flush, TakeSnapshot, Leaves, Exec;
    var flush := Flush(TakeSnapshot(c));
    var tail := LoadImmediate(cfg, EXIT_PC, pc) + ExitTail(cfg, reason);
    FlushMeaning(env, c, h, x, junk);
    var g := ExecAll(env, flush, h).value;
    assert ExitCode(cfg, c, reason, pc) + rest == flush + (tail + rest);
    RunAll(env, flush, tail + rest, h);
    LoadImmediateMeaning(env, cfg, EXIT_PC, pc, g);
    ExitWithPc(env, cfg, LoadImmediate(cfg, EXIT_PC, pc), pc, reason, rest, g, x);
  }

  function StubPc(e: PendingExit, h: Host): Word {
    if e.pcRegister != XZR then h.r[e.pcRegister] else e.pcValue
  }

  /** A stub whose snapshot was taken of the cache as it was at the branch to it hands back the guest
      registers of that moment, wherever it was emitted. */
  lemma StubMeaning(env: Env, cfg: Config, e: PendingExit, c: Cache, rest: Code, h: Host, x: Registers,
                    junk: set<GuestReg>)
    requires Shape(c) && Valid(c) && Agree(c, h, x, junk) && Ready(env, h) && h.r[BASE_PC] == cfg.basePc
             && Spared(env, h)
    requires e.snapshot == TakeSnapshot(c)
    ensures Leaves(env, Run(env, StubBody(cfg, e) + rest, h), x, h.mem, StubPc(e, h), e.reason)
  {
    hide Valid, Agree, Flush, TakeSnapshot;
    FlushMeaning(env, c, h, x, junk);
    StubAfterFlush(env, cfg, e, rest, h, x);
  }

  lemma StubAfterFlush(env: Env, cfg: Config, e: PendingExit, rest: Code, h: Host, x: Registers)
    requires h.r[BASE_PC] == cfg.basePc && Spared(env, h)
    requires ExecAll(env, Flush(e.snapshot), h).Some?
    requires var g := ExecAll(env, Flush(e.snapshot), h).value; g.r == h.r && g.mem == h.mem && InTable(g, x)
    ensures Leaves(env, Run(env, StubBody(cfg, e) + rest, h), x, h.mem, StubPc(e, h), e.reason)
  {
    hide Run, ExitTail, Flush, Leaves, Exec, InTable;
    var flush := Flush(e.snapshot);
    var pcCode := if e.pcRegister != XZR then [MovReg(EXIT_PC, e.pcRegister)]
      else LoadImmediate(cfg, EXIT_PC, e.pcValue);
    var tail := pcCode + ExitTail(cfg, e.reason);
    var g := ExecAll(env, flush, h).value;
    assert StubBody(cfg, e) + rest == flush + (tail + rest);
    RunAll(env, flush, tail + rest, h);
    StubPcCode(env, cfg, e, g);
    ExitWithPc(env, cfg, pcCode, StubPc(e, h), e.reason, rest, g, x);
  }

  lemma StubPcCode(env: Env, cfg: Config, e: PendingExit, g: Host)
    requires g.r[BASE_PC] == cfg.basePc
    ensures var pcCode := if e.pcRegister != XZR then [MovReg(EXIT_PC, e.pcRegister)]
            else LoadImmediate(cfg, EXIT_PC, e.pcValue);
            ExecAll(env, pcCode, g) == Some(Put(g, EXIT_PC, StubPc(e, g)))
  {
    ExecOne(env, MovReg(EXIT_PC, e.pcRegister), g);
    LoadImmediateMeaning(env, cfg, EXIT_PC, e.pcValue, g);
  }

  lemma {:induction false} NoFlush(i: nat)
    requires i <= CACHE_SIZE
    ensures FlushFrom(NO_SNAPSHOT, i) == []
    decreases CACHE_SIZE - i
  {
    if i < CACHE_SIZE {
      NoFlush(i + 1);
      NothingSnapped(i);
    }
  }

  lemma NothingSnapped(i: SlotId)
    ensures NO_SNAPSHOT[i] == 0
  {
  }

  /** A stub without a snapshot, reached after a flush. */
  lemma BareStubMeaning(env: Env, cfg: Config, e: PendingExit, rest: Code, h: Host, x: Registers)
    requires InTable(h, x) && h.r[BASE_PC] == cfg.basePc && Spared(env, h) && e.snapshot == NO_SNAPSHOT
    ensures Leaves(env, Run(env, StubBody(cfg, e) + rest, h), x, h.mem, StubPc(e, h), e.reason)
  {
    hide InTable, Leaves, Run;
    NoFlush(0);
    StubAfterFlush(env, cfg, e, rest, h, x);
  }

  // ----- branches through the block table -----

  function LookupCode(cfg: Config, reg: HReg): Code {
    if cfg.multithreaded then [Alu(AddX, reg, BLOCK_BASE, reg), LdarBlock(reg, reg)]
      else [LdrBlock(reg, BLOCK_BASE, reg)]
  }

  lemma LookupMeaning(env: Env, cfg: Config, reg: HReg, h: Host, block: nat)
    requires EnvOk(env, cfg) && (reg == A_REG || reg == B_REG) && h.r[BLOCK_BASE] == env.blockBase
    requires block < cfg.maxBlocks && h.r[reg] == 4 * block
    ensures ExecAll(env, LookupCode(cfg, reg), h) == Some(Put(h, reg, env.offsets[block]))
  {
    EntryAt(env, h, reg, block);
    if cfg.multithreaded {
      AddedAddress(env, reg, h, block);
      var g := Put(h, reg, env.blockBase + 4 * block);
      ExecTwo(env, Alu(AddX, reg, BLOCK_BASE, reg), LdarBlock(reg, reg), h);
      EntryAt(env, g, reg, block);
      assert Put(g, reg, env.offsets[block]) == Put(h, reg, env.offsets[block]);
    } else {
      ExecOne(env, LdrBlock(reg, BLOCK_BASE, reg), h);
    }
  }

  lemma EntryAt(env: Env, h: Host, reg: HReg, block: nat)
    requires block < |env.offsets|
    ensures BlockEntry(env, 4 * block, h, reg) == Some(Put(h, reg, env.offsets[block]))
  {
  }

  lemma AddedAddress(env: Env, reg: HReg, h: Host, block: nat)
    requires reg == A_REG || reg == B_REG
    requires h.r[BLOCK_BASE] == env.blockBase && h.r[reg] == 4 * block && env.blockBase + 4 * block < TWO64
    ensures Exec(env, Alu(AddX, reg, BLOCK_BASE, reg), h) == Some(Put(h, reg, env.blockBase + 4 * block))
  {
  }

  /** Reading the table at a block's entry, then jumping there or falling to the label. */
  lemma ValidatedBranchMeaning(env: Env, cfg: Config, reg: HReg, noBlock: Label, rest: Code, h: Host, block: nat)
    requires EnvOk(env, cfg) && (reg == A_REG || reg == B_REG)
    requires h.r[BLOCK_BASE] == env.blockBase && h.r[CODE_BASE] == env.codeBase
    requires block < cfg.maxBlocks && h.r[reg] == 4 * block
    ensures var o := Run(env, ValidatedBranch(cfg, reg, noBlock) + rest, h);
            var g := Put(h, reg, env.offsets[block]);
            if env.offsets[block] == 0 then o == Run(env, After(rest, noBlock), g)
            else o.Jumped? && o.offset == env.offsets[block] && OnlyScratch(h, o.host)
  {
    hide Run, After, ExecAll;
    var g := Put(h, reg, env.offsets[block]);
    var jump := [Alu(AddX, reg, CODE_BASE, reg), Br(reg)];
    LookupMeaning(env, cfg, reg, h, block);
    assert ValidatedBranch(cfg, reg, noBlock) + rest == LookupCode(cfg, reg) + ([Cbz(reg, noBlock)] + (jump + rest));
    RunAll(env, LookupCode(cfg, reg), [Cbz(reg, noBlock)] + (jump + rest), h);
    RunOne(env, Cbz(reg, noBlock), jump + rest, g);
    AfterSkips(jump, rest, noBlock);
    JumpMeaning(env, reg, rest, g, env.offsets[block]);
  }

  lemma JumpMeaning(env: Env, reg: HReg, rest: Code, g: Host, offset: Word)
    requires (reg == A_REG || reg == B_REG) && g.r[CODE_BASE] == env.codeBase && g.r[reg] == offset
    ensures var o := Run(env, [Alu(AddX, reg, CODE_BASE, reg), Br(reg)] + rest, g);
            o.Jumped? && o.offset == offset && OnlyScratch(g, o.host)
  {
    hide Run, Bits;
    var add := Alu(AddX, reg, CODE_BASE, reg);
    var f := Put(g, reg, Wrap(env.codeBase + offset));
    assert [add, Br(reg)] + rest == [add] + ([Br(reg)] + rest);
    RunOne(env, add, [Br(reg)] + rest, g);
    RunOne(env, Br(reg), rest, f);
    JumpDistance(env.codeBase, offset);
  }

  lemma JumpDistance(base: Word, offset: Word)
    ensures Wrap(Wrap(base + offset) - base) == offset
  {
  }
}
