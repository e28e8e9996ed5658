/** Where control goes at the end of a block: what each kind of branch does for every target. */
module BranchMeaning {
  import opened Words
  import opened Instructions
  import opened Memories
  import opened Interpreter
  import opened HostMachine
  import opened RegisterCaches
  import opened CacheMeaning
  import opened Translator
  import opened CodeMeaning
  import AccessMeaning
  import opened Labels

  /** Control has gone on at a guest pc with an entry in the block table: into its code when there is
      some, else out of the translated code to have it generated. The guest state is in the table. */
  ghost predicate Departs(env: Env, cfg: Config, o: Outcome, x: Registers, m: Mem, target: Word, pc: Word)
    requires target / 4 < |env.offsets|
  {
    if env.offsets[target / 4] == 0 then Leaves(env, o, x, m, pc, ArchBlockNotGenerated)
    else o.Jumped? && o.offset == env.offsets[target / 4] && InTable(o.host, x) && o.host.mem == m
         && EntryRegisters(env, cfg, m.size, o.host)
  }

  /** The host state a branch starts from. */
  ghost predicate Branching(env: Env, cfg: Config, c: Cache, h: Host, x: Registers) {
    Shape(c) && Valid(c) && Agree(c, h, x, {}) && FixedRegisters(env, cfg, h.mem.size, h) && EnvOk(env, cfg)
  }

  /** The exit for a label, taken once the guest state is in the table. */
  lemma TakeExit(env: Env, cfg: Config, rest: Code, exits: seq<PendingExit>, k: nat, h: Host, x: Registers)
    requires k < |exits| && Resolves(cfg, rest, exits) && exits[k].snapshot == NO_SNAPSHOT
    requires InTable(h, x) && h.r[BASE_PC] == cfg.basePc && Spared(env, h)
    ensures Leaves(env, Run(env, After(rest, exits[k].target), h), x, h.mem, StubPc(exits[k], h), exits[k].reason)
  {
    hide Run, After, StubBody, Leaves, InTable, StubPc;
    var stub, at := StubBody(cfg, exits[k]), After(rest, exits[k].target);
    assert stub <= at;
    assert at == stub + at[|stub|..];
    BareStubMeaning(env, cfg, exits[k], at[|stub|..], h, x);
  }

  /** The same from the cache the exit's snapshot was taken of. */
  lemma TakeFault(env: Env, cfg: Config, rest: Code, exits: seq<PendingExit>, k: nat, c: Cache, h: Host, x: Registers,
                  junk: set<GuestReg>)
    requires k < |exits| && Resolves(cfg, rest, exits)
    requires Shape(c) && Valid(c) && Agree(c, h, x, junk) && Ready(env, h) && h.r[BASE_PC] == cfg.basePc
             && Spared(env, h)
    requires exits[k].snapshot == TakeSnapshot(c)
    ensures Leaves(env, Run(env, After(rest, exits[k].target), h), x, h.mem, StubPc(exits[k], h), exits[k].reason)
  {
    hide Run, After, StubBody, Leaves, Valid, Agree, TakeSnapshot, StubPc;
    var stub, at := StubBody(cfg, exits[k]), After(rest, exits[k].target);
    assert stub <= at;
    assert at == stub + at[|stub|..];
    StubMeaning(env, cfg, exits[k], c, at[|stub|..], h, x, junk);
  }

  /** Flushing in the middle of a branch. */
  lemma FlushFirst(env: Env, cfg: Config, c: Cache, rest: Code, h: Host, x: Registers) returns (g: Host)
    requires Branching(env, cfg, c, h, x)
    ensures Run(env, Flush(TakeSnapshot(c)) + rest, h) == Run(env, rest, g)
    ensures InTable(g, x) && g.r == h.r && g.mem == h.mem && FixedRegisters(env, cfg, h.mem.size, g)
  {
    hide Run, Valid, Agree, Flush, TakeSnapshot, InTable;
    FlushMeaning(env, c, h, x, {});
    g := ExecAll(env, Flush(TakeSnapshot(c)), h).value;
    RunAll(env, Flush(TakeSnapshot(c)), rest, h);
  }

  /** The end of both kinds of branch. */
  lemma LookupAndGo(env: Env, cfg: Config, reg: HReg, exits: seq<PendingExit>, rest: Code, h: Host, x: Registers,
                    target: Word)
    requires InTable(h, x) && FixedRegisters(env, cfg, h.mem.size, h) && EnvOk(env, cfg)
    requires (reg == A_REG || reg == B_REG) && h.r[reg] == target && target % 4 == 0 && target / 4 < cfg.maxBlocks
    requires exits != [] && Resolves(cfg, rest, exits) && exits[0].snapshot == NO_SNAPSHOT
    requires exits[0].reason == ArchBlockNotGenerated && exits[0].pcRegister != reg
    ensures Departs(env, cfg, Run(env, ValidatedBranch(cfg, reg, exits[0].target) + rest, h), x, h.mem, target,
            StubPc(exits[0], h))
  {
    hide Run, After, ValidatedBranch, InTable, Resolves, Leaves;
    ValidatedBranchMeaning(env, cfg, reg, exits[0].target, rest, h, target / 4);
    var g := Put(h, reg, env.offsets[target / 4]);
    if env.offsets[target / 4] == 0 {
      SameTable(h, g, x);
      TakeExit(env, cfg, rest, exits, 0, g, x);
    } else {
      SameTable(h, Run(env, ValidatedBranch(cfg, reg, exits[0].target) + rest, h).host, x);
    }
  }

  lemma SameTable(h: Host, g: Host, x: Registers)
    requires InTable(h, x) && g.table == h.table
    ensures InTable(g, x)
  {
  }

  /** generate_static_branch, for every target: a misaligned one or one past the table leaves with the
      branch's own pc. */
  lemma StaticBranchMeaning(env: Env, cfg: Config, c: Cache, n: Label, target: Word, pc: Word, rest: Code, h: Host,
                            x: Registers)
    requires Branching(env, cfg, c, h, x)
    requires Resolves(cfg, rest, StaticBranch(cfg, c, n, target, A_REG, pc).exits)
    ensures var o := Run(env, StaticBranch(cfg, c, n, target, A_REG, pc).code + rest, h);
            if target % 4 != 0 then Leaves(env, o, x, h.mem, pc, ArchUnalignedPc)
            else if target / 4 >= cfg.maxBlocks then Leaves(env, o, x, h.mem, pc, ArchOutOfBoundsPc)
            else Departs(env, cfg, o, x, h.mem, target, target)
  {
    hide Run, Valid, Agree, Flush, TakeSnapshot, ValidatedBranch, InTable, Resolves, Leaves, ExitCode, LoadImmediate,
      ExecAll, Departs;
    if target % 4 != 0 {
      ExitMeaning(env, cfg, c, ArchUnalignedPc, pc, rest, h, x, {});
    } else if target / 4 >= cfg.maxBlocks {
      ExitMeaning(env, cfg, c, ArchOutOfBoundsPc, pc, rest, h, x, {});
    } else {
      var load, flush, go := LoadImmediate(cfg, A_REG, target), Flush(TakeSnapshot(c)), ValidatedBranch(cfg, A_REG, n);
      var exits := StaticBranch(cfg, c, n, target, A_REG, pc).exits;
      var h1 := Put(h, A_REG, target);
      assert (load + (flush + go)) + rest == load + (flush + (go + rest));
      LoadImmediateMeaning(env, cfg, A_REG, target, h);
      RunAll(env, load, flush + (go + rest), h);
      ScratchKeeps(env, cfg, h.mem.size, c, h, h1, x, {});
      var g := FlushFirst(env, cfg, c, go + rest, h1, x);
      LookupAndGo(env, cfg, A_REG, exits, rest, g, x, target);
    }
  }

  // ----- branches through a register -----

  function TargetTests(n: Label): Code {
    [TstImm(B_REG, 3), BCond(NotEqual, n + 1), CmpReg(true, B_REG, MAX_EXECUTABLE_PC), BCond(UnsignedGreaterEqual, n)]
  }

  /** A comparison and the branch on it. */
  lemma CompareAndBranch(env: Env, compare: HInstr, condition: Condition, l: Label, rest: Code, h: Host,
                         flags: (Word, Word))
    requires !Transfers(compare) && Exec(env, compare, h) == Some(h.(flags := flags))
    ensures Run(env, [compare, BCond(condition, l)] + rest, h)
         == Run(env, if Holds(condition, flags) then After(rest, l) else rest, h.(flags := flags))
  {
    hide Run, After, Exec, Holds;
    assert [compare, BCond(condition, l)] + rest == [compare] + ([BCond(condition, l)] + rest);
    RunOne(env, compare, [BCond(condition, l)] + rest, h);
    RunOne(env, BCond(condition, l), rest, h.(flags := flags));
  }

  lemma TargetTestsMeaning(env: Env, n: Label, rest: Code, h: Host) returns (g: Host)
    ensures g.r == h.r && g.table == h.table && g.mem == h.mem
    ensures Run(env, TargetTests(n) + rest, h)
         == if h.r[B_REG] % 4 != 0 then Run(env, After(rest, n + 1), g)
            else if h.r[B_REG] >= h.r[MAX_EXECUTABLE_PC] then Run(env, After(rest, n), g)
            else Run(env, rest, g)
  {
    hide Run, After, Bits;
    var t, limit := h.r[B_REG], h.r[MAX_EXECUTABLE_PC];
    var aligned := [TstImm(B_REG, 3), BCond(NotEqual, n + 1)];
    var bounded := [CmpReg(true, B_REG, MAX_EXECUTABLE_PC), BCond(UnsignedGreaterEqual, n)];
    assert TargetTests(n) + rest == aligned + (bounded + rest);
    AccessMeaning.LowMaskOf(t, 4);
    CompareAndBranch(env, TstImm(B_REG, 3), NotEqual, n + 1, bounded + rest, h, (t % 4, 0));
    AfterSkips(bounded, rest, n + 1);
    g := h.(flags := (t % 4, 0));
    if t % 4 == 0 {
      CompareAndBranch(env, CmpReg(true, B_REG, MAX_EXECUTABLE_PC), UnsignedGreaterEqual, n, rest, g, (t, limit));
      g := h.(flags := (t, limit));
    }
  }

  lemma ValidatedBranchNoBinds(cfg: Config, reg: HReg, n: Label, l: Label)
    ensures !Binds(ValidatedBranch(cfg, reg, n), l)
  {
  }

  lemma MaskedTarget(env: Env, from: HReg, h: Host)
    requires from != XZR
    ensures ExecAll(env, [BitImm(AndOp, B_REG, from, -2)], h) == Some(Put(h, B_REG, ClearLowBit(h.r[from])))
  {
    hide Bits;
    ClearMask(h.r[from]);
    ExecOne(env, BitImm(AndOp, B_REG, from, -2), h);
  }

  /** generate_dynamic_branch, for every value of the target register: the lowest bit is masked for the
      tests and the jump, but each exit reports the register as it is. */
  lemma DynamicBranchMeaning(env: Env, cfg: Config, c: Cache, n: Label, from: HReg, rest: Code, h: Host, x: Registers)
    requires Branching(env, cfg, c, h, x) && from != XZR && from != B_REG
    requires Resolves(cfg, rest, DynamicBranch(cfg, c, n, from, B_REG).exits)
    ensures var o := Run(env, DynamicBranch(cfg, c, n, from, B_REG).code + rest, h);
            var target := ClearLowBit(h.r[from]);
            if target % 4 != 0 then Leaves(env, o, x, h.mem, h.r[from], ArchUnalignedPc)
            else if target / 4 >= cfg.maxBlocks then Leaves(env, o, x, h.mem, h.r[from], ArchOutOfBoundsPc)
            else Departs(env, cfg, o, x, h.mem, target, h.r[from])
  {
    hide Run, After, Valid, Agree, Flush, TakeSnapshot, ValidatedBranch, InTable, Resolves, Leaves, ExecAll, Departs,
      TargetTests, ClearLowBit;
    var target := ClearLowBit(h.r[from]);
    var exits := DynamicBranch(cfg, c, n, from, B_REG).exits;
    var mask, flush, tests, go := [BitImm(AndOp, B_REG, from, -2)], Flush(TakeSnapshot(c)), TargetTests(n),
      ValidatedBranch(cfg, B_REG, n + 2);
    assert DynamicBranch(cfg, c, n, from, B_REG).code + rest == mask + (flush + (tests + (go + rest)))
      by { TestsCode(n); }
    MaskedTarget(env, from, h);
    RunAll(env, mask, flush + (tests + (go + rest)), h);
    var h1 := Put(h, B_REG, target);
    ScratchKeeps(env, cfg, h.mem.size, c, h, h1, x, {});
    var h2 := FlushFirst(env, cfg, c, tests + (go + rest), h1, x);
    var g := TargetTestsMeaning(env, n, go + rest, h2);
    SameTable(h2, g, x);
    ValidatedBranchNoBinds(cfg, B_REG, n + 2, n);
    ValidatedBranchNoBinds(cfg, B_REG, n + 2, n + 1);
    AfterSkips(go, rest, n);
    AfterSkips(go, rest, n + 1);
    if target % 4 != 0 {
      TakeExit(env, cfg, rest, exits, 2, g, x);
    } else if target / 4 >= cfg.maxBlocks {
      TakeExit(env, cfg, rest, exits, 1, g, x);
    } else {
      LookupAndGo(env, cfg, B_REG, exits, rest, g, x, target);
    }
  }

  lemma TestsCode(n: Label)
    ensures TargetTests(n) == [TstImm(B_REG, 3), BCond(NotEqual, n + 1), CmpReg(true, B_REG, MAX_EXECUTABLE_PC),
            BCond(UnsignedGreaterEqual, n)]
  {
  }
}
