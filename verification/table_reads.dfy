/** How translated code reads the block table: by a plain load or by one with acquire, as the flag of the code
    buffer says, and never otherwise. */
module TableReads {
  import opened Words
  import opened Instructions
  import opened Memories
  import opened Interpreter
  import opened HostMachine
  import opened RegisterCaches
  import opened Translator
  import opened CodeLayout

  predicate ReadsTable(i: HInstr) { i.LdrBlock? || i.LdarBlock? }

  /** A table read is of the form the flag asks for. */
  predicate Ordered(multithreaded: bool, i: HInstr) {
    (i.LdrBlock? ==> !multithreaded) && (i.LdarBlock? ==> multithreaded)
  }

  predicate AllOrdered(multithreaded: bool, code: Code) {
    forall k :: 0 <= k < |code| ==> Ordered(multithreaded, code[k])
  }

  lemma OrderedAdds(multithreaded: bool)
    ensures forall a: Code, b: Code ::
              AllOrdered(multithreaded, a + b) <==> AllOrdered(multithreaded, a) && AllOrdered(multithreaded, b)
  {
    forall a: Code, b: Code
      ensures AllOrdered(multithreaded, a + b) <==> AllOrdered(multithreaded, a) && AllOrdered(multithreaded, b)
    {
      OrderedAppend(multithreaded, a, b);
    }
  }

  lemma OrderedAppend(multithreaded: bool, a: Code, b: Code)
    ensures AllOrdered(multithreaded, a + b) <==> AllOrdered(multithreaded, a) && AllOrdered(multithreaded, b)
  {
    if AllOrdered(multithreaded, a + b) {
      assert forall k :: 0 <= k < |a| ==> a[k] == (a + b)[k];
      assert forall k :: 0 <= k < |b| ==> b[k] == (a + b)[|a| + k];
    }
  }

  // ----- the cache's loads and stores -----

  lemma {:induction false} EvictOrdered(mt: bool, c: Cache, order: seq<SlotId>, count: nat)
    requires Shape(c) && count <= |order|
    ensures AllOrdered(mt, EvictLast(c, order, count).code)
    decreases count
  {
    hide EvictSlot;
    if count > 0 {
      EvictOrdered(mt, EvictSlot(c, order[|order| - 1]), order[..|order| - 1], count - 1);
    }
  }

  lemma {:induction false} FillOrdered(mt: bool, c: Cache, reqs: seq<Request>, wanted: set<GuestReg>)
    requires Shape(c)
    ensures AllOrdered(mt, LockEach(c, reqs, wanted).code)
    decreases |reqs|
  {
    hide UseSlot, AssignSlot;
    if reqs != [] {
      var r := reqs[0].reg;
      if r == 0 {
        FillOrdered(mt, c, reqs[1..], wanted);
      } else if c.toSlot[r] != NONE {
        FillOrdered(mt, UseSlot(c, r), reqs[1..], wanted);
      } else if c.free != [] {
        FillOrdered(mt, AssignSlot(c, r), reqs[1..], wanted);
      }
    }
  }

  lemma LockOrdered(mt: bool, c: Cache, reqs: seq<Request>)
    requires Shape(c)
    ensures AllOrdered(mt, Lock(c, reqs).code)
  {
    hide LockEach, MarkCached, AvailableFrom, SortByUse, EvictLast, Shortage, AllOrdered;
    var marked := MarkCached(c, reqs);
    NothingOrdered(mt);
    OrderedAdds(mt);
    if Shortage(c, reqs) <= |EvictionOrder(marked.slots)| {
      EvictOrdered(mt, marked, EvictionOrder(marked.slots), Shortage(c, reqs));
    }
    FillOrdered(mt, Reserve(c, reqs).cache, reqs, Reads(reqs));
  }

  lemma NothingOrdered(mt: bool)
    ensures AllOrdered(mt, [])
  {
  }

  lemma {:induction false} FlushOrdered(mt: bool, s: Snapshot, i: nat)
    requires i <= CACHE_SIZE
    ensures AllOrdered(mt, FlushFrom(s, i))
    decreases CACHE_SIZE - i
  {
    if i < CACHE_SIZE {
      FlushOrdered(mt, s, i + 1);
    }
  }

  // ----- the pieces -----

  lemma ExitOrdered(mt: bool, cfg: Config, c: Cache, r: ArchExit, pc: Word)
    requires Shape(c)
    ensures AllOrdered(mt, ExitCode(cfg, c, r, pc))
  {
    hide TakeSnapshot, FlushFrom;
    FlushOrdered(mt, TakeSnapshot(c), 0);
  }

  lemma {:induction false} StubsOrdered(mt: bool, cfg: Config, exits: seq<PendingExit>)
    ensures AllOrdered(mt, Stubs(cfg, exits))
  {
    if exits != [] {
      hide StubBody;
      StubOrdered(mt, cfg, exits[0]);
      StubsOrdered(mt, cfg, exits[1..]);
    }
  }

  lemma StubOrdered(mt: bool, cfg: Config, e: PendingExit)
    ensures AllOrdered(mt, StubBody(cfg, e))
  {
    hide FlushFrom;
    FlushOrdered(mt, e.snapshot, 0);
  }

  lemma ValidatedOrdered(cfg: Config, offset: HReg, noBlock: Label)
    ensures AllOrdered(cfg.multithreaded, ValidatedBranch(cfg, offset, noBlock))
  {
  }

  lemma StaticOrdered(cfg: Config, c: Cache, n: Label, target: Word, pc: Word)
    requires Shape(c)
    ensures AllOrdered(cfg.multithreaded, StaticBranch(cfg, c, n, target, A_REG, pc).code)
  {
    hide TakeSnapshot, FlushFrom, ValidatedBranch, ExitCode;
    ExitOrdered(cfg.multithreaded, cfg, c, ArchUnalignedPc, pc);
    ExitOrdered(cfg.multithreaded, cfg, c, ArchOutOfBoundsPc, pc);
    FlushOrdered(cfg.multithreaded, TakeSnapshot(c), 0);
    ValidatedOrdered(cfg, A_REG, n);
  }

  lemma DynamicOrdered(cfg: Config, c: Cache, n: Label, target: HReg)
    requires Shape(c)
    ensures AllOrdered(cfg.multithreaded, DynamicBranch(cfg, c, n, target, B_REG).code)
  {
    hide TakeSnapshot, FlushFrom, ValidatedBranch;
    FlushOrdered(cfg.multithreaded, TakeSnapshot(c), 0);
    ValidatedOrdered(cfg, B_REG, n + 2);
  }

  lemma SmallOrdered(mt: bool, cfg: Config, value: HReg, d: HReg, offset: int, v: Word)
    ensures AllOrdered(mt, AddOffset(cfg, value, A_REG, offset).code) && AllOrdered(mt, LoadImmediate(cfg, d, v))
  {
  }

  lemma CheckOrdered(mt: bool, cfg: Config, address: HReg, fault: Label, w: nat, a: Access)
    ensures AllOrdered(mt, ValidateAccess(cfg, address, fault, w, a))
  {
  }

  lemma BodyOrdered(mt: bool, cfg: Config, i: Instruction, pc: Word, a: HReg, b: HReg, d: HReg)
    requires IsCompute(i.op)
    ensures AllOrdered(mt, ComputeBody(cfg, i, pc, a, b, d))
  {
  }

  lemma JalrOrdered(cfg: Config, c: Cache, n: Label, pc: Word, i: Instruction)
    requires Shape(c)
    ensures AllOrdered(cfg.multithreaded, JalrPiece(cfg, c, n, pc, i).code)
  {
    hide Lock, AddOffset, DynamicBranch, Unlock, MayUnlock, LoadImmediate, AllOrdered;
    var mt := cfg.multithreaded;
    OrderedAdds(mt);
    var l := Lock(c, [ReadOf(i.rs1)]);
    LockOrdered(mt, c, [ReadOf(i.rs1)]);
    if l.ok && |l.regs| == 1 {
      var target := AddOffset(cfg, l.regs[0], A_REG, i.imm);
      SmallOrdered(mt, cfg, l.regs[0], XZR, i.imm, 0);
      DynamicOrdered(cfg, l.cache, n, target.reg);
      var m := Lock(l.cache, [WriteOnly(i.rd)]);
      LockOrdered(mt, l.cache, [WriteOnly(i.rd)]);
      if m.ok && |m.regs| == 1 {
        var from := if m.regs[0] == target.reg then A_REG else target.reg;
        MoveOrdered(mt, target.reg);
        SmallOrdered(mt, cfg, XZR, m.regs[0], 0, Wrap(pc + 4));
        DynamicOrdered(cfg, Unlock(m.cache, m.regs[0], true), n, from);
      }
    }
  }

  lemma MoveOrdered(mt: bool, n: HReg)
    ensures AllOrdered(mt, [MovReg(A_REG, n)]) && AllOrdered(mt, [])
  {
  }

  lemma JalOrdered(cfg: Config, c: Cache, n: Label, pc: Word, i: Instruction)
    requires Shape(c)
    ensures AllOrdered(cfg.multithreaded, JalPiece(cfg, c, n, pc, i).code)
  {
    hide Lock, StaticBranch, Unlock, MayUnlock, Wrap, LoadImmediate, AllOrdered;
    var mt := cfg.multithreaded;
    OrderedAdds(mt);
    NothingOrdered(mt);
    var l := Lock(c, [WriteOnly(i.rd)]);
    LockOrdered(mt, c, [WriteOnly(i.rd)]);
    if |l.regs| == 1 {
      SmallOrdered(mt, cfg, XZR, l.regs[0], 0, Wrap(pc + 4));
    }
    var link := LinkPiece(cfg, c, n, pc, i.rd);
    StaticOrdered(cfg, link.cache, link.next, Wrap(pc + i.imm), pc);
  }

  lemma BranchOrdered(cfg: Config, c: Cache, n: Label, pc: Word, i: Instruction)
    requires Shape(c) && i.op.Branch?
    ensures AllOrdered(cfg.multithreaded, BranchPiece(cfg, c, n, pc, i).code)
  {
    hide Lock, StaticBranch, UnlockClean, MayUnlockAll, Wrap, Inverted;
    var l := Lock(c, [ReadOf(i.rs1), ReadOf(i.rs2)]);
    LockOrdered(cfg.multithreaded, c, [ReadOf(i.rs1), ReadOf(i.rs2)]);
    StaticOrdered(cfg, l.cache, n + 1, Wrap(pc + i.imm), pc);
  }

  lemma AccessOrdered(mt: bool, cfg: Config, c: Cache, n: Label, pc: Word, i: Instruction)
    requires Shape(c)
    ensures i.op.Load? ==> AllOrdered(mt, LoadPiece(cfg, c, n, pc, i).code)
    ensures i.op.Store? ==> AllOrdered(mt, StorePiece(cfg, c, n, pc, i).code)
  {
    hide Lock, AddOffset, ValidateAccess, Unlock, UnlockClean, MayUnlockAll, FaultExit;
    if i.op.Load? || i.op.Store? {
      var reqs := if i.op.Load? then [ReadOf(i.rs1), WriteOnly(i.rd)] else [ReadOf(i.rs1), ReadOf(i.rs2)];
      var l := Lock(c, reqs);
      LockOrdered(mt, c, reqs);
      if |l.regs| == 2 {
        var address := AddOffset(cfg, l.regs[0], A_REG, i.imm);
        SmallOrdered(mt, cfg, l.regs[0], XZR, i.imm, 0);
        CheckOrdered(mt, cfg, address.reg, n, if i.op.Load? then LoadWidth(i.op.load) else StoreWidth(i.op.store),
                     if i.op.Load? then ReadAccess else WriteAccess);
      }
    }
  }

  lemma ComputeOrdered(mt: bool, cfg: Config, c: Cache, n: Label, pc: Word, i: Instruction)
    requires Shape(c) && IsCompute(i.op)
    ensures AllOrdered(mt, ComputePiece(cfg, c, n, pc, i).code)
  {
    hide Lock, ComputeBody, Unlock, UnlockClean, MayUnlockAll, ExitCode;
    ExitOrdered(mt, cfg, c, ArchUnsupported, pc);
    var l := Lock(c, Requests(i));
    LockOrdered(mt, c, Requests(i));
    if |l.regs| == |Requests(i)| {
      var k := |l.regs| - 1;
      BodyOrdered(mt, cfg, i, pc, l.regs[0], l.regs[if k == 2 then 1 else 0], l.regs[k]);
    }
  }

  lemma InstructionOrdered(cfg: Config, c: Cache, n: Label, pc: Word, i: Instruction)
    requires Shape(c)
    ensures AllOrdered(cfg.multithreaded, InstructionPiece(cfg, c, n, pc, i).code)
  {
    hide JalPiece, JalrPiece, BranchPiece, LoadPiece, StorePiece, ComputePiece, ExitCode, AllOrdered;
    var mt := cfg.multithreaded;
    match i.op
    case Jal => JalOrdered(cfg, c, n, pc, i);
    case Jalr => JalrOrdered(cfg, c, n, pc, i);
    case Branch(_) => BranchOrdered(cfg, c, n, pc, i);
    case Load(_) => AccessOrdered(mt, cfg, c, n, pc, i);
    case Store(_) => AccessOrdered(mt, cfg, c, n, pc, i);
    case MulHigh(_) => ExitOrdered(mt, cfg, c, ArchUnsupported, pc);
    case Fence => NothingOrdered(mt);
    case Ecall => ExitOrdered(mt, cfg, c, ArchEcall, pc);
    case Ebreak => ExitOrdered(mt, cfg, c, ArchEbreak, pc);
    case Undefined => ExitOrdered(mt, cfg, c, ArchUndefined, pc);
    case _ => ComputeOrdered(mt, cfg, c, n, pc, i);
  }

  lemma {:induction false} BlockOrdered(cfg: Config, m: Mem, c: Cache, n: Label, pc: Word)
    requires Shape(c) && |m.perms| >= m.size && |m.bytes| >= m.size && m.size + 8 < TWO64
    ensures AllOrdered(cfg.multithreaded, BlockFrom(cfg, m, c, n, pc).code)
    decreases m.size - pc
  {
    hide InstructionPiece, NoneLocked, Fetch, ExitCode, Finish, AllOrdered;
    if Fetch(m, pc) == None {
      ExitOrdered(cfg.multithreaded, cfg, c, ArchFetchFault, pc);
    } else {
      var p := InstructionPiece(cfg, c, n, pc, Fetch(m, pc).value);
      FetchInside(m, pc);
      InstructionOrdered(cfg, c, n, pc, Fetch(m, pc).value);
      if NoneLocked(p.cache) && p.ok && p.goesOn {
        ShapeFinish(p.cache);
        BlockOrdered(cfg, m, Finish(p.cache), p.next, pc + 4);
        OrderedAppend(cfg.multithreaded, p.code, BlockFrom(cfg, m, Finish(p.cache), p.next, pc + 4).code);
      }
    }
  }

  /** In a multithreaded code buffer every table read of translated code is an acquire load; in another one
      none is. */
  lemma TranslateOrdered(cfg: Config, m: Mem)
    requires |m.perms| >= m.size && |m.bytes| >= m.size && m.size + 8 < TWO64
    ensures AllOrdered(cfg.multithreaded, Translate(cfg, m))
  {
    hide BlockFrom, Stubs;
    BlockOrdered(cfg, m, NewCache(), 0, cfg.basePc);
    StubsOrdered(cfg.multithreaded, cfg, BlockFrom(cfg, m, NewCache(), 0, cfg.basePc).exits);
  }

  // ----- in words -----

  predicate TextOrdered(multithreaded: bool, text: seq<Cell>) {
    forall k :: 0 <= k < |text| ==> AllOrdered(multithreaded, text[k])
  }

  lemma {:induction false} FlattenOrdered(multithreaded: bool, text: seq<Cell>)
    ensures AllOrdered(multithreaded, Flatten(text)) <==> TextOrdered(multithreaded, text)
  {
    if text != [] {
      FlattenOrdered(multithreaded, text[1..]);
      OrderedAppend(multithreaded, text[0], Flatten(text[1..]));
    }
  }

  lemma TextsOrdered(w: Widths, cfg: Config, m: Mem)
    requires |m.perms| >= m.size && |m.bytes| >= m.size && m.size + 8 < TWO64
    ensures TextOrdered(cfg.multithreaded, WordsOf(w, Translate(cfg, m)))
  {
    hide Translate, WordsOf, AllOrdered;
    TranslateOrdered(cfg, m);
    FlattenWords(w, Translate(cfg, m));
    FlattenOrdered(cfg.multithreaded, WordsOf(w, Translate(cfg, m)));
  }
}
