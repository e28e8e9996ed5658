/** How long translated code can be, and so how large a code buffer never fills up. */
module CodeLengths {
  import opened Words
  import opened Instructions
  import opened Memories
  import opened Interpreter
  import opened HostMachine
  import opened RegisterCaches
  import opened Translator
  import opened Engine
  import BlockSimulation
  import opened CodeLayout
  import opened CodeBuffers
  import opened VirtualMachine

  /** A stub: seventeen stores, the pc, the reason, the return. */
  const STUB_WORDS: nat := 26

  /** The longest instruction is jalr: two locks, a branch through a register, three stubs. */
  const INSTRUCTION_WORDS: nat := 151

  /** A piece and the stubs of its exits. */
  function Length(w: Widths, p: Piece): nat { SizeOf(w, p.code) + STUB_WORDS * |p.exits| }

  // ----- the cache -----

  lemma {:induction false} AvailableLength(slots: seq<Slot>, i: nat)
    requires i <= |slots| == CACHE_SIZE
    ensures |AvailableFrom(slots, i)| <= CACHE_SIZE - i
    decreases CACHE_SIZE - i
  {
    if i < CACHE_SIZE {
      AvailableLength(slots, i + 1);
    }
  }

  lemma {:induction false} InsertLength(slots: seq<Slot>, v: SlotId, s: seq<SlotId>)
    requires |slots| == CACHE_SIZE
    ensures |InsertByUse(slots, v, s)| == |s| + 1
  {
    if s != [] {
      InsertLength(slots, v, s[1..]);
    }
  }

  lemma {:induction false} SortLength(slots: seq<Slot>, a: seq<SlotId>)
    requires |slots| == CACHE_SIZE
    ensures |SortByUse(slots, a)| == |a|
  {
    if a != [] {
      SortLength(slots, a[1..]);
      InsertLength(slots, a[0], SortByUse(slots, a[1..]));
    }
  }

  lemma {:induction false} EvictLength(c: Cache, order: seq<SlotId>, count: nat)
    requires Shape(c) && count <= |order|
    ensures |EvictLast(c, order, count).code| <= count && Plain(EvictLast(c, order, count).code)
    decreases count
  {
    hide EvictSlot;
    if count > 0 {
      EvictLength(EvictSlot(c, order[|order| - 1]), order[..|order| - 1], count - 1);
    }
  }

  lemma {:induction false} FillLength(c: Cache, reqs: seq<Request>, wanted: set<GuestReg>)
    requires Shape(c)
    ensures |LockEach(c, reqs, wanted).code| <= |reqs| && Plain(LockEach(c, reqs, wanted).code)
    decreases |reqs|
  {
    hide UseSlot, AssignSlot;
    if reqs != [] {
      var r := reqs[0].reg;
      if r == 0 {
        FillLength(c, reqs[1..], wanted);
      } else if c.toSlot[r] != NONE {
        FillLength(UseSlot(c, r), reqs[1..], wanted);
      } else if c.free != [] {
        FillLength(AssignSlot(c, r), reqs[1..], wanted);
      }
    }
  }

  /** A lock stores at most every slot and loads at most every register asked for. */
  lemma LockLength(w: Widths, c: Cache, reqs: seq<Request>)
    requires Shape(c)
    ensures SizeOf(w, Lock(c, reqs).code) <= CACHE_SIZE + |reqs|
  {
    hide LockEach, MarkCached, AvailableFrom, SortByUse, EvictLast, Shortage;
    var marked := MarkCached(c, reqs);
    AvailableLength(marked.slots, 0);
    SortLength(marked.slots, AvailableFrom(marked.slots, 0));
    if Shortage(c, reqs) <= |EvictionOrder(marked.slots)| {
      EvictLength(marked, EvictionOrder(marked.slots), Shortage(c, reqs));
    }
    FillLength(Reserve(c, reqs).cache, reqs, Reads(reqs));
    SizePlain(w, Lock(c, reqs).code);
  }

  lemma {:induction false} FlushLength(s: Snapshot, i: nat)
    requires i <= CACHE_SIZE
    ensures |FlushFrom(s, i)| <= CACHE_SIZE - i && Plain(FlushFrom(s, i))
    decreases CACHE_SIZE - i
  {
    if i < CACHE_SIZE {
      FlushLength(s, i + 1);
    }
  }

  lemma FlushSize(w: Widths, s: Snapshot)
    ensures SizeOf(w, Flush(s)) <= CACHE_SIZE
  {
    FlushLength(s, 0);
    SizePlain(w, Flush(s));
  }

  lemma ImmediateSize(w: Widths, cfg: Config, d: HReg, v: Word)
    ensures SizeOf(w, LoadImmediate(cfg, d, v)) <= 4
  {
    SizeOne(w, LoadImmediate(cfg, d, v)[0]);
  }

  /** One instruction of one word wherever the assembler accepts the distance from the block's pc, up to 0x7fff
      either way, and a move otherwise. */
  lemma NearImmediate(w: Widths, cfg: Config, d: HReg, v: Word, near: int)
    requires near == Signed(v) - Signed(cfg.basePc)
    ensures var code := LoadImmediate(cfg, d, v);
            if -0x7fff <= near <= 0x7fff && near in cfg.addImms then SizeOf(w, code) == 1 && !code[0].MovImm?
            else code == [MovImm(d, v)]
  {
    SizeOne(w, LoadImmediate(cfg, d, v)[0]);
  }

  // ----- the pieces -----

  lemma ExitLength(w: Widths, cfg: Config, c: Cache, n: Label, r: ArchExit, pc: Word)
    requires Shape(c)
    ensures Length(w, ExitPiece(cfg, c, n, r, pc)) <= STUB_WORDS
  {
    hide TakeSnapshot, LoadImmediate, Flush;
    FlushSize(w, TakeSnapshot(c));
    ImmediateSize(w, cfg, EXIT_PC, pc);
    TailSize(w, cfg, r);
    SizesAdd(w);
  }

  lemma TailSize(w: Widths, cfg: Config, r: ArchExit)
    ensures SizeOf(w, ExitTail(cfg, r)) <= 5
  {
    hide LoadImmediate;
    ImmediateSize(w, cfg, EXIT_REASON, ArchCode(r));
    SizeOne(w, Ret);
    SizesAdd(w);
  }

  lemma StubSize(w: Widths, cfg: Config, e: PendingExit)
    ensures SizeOf(w, [Bind(e.target)] + StubBody(cfg, e)) <= STUB_WORDS
  {
    hide LoadImmediate, Flush, ExitTail;
    FlushSize(w, e.snapshot);
    ImmediateSize(w, cfg, EXIT_PC, e.pcValue);
    SizeOne(w, MovReg(EXIT_PC, e.pcRegister));
    SizeOne(w, Bind(e.target));
    TailSize(w, cfg, e.reason);
    SizesAdd(w);
  }

  lemma {:induction false} StubsLength(w: Widths, cfg: Config, exits: seq<PendingExit>)
    ensures SizeOf(w, Stubs(cfg, exits)) <= STUB_WORDS * |exits|
  {
    if exits != [] {
      hide StubBody;
      StubSize(w, cfg, exits[0]);
      StubsLength(w, cfg, exits[1..]);
      SizeAppend(w, [Bind(exits[0].target)] + StubBody(cfg, exits[0]), Stubs(cfg, exits[1..]));
    }
  }

  lemma AddOffsetLength(w: Widths, cfg: Config, value: HReg, offset: int)
    ensures SizeOf(w, AddOffset(cfg, value, A_REG, offset).code) <= 5
  {
    hide LoadImmediate;
    ImmediateSize(w, cfg, A_REG, Wrap(offset));
    SizeOne(w, AddImm(A_REG, value, offset));
    SizeOne(w, Alu(AddX, A_REG, value, A_REG));
    SizesAdd(w);
  }

  lemma CheckLength(w: Widths, cfg: Config, address: HReg, fault: Label, width: nat, a: Access)
    ensures SizeOf(w, ValidateAccess(cfg, address, fault, width, a)) <= 12
  {
    hide PermissionCheck;
    PermissionSize(w, address, fault, width, a);
    SizePlain(w, [TstImm(address, width - 1), BCond(NotEqual, fault)]);
    SizePlain(w, [CmpReg(true, address, MEMORY_SIZE), BCond(UnsignedGreaterEqual, fault)]);
    SizesAdd(w);
  }

  lemma PermissionSize(w: Widths, address: HReg, fault: Label, width: nat, a: Access)
    ensures SizeOf(w, PermissionCheck(address, fault, width, a)) <= 8
  {
    var check := PermissionCheck(address, fault, width, a);
    assert check == check[..1] + ([check[1]] + check[2..]);
    SizePlain(w, check[..1]);
    SizeOne(w, check[1]);
    SizePlain(w, check[2..]);
    SizesAdd(w);
  }

  lemma ValidatedSize(w: Widths, cfg: Config, offset: HReg, noBlock: Label)
    ensures SizeOf(w, ValidatedBranch(cfg, offset, noBlock)) <= 5
  {
    SizePlain(w, ValidatedBranch(cfg, offset, noBlock));
  }

  lemma StaticLength(w: Widths, cfg: Config, c: Cache, n: Label, target: Word, pc: Word)
    requires Shape(c)
    ensures Length(w, StaticBranch(cfg, c, n, target, A_REG, pc)) <= 52
  {
    hide TakeSnapshot, LoadImmediate, Flush, ValidatedBranch, ExitCode, SizeOf;
    FlushSize(w, TakeSnapshot(c));
    ImmediateSize(w, cfg, A_REG, target);
    ValidatedSize(w, cfg, A_REG, n);
    ExitLength(w, cfg, c, n, ArchUnalignedPc, pc);
    ExitLength(w, cfg, c, n, ArchOutOfBoundsPc, pc);
    SizesAdd(w);
  }

  lemma DynamicLength(w: Widths, cfg: Config, c: Cache, n: Label, target: HReg)
    requires Shape(c)
    ensures Length(w, DynamicBranch(cfg, c, n, target, B_REG)) <= 105
  {
    hide TakeSnapshot, Flush, ValidatedBranch, SizeOf;
    FlushSize(w, TakeSnapshot(c));
    ValidatedSize(w, cfg, B_REG, n + 2);
    SizePlain(w, [BitImm(AndOp, B_REG, target, -2)]);
    SizePlain(w, [TstImm(B_REG, 3), BCond(NotEqual, n + 1),
                  CmpReg(true, B_REG, MAX_EXECUTABLE_PC), BCond(UnsignedGreaterEqual, n)]);
    SizesAdd(w);
  }

  lemma BodyLength(w: Widths, cfg: Config, i: Instruction, pc: Word, a: HReg, b: HReg, d: HReg)
    requires IsCompute(i.op)
    ensures SizeOf(w, ComputeBody(cfg, i, pc, a, b, d)) <= 6
  {
    hide LoadImmediate, LoadImmediateOrZero, SizeOf, ImmBody, SetImmBody;
    var body := ComputeBody(cfg, i, pc, a, b, d);
    match i.op
    case Lui => ImmediateSize(w, cfg, d, Wrap(i.imm));
    case Auipc => ImmediateSize(w, cfg, d, Wrap(pc + i.imm));
    case Imm(op) => ImmBodySize(w, cfg, op, a, d, i.imm);
    case SetImm(unsigned) =>
      ImmediateSize(w, cfg, d, BoolWord(if unsigned then 0 < Wrap(i.imm) else 0 < i.imm));
      SetImmSize(w, cfg, unsigned, a, d, i.imm);
    case _ => SizePlain(w, body);
  }

  lemma OperandSize(w: Widths, cfg: Config, imm: int)
    ensures SizeOf(w, LoadImmediateOrZero(cfg, A_REG, imm).code) <= 4
  {
    hide LoadImmediate;
    ImmediateSize(w, cfg, A_REG, Wrap(imm));
  }

  lemma ImmBodySize(w: Widths, cfg: Config, op: ImmOp, a: HReg, d: HReg, imm: int)
    ensures SizeOf(w, ImmBody(cfg, op, a, d, imm)) <= 6
  {
    hide LoadImmediate, LoadImmediateOrZero;
    OperandSize(w, cfg, imm);
    ImmediateSize(w, cfg, d, Wrap(imm));
    SizeOne(w, Sxtw(d, d));
    SizeOne(w, MovReg(d, a));
    SizeOne(w, AddImm(d, a, imm));
    SizeOne(w, BitImm(ImmBitOp(op), d, a, imm));
    SizeOne(w, Alu(ImmAluOp(op), d, a, LoadImmediateOrZero(cfg, A_REG, imm).reg));
    SizesAdd(w);
  }

  lemma SetImmSize(w: Widths, cfg: Config, unsigned: bool, a: HReg, d: HReg, imm: int)
    ensures SizeOf(w, SetImmBody(cfg, unsigned, a, d, imm)) <= 6
  {
    hide LoadImmediateOrZero;
    OperandSize(w, cfg, imm);
    SizeOne(w, CmpImm(a, imm));
    SizeOne(w, CmpReg(true, a, LoadImmediateOrZero(cfg, A_REG, imm).reg));
    SizeOne(w, Cset(d, if unsigned then UnsignedLess else Less));
    SizesAdd(w);
  }

  lemma JalrLength(w: Widths, cfg: Config, c: Cache, n: Label, pc: Word, i: Instruction)
    requires Shape(c)
    ensures Length(w, JalrPiece(cfg, c, n, pc, i)) <= INSTRUCTION_WORDS
  {
    hide Lock, AddOffset, DynamicBranch, Unlock, MayUnlock, LoadImmediate, SizeOf;
    SizesAdd(w);
    var l := Lock(c, [ReadOf(i.rs1)]);
    LockLength(w, c, [ReadOf(i.rs1)]);
    if l.ok && |l.regs| == 1 {
      var target := AddOffset(cfg, l.regs[0], A_REG, i.imm);
      AddOffsetLength(w, cfg, l.regs[0], i.imm);
      DynamicLength(w, cfg, l.cache, n, target.reg);
      var m := Lock(l.cache, [WriteOnly(i.rd)]);
      LockLength(w, l.cache, [WriteOnly(i.rd)]);
      if m.ok && |m.regs| == 1 {
        DynamicLength(w, cfg, Unlock(m.cache, m.regs[0], true), n, if m.regs[0] == target.reg then A_REG
          else target.reg);
        ImmediateSize(w, cfg, m.regs[0], Wrap(pc + 4));
        SizePlain(w, if m.regs[0] == target.reg then [MovReg(A_REG, target.reg)] else []);
      }
    }
  }

  lemma JalLength(w: Widths, cfg: Config, c: Cache, n: Label, pc: Word, i: Instruction)
    requires Shape(c)
    ensures Length(w, JalPiece(cfg, c, n, pc, i)) <= INSTRUCTION_WORDS
  {
    hide Lock, StaticBranch, Unlock, MayUnlock, Wrap, LoadImmediate, SizeOf;
    SizesAdd(w);
    SizePlain(w, []);
    var l := Lock(c, [WriteOnly(i.rd)]);
    LockLength(w, c, [WriteOnly(i.rd)]);
    if |l.regs| == 1 {
      ImmediateSize(w, cfg, l.regs[0], Wrap(pc + 4));
    }
    var link := LinkPiece(cfg, c, n, pc, i.rd);
    StaticLength(w, cfg, link.cache, link.next, Wrap(pc + i.imm), pc);
  }

  lemma BranchLength(w: Widths, cfg: Config, c: Cache, n: Label, pc: Word, i: Instruction)
    requires Shape(c) && i.op.Branch?
    ensures Length(w, BranchPiece(cfg, c, n, pc, i)) <= INSTRUCTION_WORDS
  {
    hide Lock, StaticBranch, UnlockClean, MayUnlockAll, Wrap, Inverted, SizeOf;
    SizesAdd(w);
    SizeOne(w, Bind(n));
    var l := Lock(c, [ReadOf(i.rs1), ReadOf(i.rs2)]);
    LockLength(w, c, [ReadOf(i.rs1), ReadOf(i.rs2)]);
    StaticLength(w, cfg, l.cache, n + 1, Wrap(pc + i.imm), pc);
    if |l.regs| == 2 {
      SizePlain(w, [CmpReg(true, l.regs[0], l.regs[1]), BCond(Inverted(i.op.branch), n)]);
    }
  }

  lemma AccessLength(w: Widths, cfg: Config, c: Cache, n: Label, pc: Word, i: Instruction)
    requires Shape(c)
    ensures i.op.Load? ==> Length(w, LoadPiece(cfg, c, n, pc, i)) <= INSTRUCTION_WORDS
    ensures i.op.Store? ==> Length(w, StorePiece(cfg, c, n, pc, i)) <= INSTRUCTION_WORDS
  {
    hide Lock, AddOffset, ValidateAccess, Unlock, UnlockClean, MayUnlockAll, FaultExit, SizeOf;
    SizesAdd(w);
    SizePlain(w, []);
    if i.op.Load? || i.op.Store? {
      var reqs := if i.op.Load? then [ReadOf(i.rs1), WriteOnly(i.rd)] else [ReadOf(i.rs1), ReadOf(i.rs2)];
      var l := Lock(c, reqs);
      LockLength(w, c, reqs);
      if |l.regs| == 2 {
        var address := AddOffset(cfg, l.regs[0], A_REG, i.imm);
        AddOffsetLength(w, cfg, l.regs[0], i.imm);
        CheckLength(w, cfg, address.reg, n, if i.op.Load? then LoadWidth(i.op.load) else StoreWidth(i.op.store),
                    if i.op.Load? then ReadAccess else WriteAccess);
        SizePlain(w, if i.op.Load? then [LdrMem(LoadWidth(i.op.load), SignedLoad(i.op.load), l.regs[1], MEMORY_BASE,
                                                address.reg)]
                     else if i.op.Store? then [StrMem(StoreWidth(i.op.store), l.regs[1], MEMORY_BASE, address.reg)]
                     else []);
      }
    }
  }

  lemma ComputeLength(w: Widths, cfg: Config, c: Cache, n: Label, pc: Word, i: Instruction)
    requires Shape(c) && IsCompute(i.op)
    ensures Length(w, ComputePiece(cfg, c, n, pc, i)) <= INSTRUCTION_WORDS
  {
    hide Lock, ComputeBody, Unlock, UnlockClean, MayUnlockAll, ExitPiece, SizeOf;
    SizesAdd(w);
    SizePlain(w, []);
    ExitLength(w, cfg, c, n, ArchUnsupported, pc);
    var l := Lock(c, Requests(i));
    LockLength(w, c, Requests(i));
    if |l.regs| == |Requests(i)| {
      var k := |l.regs| - 1;
      BodyLength(w, cfg, i, pc, l.regs[0], l.regs[if k == 2 then 1 else 0], l.regs[k]);
    }
  }

  lemma InstructionLength(w: Widths, cfg: Config, c: Cache, n: Label, pc: Word, i: Instruction)
    requires Shape(c)
    ensures Length(w, InstructionPiece(cfg, c, n, pc, i)) <= INSTRUCTION_WORDS
  {
    hide JalPiece, JalrPiece, BranchPiece, LoadPiece, StorePiece, ComputePiece, ExitPiece, Length;
    match i.op
    case Jal => JalLength(w, cfg, c, n, pc, i);
    case Jalr => JalrLength(w, cfg, c, n, pc, i);
    case Branch(_) => BranchLength(w, cfg, c, n, pc, i);
    case Load(_) => AccessLength(w, cfg, c, n, pc, i);
    case Store(_) => AccessLength(w, cfg, c, n, pc, i);
    case MulHigh(_) => ExitLength(w, cfg, c, n, ArchUnsupported, pc);
    case Fence => assert Length(w, Piece(c, n, [], [], true, true)) == 0 by { NothingLength(w, c, n); }
    case Ecall => ExitLength(w, cfg, c, n, ArchEcall, pc);
    case Ebreak => ExitLength(w, cfg, c, n, ArchEbreak, pc);
    case Undefined => ExitLength(w, cfg, c, n, ArchUndefined, pc);
    case _ => ComputeLength(w, cfg, c, n, pc, i);
  }

  lemma NothingLength(w: Widths, c: Cache, n: Label)
    ensures Length(w, Piece(c, n, [], [], true, true)) == 0
  {
  }

  // ----- blocks -----

  /** Instructions that can be fetched from pc on. */
  function Left(size: nat, pc: nat): nat {
    if pc <= size then (size - pc) / 4 else 0
  }

  lemma OneFewer(size: nat, pc: nat)
    requires pc + 4 <= size
    ensures Left(size, pc) == Left(size, pc + 4) + 1
  {
  }

  lemma {:induction false} BlockLength(w: Widths, cfg: Config, m: Mem, c: Cache, n: Label, pc: Word)
    requires Shape(c) && ValidMem(m)
    ensures Length(w, BlockFrom(cfg, m, c, n, pc)) <= INSTRUCTION_WORDS * Left(m.size, pc) + STUB_WORDS
    decreases m.size - pc
  {
    hide InstructionPiece, NoneLocked, Fetch, Padded, ExitPiece, Left, Finish, SizeOf;
    if Fetch(m, pc) == None {
      ExitLength(w, cfg, c, n, ArchFetchFault, pc);
    } else {
      var p := InstructionPiece(cfg, c, n, pc, Fetch(m, pc).value);
      FetchInside(m, pc);
      InstructionLength(w, cfg, c, n, pc, Fetch(m, pc).value);
      OneFewer(m.size, pc);
      if NoneLocked(p.cache) && p.ok && p.goesOn {
        ShapeFinish(p.cache);
        SizeAppend(w, p.code, BlockFrom(cfg, m, Finish(p.cache), p.next, pc + 4).code);
        BlockLength(w, cfg, m, Finish(p.cache), p.next, pc + 4);
      }
    }
  }

  /** Words of code for any block of a memory of this size: the move of its pc, its instructions, the exit
      behind the last, and a label at the end. */
  function BlockWords(size: nat): nat { INSTRUCTION_WORDS * (size / 4) + STUB_WORDS + 5 }

  lemma LeftAtMost(size: nat, pc: nat)
    ensures Left(size, pc) <= size / 4
  {
  }

  /** However many words the assembler takes for each immediate. */
  lemma TranslateLength(w: Widths, cfg: Config, m: Mem)
    requires ValidMem(m)
    ensures Bytes(w, Translate(cfg, m)) <= 4 * BlockWords(m.size)
  {
    hide BlockFrom, Stubs, Left, Padded, WordsOf, SizeOf;
    var b := BlockFrom(cfg, m, NewCache(), 0, cfg.basePc);
    BlockLength(w, cfg, m, NewCache(), 0, cfg.basePc);
    StubsLength(w, cfg, b.exits);
    LeftAtMost(m.size, cfg.basePc);
    SizeOne(w, MovImm(BASE_PC, cfg.basePc));
    SizesAdd(w);
    WordsLength(w, Translate(cfg, m));
  }

  // ----- buffers -----

  /** Bytes of the buffer a block takes at most, its alignment included. */
  function BlockBytes(size: nat): nat { 4 * BlockWords(size) + CODE_ALIGNMENT }

  /** There is room for every block that has not been translated. */
  ghost predicate Room(b: Buffer, size: nat) {
    b.nextFree + (|b.offsets| - Filled(b.offsets)) * BlockBytes(size) <= b.size
  }

  /** A trip that translates takes no more than its share. */
  lemma TripHasRoom(p: Params, v: Vm, g0: Guest, k: nat, g: Guest, size: nat)
    requires Tracks(p, v, g0, k, g) && Room(v.buffer, size) && g.machine.mem.size == size
    ensures Room(VmStep(p, v).buffer, size) && (v.phase != Dead(BufferFull) ==> VmStep(p, v).phase != Dead(BufferFull))
  {
    hide EngineReaches, EngineMove, WriteXorExecute, Padded, Translate, Run, Return, BlockSimulation.Enters,
      BlockCoherent, Entry, AfterCode, Filled, BlockWords, Find, ValidBuffer, Allocate, SameCode;
    if v.phase.Dispatching? {
      DispatchHasRoom(p, v, size);
      DispatchTracks(p, v, g0, k, g);
    } else if v.phase.InCode? {
      var _, _ := CodeTracks(p, v, g0, k, g);
      AfterCodeFits(p, v);
    }
  }

  lemma AfterCodeFits(p: Params, v: Vm)
    requires v.phase.InCode? && Runnable(v)
    ensures VmStep(p, v).buffer == v.buffer && VmStep(p, v).phase != Dead(BufferFull)
  {
    hide Run, Step, Back;
    AfterCodeKeeps(p, v, Run(EnvOf(p, v.buffer), CodeFrom(v.buffer, v.phase.offset), v.phase.host));
  }

  lemma DispatchHasRoom(p: Params, v: Vm, size: nat)
    requires Runnable(v) && v.phase.Dispatching? && Room(v.buffer, size) && v.machine.mem.size == size
    ensures Room(Dispatch(p, v).buffer, size) && Dispatch(p, v).phase != Dead(BufferFull)
  {
    hide Padded, Translate, Entry, Room, BlockWords, InsertCode, ValidBuffer;
    var pc := v.machine.Pc();
    if Find(v.buffer, pc) == Absent {
      TranslateLength(v.buffer.widths, ConfigAt(p, pc), v.machine.mem);
      InsertHasRoom(v.buffer, pc, Translate(ConfigAt(p, pc), v.machine.mem), size);
    }
  }

  lemma InsertHasRoom(b: Buffer, pc: Word, code: Code, size: nat)
    requires ValidBuffer(b) && Find(b, pc) == Absent && Room(b, size)
    requires Bytes(b.widths, code) <= 4 * BlockWords(size)
    ensures InsertCode(b, pc, code) != OutOfMemory
    ensures InsertCode(b, pc, code).At? ==> Room(InsertCode(b, pc, code).buffer, size)
  {
    hide Filled, BlockBytes, Allocate, ValidBuffer;
    if pc % 4 == 0 {
      SomeUnfilled(b.offsets, pc / 4);
      OneShare(|b.offsets| - Filled(b.offsets), BlockBytes(size));
      RoomLeft(|b.offsets| - Filled(b.offsets) - 1, BlockBytes(size));
      AllocateFits(b, code, size);
      AllocateIs(b, code);
      FillOne(b.offsets, pc / 4, Allocate(b, code).offset);
    }
  }

  lemma AllocateFits(b: Buffer, code: Code, size: nat)
    requires ValidBuffer(b) && Bytes(b.widths, code) <= 4 * BlockWords(size) && b.nextFree + BlockBytes(size) <= b.size
    ensures Allocate(b, code).At? && Allocate(b, code).buffer.nextFree <= b.nextFree + BlockBytes(size)
  {
    hide BlockWords, WriteCode, WordsOf;
    AlignUpIs(b.nextFree);
  }

  lemma RoomLeft(n: nat, share: nat)
    ensures n * share >= 0
  {
  }

  lemma OneShare(n: nat, share: nat)
    requires n > 0
    ensures n * share == share + (n - 1) * share
  {
  }

  /** In a buffer with room for every block no run of any guest ever ends for want of room. */
  lemma {:induction false} NeverFull(p: Params, v: Vm, n: nat)
    requires Prepared(p, v) && Room(v.buffer, v.machine.mem.size)
    ensures VmRun(p, v, n).phase != Dead(BufferFull) && Room(VmRun(p, v, n).buffer, v.machine.mem.size)
    decreases n
  {
    hide Room, Coherent, WriteXorExecute, Padded, VmStep, EngineReaches, EngineMove;
    if n > 0 {
      NeverFull(p, v, n - 1);
      var k, g := RunTracks(p, v, n - 1);
      EngineKeeps(p.config, Waiting(p, v), k, g);
      TripHasRoom(p, VmRun(p, v, n - 1), Waiting(p, v), k, g, v.machine.mem.size);
    }
  }
}
