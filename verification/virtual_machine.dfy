/** Whole runs of translated code, code buffer and interpreter together, for every guest. */
module VirtualMachine {
  import opened Words
  import opened Instructions
  import opened Memories
  import opened Interpreter
  import opened HostMachine
  import opened RegisterCaches
  import opened CacheMeaning
  import opened Translator
  import opened CodeMeaning
  import opened Simulation
  import opened Engine
  import opened BlockSimulation
  import opened CodeBuffers

  /** What does not change while a Vm runs: the configuration, where everything is on the host, and
      whatever the caller has in its registers. */
  datatype Params = Params(config: Config, statePtr: Word, memBase: Word, permBase: Word, blockBase: Word,
    codeBase: Word,
                           returnTo: Word, callerRegs: HRegs, callerFlags: (Word, Word))

  /** Ways a run ends without an exit: an access past the block table, a failed verify, a host fault,
      undefined behaviour or fatal_error in the interpreter. */
  datatype Fault = TableOverrun | BadInsert | BufferFull | HostFault | Unpredictable | FatalError

  datatype Phase = Dispatching | InCode(offset: Word, host: Host) | Done(exit: Exit) | Dead(fault: Fault)

  datatype Vm = Vm(machine: Machine, buffer: Buffer, phase: Phase)

  function ConfigAt(p: Params, pc: Word): Config { p.config.(basePc := pc) }

  function EnvOf(p: Params, b: Buffer): Env {
    Env(p.statePtr, p.memBase, p.permBase, p.blockBase, p.codeBase, p.returnTo, p.callerRegs[FRAME],
      p.callerRegs[PLATFORM], b.offsets)
  }

  /** The host state in which the trampoline calls translated code. */
  function Entry(p: Params, s: Machine): Host {
    var r := p.callerRegs[REGISTER_STATE := p.statePtr][MEMORY_BASE := p.memBase][PERMISSIONS_BASE := p.permBase]
                         [MEMORY_SIZE := Wrap(s.mem.size)][BLOCK_BASE := p.blockBase]
                         [MAX_EXECUTABLE_PC := Wrap(4 * p.config.maxBlocks)][CODE_BASE := p.codeBase][RETURN :=
                           p.returnTo];
    Host(r, p.callerFlags, s.regs, s.mem)
  }

  /** Every run this model follows is of these. */
  ghost predicate Runnable(v: Vm) {
    && ValidBuffer(v.buffer) && ValidMem(v.machine.mem)
    && (v.phase.InCode? ==> ValidMem(v.phase.host.mem) && v.phase.offset / 4 <= |v.buffer.cells|)
  }

  // ----- one trip -----

  /** Looks the pc up and translates it if there is no code yet; then enters the code. */
  ghost function Dispatch(p: Params, v: Vm): Vm
    requires Runnable(v)
  {
    var pc := v.machine.Pc();
    match Find(v.buffer, pc)
    case PastTable => v.(phase := Dead(TableOverrun))
    case Found(offset) => v.(phase := InCode(offset, Entry(p, v.machine)))
    case Absent =>
      match InsertCode(v.buffer, pc, Translate(ConfigAt(p, pc), v.machine.mem))
      case At(offset, buffer) => Vm(v.machine, buffer, InCode(offset, Entry(p, v.machine)))
      case OutOfMemory => v.(phase := Dead(BufferFull))
      case _ => v.(phase := Dead(BadInsert))
  }

  /** The guest machine after the trampoline has come back. */
  function Back(h: Host): Machine {
    Machine(SetPc(h.table, h.r[EXIT_PC]), h.mem)
  }

  ghost function InterpretOne(v: Vm, s: Machine): Vm {
    if !ValidMem(s.mem) then Vm(s, v.buffer, Dead(HostFault))
    else
      match Step(s)
      case Next(t) => Vm(t, v.buffer, Dispatching)
      case Stop(e) => Vm(s, v.buffer, Done(e))
      case UndefinedBehaviour => Vm(s, v.buffer, Dead(Unpredictable))
      case Fatal => Vm(s, v.buffer, Dead(FatalError))
  }

  /** What Executor::run and Vm::run do with the reason code came back with. */
  ghost function Return(v: Vm, h: Host): Vm {
    var s, code := Back(h), h.r[EXIT_REASON];
    if code == ArchCode(ArchBlockNotGenerated) || code == ArchCode(ArchSingleStep) then Vm(s, v.buffer, Dispatching)
    else if code == ArchCode(ArchUnalignedPc) then Vm(s, v.buffer, Done(SimpleExit(UnalignedPc)))
    else if code == ArchCode(ArchOutOfBoundsPc) then Vm(s, v.buffer, Done(SimpleExit(OutOfBoundsPc)))
    else if code == ArchCode(ArchFetchFault) then Vm(s, v.buffer, Done(SimpleExit(InstructionFetchFault)))
    else if code == ArchCode(ArchUndefined) then Vm(s, v.buffer, Done(SimpleExit(UndefinedInstruction)))
    else if code == ArchCode(ArchEcall) then Vm(s, v.buffer, Done(SimpleExit(EcallExit)))
    else if code == ArchCode(ArchEbreak) then Vm(s, v.buffer, Done(SimpleExit(EbreakExit)))
    else if code == ArchCode(ArchUnsupported) || code == ArchCode(ArchReadFault)
      || code == ArchCode(ArchWriteFault) then
      InterpretOne(v, s)
    else Vm(s, v.buffer, Dead(HostFault))
  }

  ghost function VmStep(p: Params, v: Vm): Vm {
    if Final(v) then v
    else if !Runnable(v) then v.(phase := Dead(HostFault))
    else if v.phase.Dispatching? then Dispatch(p, v)
    else AfterCode(p, v, Run(EnvOf(p, v.buffer), CodeFrom(v.buffer, v.phase.offset), v.phase.host))
  }

  /** What follows a run of translated code. */
  ghost function AfterCode(p: Params, v: Vm, o: Outcome): Vm {
    match o
    case Crash => v.(phase := Dead(HostFault))
    case Jumped(to, g) => v.(phase := InCode(to, g))
    case Returned(g) => Return(v, g)
  }

  ghost function VmRun(p: Params, v: Vm, n: nat): Vm {
    if n == 0 then v else VmStep(p, VmRun(p, v, n - 1))
  }

  predicate Final(v: Vm) { v.phase.Done? || v.phase.Dead? }

  // ----- coherence of the code buffer with guest memory -----

  ghost predicate BlockCoherent(p: Params, b: Buffer, m: Mem, block: nat)
    requires ValidMem(m) && block < |b.offsets|
  {
    b.offsets[block] != 0 ==>
      var r := Region(b.offsets[block], Translate(ConfigAt(p, Wrap(4 * block)), m));
      Contains(b, r) && EndOf(b.widths, r) <= b.nextFree
  }

  /** Each entry of the table that is set leads to exactly the code that translating its block now would
      produce. */
  ghost predicate Coherent(p: Params, b: Buffer, m: Mem) {
    ValidBuffer(b) && ValidMem(m) && forall block :: 0 <= block < |b.offsets| ==> BlockCoherent(p, b, m, block)
  }

  /** Translation only reads instruction memory. */
  lemma {:induction false} BlockSameCode(cfg: Config, m: Mem, n: Mem, c: Cache, l: Label, pc: Word)
    requires Shape(c) && ValidMem(m) && ValidMem(n) && SameCode(m, n)
    ensures BlockFrom(cfg, m, c, l, pc) == BlockFrom(cfg, n, c, l, pc)
    decreases m.size - pc
  {
    hide InstructionPiece, NoneLocked, Fetch, SameCode, Padded, ExitPiece;
    FetchSameCode(m, n, pc);
    if Fetch(m, pc).Some? {
      var p := InstructionPiece(cfg, c, l, pc, Fetch(m, pc).value);
      FetchInside(m, pc);
      if NoneLocked(p.cache) && p.ok && p.goesOn {
        SameSize(m, n);
        BlockSameCode(cfg, m, n, Finish(p.cache), p.next, pc + 4);
      }
    }
  }

  lemma SameSize(m: Mem, n: Mem)
    requires SameCode(m, n)
    ensures m.size == n.size
  {
  }

  lemma TranslateSameCode(cfg: Config, m: Mem, n: Mem)
    requires ValidMem(m) && ValidMem(n) && SameCode(m, n)
    ensures Translate(cfg, m) == Translate(cfg, n)
  {
    hide BlockFrom, SameCode, Padded;
    BlockSameCode(cfg, m, n, NewCache(), 0, cfg.basePc);
  }

  /** Running the guest does not make the code stale, because no store reaches an instruction. */
  lemma StaysCoherent(p: Params, b: Buffer, m: Mem, n: Mem)
    requires Coherent(p, b, m) && ValidMem(n) && SameCode(m, n)
    ensures Coherent(p, b, n)
  {
    hide EndOf, Translate, SameCode, ValidBuffer, ValidMem, Contains;
    forall block | 0 <= block < |b.offsets|
      ensures BlockCoherent(p, b, n, block)
    {
      assert BlockCoherent(p, b, m, block);
      TranslateSameCode(ConfigAt(p, Wrap(4 * block)), m, n);
    }
  }

  /** Translating a block and publishing it keeps every other block and adds its own. */
  lemma InsertCoherent(p: Params, b: Buffer, m: Mem, pc: Word)
    requires Coherent(p, b, m) && Find(b, pc) == Absent && pc % 4 == 0 && pc / 4 < |b.offsets|
    requires InsertCode(b, pc, Translate(ConfigAt(p, pc), m)).At?
    ensures var i := InsertCode(b, pc, Translate(ConfigAt(p, pc), m));
            Coherent(p, i.buffer, m) && Find(i.buffer, pc) == Found(i.offset) && |i.buffer.offsets| == |b.offsets|
  {
    hide EndOf, Translate, Allocate, ValidBuffer, Padded, Contains;
    var code := Translate(ConfigAt(p, pc), m);
    var a := Allocate(b, code);
    AllocateIs(b, code);
    var c := Publish(a.buffer, pc, a.offset);
    PublishValid(a.buffer, pc, a.offset);
    forall block | 0 <= block < |c.offsets|
      ensures BlockCoherent(p, c, m, block)
    {
      assert BlockCoherent(p, b, m, block);
      if block == pc / 4 {
        assert Wrap(4 * block) == pc;
        PublishContains(a.buffer, pc, a.offset, Region(a.offset, code));
      } else if b.offsets[block] != 0 {
        var r := Region(b.offsets[block], Translate(ConfigAt(p, Wrap(4 * block)), m));
        AllocateKeeps(b, code, r);
        PublishContains(a.buffer, pc, a.offset, r);
      }
    }
  }

  lemma PublishValid(b: Buffer, pc: Word, offset: Word)
    requires pc / 4 < |b.offsets| && ValidBuffer(b)
    ensures ValidBuffer(Publish(b, pc, offset))
  {
  }

  lemma PublishContains(b: Buffer, pc: Word, offset: Word, r: Region)
    requires pc / 4 < |b.offsets| && Contains(b, r)
    ensures Contains(Publish(b, pc, offset), r)
  {
  }

  // ----- the refinement -----

  ghost predicate ParamsOk(p: Params, b: Buffer) {
    !p.config.skipPermissionChecks && EnvOk(EnvOf(p, b), p.config)
  }

  /** A Vm about to run any guest whose memory keeps write-xor-execute, with a code buffer that may
      already hold blocks. */
  ghost predicate Prepared(p: Params, v: Vm) {
    v.phase.Dispatching? && Sound(v.machine) && Coherent(p, v.buffer, v.machine.mem) && ParamsOk(p, v.buffer)
  }

  /** The blocks there is code for. */
  function Blocks(b: Buffer): set<nat> {
    set k | 0 <= k < |b.offsets| && b.offsets[k] != 0
  }

  /** The guest a Vm about to look its pc up has. */
  function Waiting(p: Params, v: Vm): Guest { Arrived(p.config, v.machine, Blocks(v.buffer)) }

  /** k instructions under the engine lead from g0 to g, and the buffer is right for memory as it is there. */
  ghost predicate Along(p: Params, b: Buffer, g0: Guest, k: nat, g: Guest) {
    EngineReaches(p.config, g0, k, g) && Sound(g.machine) && Coherent(p, b, g.machine.mem) && ParamsOk(p, b)
  }

  /** The last of k instructions, at u, did not fall through and has led to g. */
  ghost predicate LeadsTo(p: Params, g0: Guest, k: nat, u: Guest, g: Guest) {
    k > 0 && EngineReaches(p.config, g0, k - 1, u) && Sound(u.machine) && !EngineEffect(p.config, u.machine).Falls?
    && EngineMove(p.config, u) == On(g)
  }

  /** g is where the run started, or some instruction that did not fall through has led there. */
  ghost predicate CameTo(p: Params, g0: Guest, k: nat, g: Guest) {
    (k == 0 && g == g0) || exists u: Guest :: LeadsTo(p, g0, k, u, g)
  }

  /** Where the Vm is when the guest, under the engine, is at g: about to look its pc up, in the code of its
      block, gone with what the instruction there comes to, or stopped for one of the exact reasons. */
  ghost predicate Tracks(p: Params, v: Vm, g0: Guest, k: nat, g: Guest) {
    var s := g.machine;
    && Along(p, v.buffer, g0, k, g)
    && match v.phase
       case Dispatching => v.machine == s && g == Waiting(p, v) && CameTo(p, g0, k, g)
       case InCode(offset, h) =>
         && ValidMem(v.machine.mem) && SameCode(v.machine.mem, s.mem) && InRange(p.config, s.Pc())
         && Find(v.buffer, s.Pc()) == Found(offset) && Enters(EnvOf(p, v.buffer), ConfigAt(p, s.Pc()), h, s)
         && g.blocks == Blocks(v.buffer)
       case Done(e) => EngineMove(p.config, g) == Off(v.machine, e) && v.machine.mem == s.mem
       case Dead(f) => v.machine == s && DiesOf(p, v.buffer, g, f) && (LookupFault(f) ==> CameTo(p, g0, k, g))
  }

  /** Faults of the trip that looks a pc up. */
  predicate LookupFault(f: Fault) { f == TableOverrun || f == BadInsert || f == BufferFull }

  predicate DiesOf(p: Params, b: Buffer, g: Guest, f: Fault)
    requires var m := g.machine.mem; |m.perms| >= m.size && |m.bytes| >= m.size
  {
    var pc := g.machine.Pc();
    match f
    case TableOverrun => pc % 4 == 0 && pc / 4 >= p.config.maxBlocks
    case BadInsert => pc % 4 != 0
    case BufferFull => InRange(p.config, pc) && Find(b, pc) == Absent
    case Unpredictable => EngineMove(p.config, g) == Lost
    case FatalError => EngineMove(p.config, g) == Halted
    case HostFault => false
  }

  /** Instructions accounted for, twice, and one more inside code. */
  function Progress(v: Vm, k: nat): nat { 2 * k + if v.phase.InCode? then 1 else 0 }

  // ----- looking up and translating -----

  lemma EntryEnters(p: Params, b: Buffer, s: Machine)
    requires Sound(s) && ParamsOk(p, b)
    ensures Enters(EnvOf(p, b), ConfigAt(p, s.Pc()), Entry(p, s), s)
  {
    hide Padded, WriteXorExecute;
  }

  /** Exactly the pcs no code is found or made for: one past the table is read out of bounds, and one that
      is misaligned fails the verify of insert. */
  lemma LookupIsExact(p: Params, v: Vm)
    requires Runnable(v) && v.phase.Dispatching?
    ensures var pc, offsets := v.machine.Pc(), |v.buffer.offsets|;
            && (Dispatch(p, v).phase == Dead(TableOverrun) <==> pc % 4 == 0 && pc / 4 >= offsets)
            && (Dispatch(p, v).phase == Dead(BadInsert) <==> pc % 4 != 0)
            && (Dispatch(p, v).phase.InCode? || Dispatch(p, v).phase == Dead(BufferFull)
                <==> pc % 4 == 0 && pc / 4 < offsets)
  {
    hide EndOf, Translate, Entry, Allocate, Padded;
    var code := Translate(ConfigAt(p, v.machine.Pc()), v.machine.mem);
    if !Allocate(v.buffer, code).At? {
      AllocateFails(v.buffer, code);
    }
  }

  lemma AllocateFails(b: Buffer, code: Code)
    requires ValidBuffer(b) && !Allocate(b, code).At?
    ensures Allocate(b, code) == OutOfMemory
  {
    hide WriteCode;
  }

  lemma PublishedBlocks(b: Buffer, pc: Word, offset: Word)
    requires pc / 4 < |b.offsets| && offset != 0
    ensures Blocks(Publish(b, pc, offset)) == Blocks(b) + {pc / 4}
  {
  }

  /** Looking a pc up leaves the table with the blocks the engine expects. */
  lemma DispatchBlocks(p: Params, v: Vm)
    requires Runnable(v) && v.phase.Dispatching? && |v.buffer.offsets| == p.config.maxBlocks
    ensures Dispatch(p, v).phase.InCode? ==> Blocks(Dispatch(p, v).buffer) == Waiting(p, v).blocks
  {
    hide EndOf, Translate, Entry, Allocate, Padded;
    var pc := v.machine.Pc();
    if Find(v.buffer, pc) == Absent && pc % 4 == 0 {
      var code := Translate(ConfigAt(p, pc), v.machine.mem);
      if Allocate(v.buffer, code).At? {
        AllocateIs(v.buffer, code);
        PublishedBlocks(Allocate(v.buffer, code).buffer, pc, Allocate(v.buffer, code).offset);
      }
    } else if Find(v.buffer, pc).Found? {
      assert pc / 4 in Blocks(v.buffer);
    }
  }

  lemma DispatchTracks(p: Params, v: Vm, g0: Guest, k: nat, g: Guest)
    requires Tracks(p, v, g0, k, g) && v.phase.Dispatching?
    ensures Runnable(v) && Tracks(p, Dispatch(p, v), g0, k, g)
    ensures Final(Dispatch(p, v)) || Dispatch(p, v).phase.InCode?
  {
    hide EngineReaches, EngineMove, Translate, BlockCoherent, WriteXorExecute, Padded, Enters, Entry, Allocate,
      SameCode, CameTo, Blocks, Waiting;
    var s, pc := g.machine, g.machine.Pc();
    SameCodeItself(s.mem);
    DispatchBlocks(p, v);
    if Find(v.buffer, pc) == Absent {
      var i := InsertCode(v.buffer, pc, Translate(ConfigAt(p, pc), s.mem));
      if i.At? {
        InsertCoherent(p, v.buffer, s.mem, pc);
        EntryEnters(p, i.buffer, s);
      } else if pc % 4 == 0 {
        AllocateFails(v.buffer, Translate(ConfigAt(p, pc), s.mem));
      }
    } else {
      EntryEnters(p, v.buffer, s);
    }
  }

  // ----- in code -----

  /** The code a table entry leads to, as it lies in the buffer. */
  lemma CodeAt(p: Params, b: Buffer, m: Mem, pc: Word, offset: Word) returns (tail: Code)
    requires Coherent(p, b, m) && Find(b, pc) == Found(offset)
    ensures offset / 4 <= |b.cells| && CodeFrom(b, offset) == Translate(ConfigAt(p, pc), m) + tail
  {
    hide Translate, Padded, CodeFrom, EndOf;
    assert BlockCoherent(p, b, m, pc / 4);
    assert Wrap(4 * (pc / 4)) == pc;
    tail := ContainsCode(b, Region(offset, Translate(ConfigAt(p, pc), m)));
  }

  lemma ReturnedMachine(env: Env, o: Outcome, t: Machine, r: ArchExit)
    requires Leaves(env, o, t.regs, t.mem, t.Pc(), r)
    ensures Back(o.host) == t
  {
    var x := SetPc(o.host.table, o.host.r[EXIT_PC]);
    forall q: nat | q < 33
      ensures x[q] == t.regs[q]
    {
      if q < 32 {
        var g: GuestReg := q;
        assert o.host.table[g] == t.regs[g];
      }
    }
    assert x == t.regs;
  }

  lemma LeavesReason(env: Env, o: Outcome, x: Registers, m: Mem, pc: Word, r: ArchExit)
    requires Leaves(env, o, x, m, pc, r)
    ensures o.Returned? && o.host.r[EXIT_REASON] == ArchCode(r)
  {
  }

  lemma ReturnCases(v: Vm, h: Host, r: ArchExit)
    requires h.r[EXIT_REASON] == ArchCode(r)
    ensures HandsOver(r) ==> Return(v, h) == InterpretOne(v, Back(h))
    ensures r == ArchBlockNotGenerated ==> Return(v, h) == Vm(Back(h), v.buffer, Dispatching)
    ensures r != ArchBlockNotGenerated && r != ArchSingleStep && !HandsOver(r) ==>
              Return(v, h) == Vm(Back(h), v.buffer, Done(SimpleExit(ExitReason(r))))
  {
    hide InterpretOne, Back;
  }

  lemma AlongLater(p: Params, b: Buffer, g0: Guest, k: nat, g: Guest, j: nat, h: Guest)
    requires Along(p, b, g0, k, g) && EngineReaches(p.config, g, j, h)
    ensures Along(p, b, g0, k + j, h)
  {
    hide EngineReaches, Coherent, WriteXorExecute, Padded, ParamsOk, SameCode;
    EngineTogether(p.config, g0, k, g, j, h);
    EngineKeeps(p.config, g, j, h);
    StaysCoherent(p, b, g.machine.mem, h.machine.mem);
  }

  lemma AlongMove(p: Params, b: Buffer, g0: Guest, k: nat, g: Guest)
    requires Along(p, b, g0, k, g) && EngineMove(p.config, g).On?
    ensures Along(p, b, g0, k + 1, EngineMove(p.config, g).guest)
    ensures !EngineEffect(p.config, g.machine).Falls? ==> CameTo(p, g0, k + 1, EngineMove(p.config, g).guest)
  {
    hide EngineReaches, EngineMove, EngineEffect, Coherent, WriteXorExecute, Padded, ParamsOk;
    EngineOnce(p.config, g);
    AlongLater(p, b, g0, k, g, 1, EngineMove(p.config, g).guest);
    if !EngineEffect(p.config, g.machine).Falls? {
      assert LeadsTo(p, g0, k + 1, g, EngineMove(p.config, g).guest);
    }
  }

  /** What the code of the block at g comes to: some instructions fall through, and it leaves with the
      effect of the next. */
  lemma CodeComesTo(p: Params, v: Vm, g0: Guest, k: nat, g: Guest) returns (n: nat, u: Guest)
    requires Tracks(p, v, g0, k, g) && v.phase.InCode?
    ensures Runnable(v) && FallsTo(p.config, g.machine, n, u.machine) && u.blocks == Blocks(v.buffer)
    ensures Along(p, v.buffer, g0, k + n, u) && SameCode(v.machine.mem, u.machine.mem)
    ensures var env := EnvOf(p, v.buffer);
            ComesTo(env, p.config, Run(env, CodeFrom(v.buffer, v.phase.offset), v.phase.host),
                    EngineEffect(p.config, u.machine))
  {
    hide CodeFrom, EngineReaches, WriteXorExecute, Padded, EngineEffect, Translate, Run, Enters, BlockCoherent,
      SameCode, ComesTo, FallsTo, EngineMove, Blocks;
    var b, s, pc, h := v.buffer, g.machine, g.machine.Pc(), v.phase.host;
    var env := EnvOf(p, b);
    var tail := CodeAt(p, b, s.mem, pc, v.phase.offset);
    SameCodeItself(s.mem);
    EntersMem(env, ConfigAt(p, pc), h, s);
    var o := Run(env, CodeFrom(b, v.phase.offset), h);
    var t;
    n, t := TranslatedBlock(env, ConfigAt(p, pc), s.mem, tail, h, s);
    u := Guest(t, g.blocks);
    FallsAnywhere(p.config, pc, s, n, t);
    FallsReach(p.config, s, n, t, g.blocks);
    AlongLater(p, b, g0, k, g, n, u);
    EngineKeeps(p.config, g, n, u);
    SameCodeTransitive(v.machine.mem, s.mem, t.mem);
    EffectAnywhere(p.config, pc, t);
    ComesAnywhere(env, p.config, pc, o, EngineEffect(p.config, t));
  }

  lemma EntersMem(env: Env, cfg: Config, h: Host, s: Machine)
    requires Enters(env, cfg, h, s)
    ensures h.mem == s.mem
  {
  }

  /** Branching on: into the code of the next block, or back to have it translated. */
  lemma BranchTracks(p: Params, v: Vm, o: Outcome, g0: Guest, k: nat, u: Guest) returns (h: Guest)
    requires Along(p, v.buffer, g0, k, u) && EngineEffect(p.config, u.machine).Branches? && u.blocks == Blocks(v.buffer)
    requires ValidMem(v.machine.mem) && SameCode(v.machine.mem, u.machine.mem)
    requires ComesTo(EnvOf(p, v.buffer), p.config, o, EngineEffect(p.config, u.machine))
    ensures Tracks(p, AfterCode(p, v, o), g0, k + 1, h) && !Final(AfterCode(p, v, o))
            && EngineMove(p.config, u) == On(h)
    ensures AfterCode(p, v, o).phase.Dispatching? <==> EngineEffect(p.config, u.machine).machine.Pc() / 4 !in u.blocks
    ensures o.Returned? ==> Pending(p, AfterCode(p, v, o))
  {
    hide SameCode, EngineReaches, Coherent, WriteXorExecute, Padded, Leaves, Return, Back, InTable, EngineEffect,
      CameTo;
    var env, e := EnvOf(p, v.buffer), EngineEffect(p.config, u.machine);
    var x, m, to := e.machine.regs, e.machine.mem, e.machine.Pc();
    EffectKeeps(p.config, u.machine);
    ReportIs(p.config, u.machine);
    AlongMove(p, v.buffer, g0, k, u);
    h := EngineMove(p.config, u).guest;
    if env.offsets[to / 4] == 0 {
      LeavesReason(env, o, x, m, e.report, ArchBlockNotGenerated);
      LeavesSetPc(env, o, x, m, e.report, e.report, ArchBlockNotGenerated);
      ReturnedMachine(env, o, MachineAt(x, e.report, m), ArchBlockNotGenerated);
      ReturnCases(v, o.host, ArchBlockNotGenerated);
    }
  }

  /** Coming back with a reason: the run leaves, or the interpreter takes one instruction. */
  lemma ExitTracks(p: Params, v: Vm, o: Outcome, g0: Guest, k: nat, u: Guest) returns (j: nat, h: Guest)
    requires Along(p, v.buffer, g0, k, u) && EngineEffect(p.config, u.machine).Exits? && u.blocks == Blocks(v.buffer)
    requires ComesTo(EnvOf(p, v.buffer), p.config, o, EngineEffect(p.config, u.machine))
    ensures o.Returned? && Tracks(p, Return(v, o.host), g0, j, h) && (Final(Return(v, o.host)) || j == k + 1)
    ensures !Return(v, o.host).phase.InCode? && o.host.r[EXIT_REASON] != ArchCode(ArchBlockNotGenerated)
  {
    hide EngineReaches, Coherent, WriteXorExecute, Padded, ParamsOk, Step, Leaves, Return, Back, EngineEffect, ArchCode,
      CameTo, Blocks, InRange;
    var env, e := EnvOf(p, v.buffer), EngineEffect(p.config, u.machine);
    ExitsProperly(p.config, u.machine);
    EffectKeeps(p.config, u.machine);
    LeavesReason(env, o, e.machine.regs, e.machine.mem, e.machine.Pc(), e.reason);
    ReturnedMachine(env, o, e.machine, e.reason);
    ReturnCases(v, o.host, e.reason);
    CodesDiffer(e.reason, ArchBlockNotGenerated);
    j, h := k, u;
    if HandsOver(e.reason) && Step(u.machine).Next? {
      AlongMove(p, v.buffer, g0, k, u);
      j, h := k + 1, EngineMove(p.config, u).guest;
    }
  }

  lemma CodesDiffer(a: ArchExit, b: ArchExit)
    ensures ArchCode(a) == ArchCode(b) ==> a == b
  {
  }

  /** A trip through code. */
  lemma CodeTracks(p: Params, v: Vm, g0: Guest, k: nat, g: Guest) returns (j: nat, h: Guest)
    requires Tracks(p, v, g0, k, g) && v.phase.InCode?
    ensures Runnable(v) && Tracks(p, VmStep(p, v), g0, j, h) && (Final(VmStep(p, v)) || j > k)
  {
    hide CodeFrom, EngineReaches, WriteXorExecute, Padded, EngineEffect, EngineMove, Run, Return, Enters, BlockCoherent,
      SameCode, ComesTo, CameTo, Blocks, Waiting;
    var n, u := CodeComesTo(p, v, g0, k, g);
    j := k + n;
    var o := Run(EnvOf(p, v.buffer), CodeFrom(v.buffer, v.phase.offset), v.phase.host);
    assert VmStep(p, v) == AfterCode(p, v, o);
    if EngineEffect(p.config, u.machine).Branches? {
      h := BranchTracks(p, v, o, g0, j, u);
      j := j + 1;
    } else {
      ComesOut(EnvOf(p, v.buffer), p.config, o, EngineEffect(p.config, u.machine));
      j, h := ExitTracks(p, v, o, g0, j, u);
    }
  }

  lemma ComesOut(env: Env, cfg: Config, o: Outcome, e: Effect)
    requires EnvOk(env, cfg) && ComesTo(env, cfg, o, e)
    ensures !e.Falls?
  {
    hide Leaves, InTable;
  }

  /** Translated code leaves the size and the permissions of guest memory alone. */
  lemma ReturnsMemory(p: Params, v: Vm, g0: Guest, k: nat, g: Guest)
    requires Tracks(p, v, g0, k, g) && v.phase.InCode?
    ensures Runnable(v)
    ensures var o := Run(EnvOf(p, v.buffer), CodeFrom(v.buffer, v.phase.offset), v.phase.host);
            !o.Crash? && ValidMem(o.host.mem) && SameCode(v.machine.mem, o.host.mem)
  {
    hide CodeFrom, EngineReaches, WriteXorExecute, Padded, EngineEffect, Run, Enters, BlockCoherent, SameCode, InTable,
      Blocks;
    var _, u := CodeComesTo(p, v, g0, k, g);
    EffectKeeps(p.config, u.machine);
  }

  lemma StepTracks(p: Params, v: Vm, g0: Guest, k: nat, g: Guest) returns (j: nat, h: Guest)
    requires Tracks(p, v, g0, k, g)
    ensures Tracks(p, VmStep(p, v), g0, j, h)
    ensures Final(VmStep(p, v)) || Progress(VmStep(p, v), j) > Progress(v, k)
    ensures Final(v) ==> VmStep(p, v) == v && j == k && h == g
  {
    hide Tracks, Dispatch, Return, Run, Translate;
    j, h := k, g;
    match v.phase
    case Dispatching => DispatchTracks(p, v, g0, k, g);
    case InCode(_, _) => j, h := CodeTracks(p, v, g0, k, g);
    case _ =>
  }

  // ----- whole runs -----

  lemma StartTracks(p: Params, v: Vm)
    requires Prepared(p, v)
    ensures Tracks(p, v, Waiting(p, v), 0, Waiting(p, v))
  {
    hide Coherent, ParamsOk, WriteXorExecute, Padded, Blocks, InRange;
    EngineStays(p.config, Waiting(p, v));
  }

  lemma {:induction false} RunTracks(p: Params, v: Vm, n: nat) returns (k: nat, g: Guest)
    requires Prepared(p, v)
    ensures Tracks(p, VmRun(p, v, n), Waiting(p, v), k, g)
    ensures Final(VmRun(p, v, n)) || Progress(VmRun(p, v, n), k) >= n
    decreases n
  {
    hide Prepared, Tracks, VmStep, Waiting;
    if n == 0 {
      StartTracks(p, v);
      k, g := 0, Waiting(p, v);
    } else {
      var j, h := RunTracks(p, v, n - 1);
      k, g := StepTracks(p, VmRun(p, v, n - 1), Waiting(p, v), j, h);
    }
  }

  /** Guest memory as it is: native code works on its own. */
  function GuestMemory(v: Vm): Mem {
    if v.phase.InCode? then v.phase.host.mem else v.machine.mem
  }

  /** For every guest, in every reachable state: each entry of the table leads to what translating its
      block now would give, whatever the guest has stored meanwhile; no instruction has changed. */
  lemma AlwaysCoherent(p: Params, v: Vm, n: nat)
    requires Prepared(p, v)
    ensures var w := VmRun(p, v, n);
            Coherent(p, w.buffer, GuestMemory(w)) && WriteXorExecute(GuestMemory(w))
            && SameCode(v.machine.mem, GuestMemory(w))
  {
    hide Coherent, WriteXorExecute, Padded, VmRun, EngineReaches, EngineMove, SameCode, CameTo, Blocks;
    var k, g := RunTracks(p, v, n);
    EngineKeeps(p.config, Waiting(p, v), k, g);
  }

  /** For every guest: a run never faults on the host, and is at each trip where the engine has the guest,
      with code for the same blocks; it leaves only with what an instruction comes to, and ends without an
      exit only for a pc there is no entry for, a full buffer, or what the interpreter meets when an
      instruction is left to it. */
  lemma RunIsTranslated(p: Params, v: Vm, n: nat) returns (k: nat, g: Guest)
    requires Prepared(p, v)
    ensures EngineReaches(p.config, Waiting(p, v), k, g) && Sound(g.machine)
    ensures var w := VmRun(p, v, n);
            match w.phase
            case Dispatching => g == Waiting(p, w) && 2 * k >= n
            case InCode(_, h) =>
              h.mem == g.machine.mem && InTable(h, g.machine.regs) && g.blocks == Blocks(w.buffer) && 2 * k + 1 >= n
            case Done(e) => EngineMove(p.config, g) == Off(w.machine, e)
            case Dead(f) => w.machine == g.machine && f != HostFault && DiesOf(p, w.buffer, g, f)
  {
    hide Coherent, WriteXorExecute, Padded, VmRun, EngineReaches, EngineMove, SameCode, InTable, CameTo, Blocks,
      Waiting;
    k, g := RunTracks(p, v, n);
  }

  // ----- bounded translation -----

  function Filled(offsets: seq<Word>): (n: nat)
    ensures n <= |offsets|
  {
    if offsets == [] then 0 else (if offsets[|offsets| - 1] != 0 then 1 else 0) + Filled(offsets[..|offsets| - 1])
  }

  lemma {:induction false} FillOne(offsets: seq<Word>, k: nat, offset: Word)
    requires k < |offsets| && offsets[k] == 0 && offset != 0
    ensures Filled(offsets[k := offset]) == Filled(offsets) + 1
    decreases |offsets|
  {
    var last := |offsets| - 1;
    var changed := offsets[k := offset];
    if k == last {
      assert changed[..last] == offsets[..last];
    } else {
      assert changed[..last] == offsets[..last][k := offset];
      FillOne(offsets[..last], k, offset);
    }
  }

  lemma {:induction false} SomeUnfilled(offsets: seq<Word>, k: nat)
    requires k < |offsets| && offsets[k] == 0
    ensures Filled(offsets) < |offsets|
    decreases |offsets|
  {
    if k < |offsets| - 1 {
      SomeUnfilled(offsets[..|offsets| - 1], k);
    }
  }

  /** The next trip translates a block. */
  ghost predicate Translates(p: Params, v: Vm) {
    v.phase.Dispatching? && Find(v.buffer, v.machine.Pc()) == Absent && VmStep(p, v).phase.InCode?
  }

  /** The next trip comes back with BlockNotGenerated. */
  ghost predicate Misses(p: Params, v: Vm) {
    v.phase.InCode? && Runnable(v)
    && var o := Run(EnvOf(p, v.buffer), CodeFrom(v.buffer, v.phase.offset), v.phase.host);
       o.Returned? && o.host.r[EXIT_REASON] == ArchCode(ArchBlockNotGenerated)
  }

  ghost function Translations(p: Params, v: Vm, n: nat): nat {
    if n == 0 then 0 else Translations(p, v, n - 1) + (if Translates(p, VmRun(p, v, n - 1)) then 1 else 0)
  }

  ghost function MissCount(p: Params, v: Vm, n: nat): nat {
    if n == 0 then 0 else MissCount(p, v, n - 1) + (if Misses(p, VmRun(p, v, n - 1)) then 1 else 0)
  }

  /** A trip changes the table only by translating, and then fills one zero entry. */
  lemma TripFills(p: Params, v: Vm) returns (offset: Word)
    ensures Translates(p, v) ==>
              && v.machine.Pc() / 4 < |v.buffer.offsets| && v.buffer.offsets[v.machine.Pc() / 4] == 0
              && offset != 0 && VmStep(p, v).buffer.offsets == v.buffer.offsets[v.machine.Pc() / 4 := offset]
    ensures !Translates(p, v) ==> VmStep(p, v).buffer.offsets == v.buffer.offsets
  {
    hide CodeFrom, Run, Translate, Allocate, Return, Step, Padded, Entry;
    offset := 0;
    if Translates(p, v) {
      var code := Translate(ConfigAt(p, v.machine.Pc()), v.machine.mem);
      AllocateIs(v.buffer, code);
      offset := Allocate(v.buffer, code).offset;
    } else if v.phase.InCode? && Runnable(v) {
      AfterCodeKeeps(p, v, Run(EnvOf(p, v.buffer), CodeFrom(v.buffer, v.phase.offset), v.phase.host));
    }
  }

  lemma AfterCodeKeeps(p: Params, v: Vm, o: Outcome)
    ensures AfterCode(p, v, o).buffer == v.buffer
  {
    hide Step, Padded;
  }

  /** Every translation fills an entry, and none is ever cleared. */
  lemma {:induction false} EachTranslationFills(p: Params, v: Vm, n: nat)
    ensures var w := VmRun(p, v, n);
            Filled(w.buffer.offsets) == Filled(v.buffer.offsets) + Translations(p, v, n)
              && |w.buffer.offsets| == |v.buffer.offsets|
    decreases n
  {
    hide Translates, VmStep, Filled;
    if n > 0 {
      var u := VmRun(p, v, n - 1);
      EachTranslationFills(p, v, n - 1);
      var o := TripFills(p, u);
      if Translates(p, u) {
        FillOne(u.buffer.offsets, u.machine.Pc() / 4, o);
      }
    }
  }

  lemma {:induction false} EntryStays(p: Params, v: Vm, n: nat, block: nat)
    requires block < |v.buffer.offsets| && v.buffer.offsets[block] != 0
    ensures |VmRun(p, v, n).buffer.offsets| == |v.buffer.offsets|
    ensures VmRun(p, v, n).buffer.offsets[block] == v.buffer.offsets[block]
    decreases n
  {
    hide Translates, VmStep;
    if n > 0 {
      EntryStays(p, v, n - 1, block);
      var _ := TripFills(p, VmRun(p, v, n - 1));
    }
  }

  lemma {:induction false} RunTogether(p: Params, v: Vm, i: nat, j: nat)
    ensures VmRun(p, VmRun(p, v, i), j) == VmRun(p, v, i + j)
    decreases j
  {
    hide VmStep;
    if j > 0 {
      RunTogether(p, v, i, j - 1);
    }
  }

  /** No address is translated twice, and a run translates at most as many blocks as the table has
      entries: whatever the guest does. */
  lemma TranslatedOnce(p: Params, v: Vm, i: nat, j: nat)
    ensures Translations(p, v, j) <= |v.buffer.offsets|
    ensures i < j && Translates(p, VmRun(p, v, i)) && Translates(p, VmRun(p, v, j)) ==>
              VmRun(p, v, i).machine.Pc() / 4 != VmRun(p, v, j).machine.Pc() / 4
  {
    hide Translates, VmStep, Filled;
    EachTranslationFills(p, v, j);
    if i < j && Translates(p, VmRun(p, v, i)) && Translates(p, VmRun(p, v, j)) {
      var u, k := VmRun(p, v, i), j - i - 1;
      var _ := TripFills(p, u);
      var _ := TripFills(p, VmRun(p, v, j));
      RunTogether(p, v, i + 1, k);
      assert VmRun(p, v, i + 1) == VmStep(p, u);
      EntryStays(p, VmStep(p, u), k, u.machine.Pc() / 4);
    }
  }

  /** A pc the table has an empty entry for is waiting, or was when the buffer was full; or the address
      reported for it was odd, and insert has refused it. */
  ghost predicate Pending(p: Params, v: Vm) {
    var pc := ClearLowBit(v.machine.Pc());
    pc % 4 == 0 && pc / 4 < |v.buffer.offsets| && v.buffer.offsets[pc / 4] == 0
    && (v.phase.Dispatching? || v.phase == Dead(BufferFull) || v.phase == Dead(BadInsert))
  }

  function Count(b: bool): nat { if b then 1 else 0 }

  lemma MissPending(p: Params, v: Vm, g0: Guest, k: nat, g: Guest)
    requires Tracks(p, v, g0, k, g) && Misses(p, v)
    ensures Pending(p, VmStep(p, v))
  {
    hide CodeFrom, EngineReaches, WriteXorExecute, Padded, EngineEffect, EngineMove, Run, Return, Enters, BlockCoherent,
      SameCode, ComesTo, Pending, ArchCode, Blocks;
    var n, u := CodeComesTo(p, v, g0, k, g);
    var o := Run(EnvOf(p, v.buffer), CodeFrom(v.buffer, v.phase.offset), v.phase.host);
    assert VmStep(p, v) == AfterCode(p, v, o);
    if EngineEffect(p.config, u.machine).Branches? {
      var _ := BranchTracks(p, v, o, g0, k + n, u);
    } else {
      ComesOut(EnvOf(p, v.buffer), p.config, o, EngineEffect(p.config, u.machine));
      var _, _ := ExitTracks(p, v, o, g0, k + n, u);
    }
  }

  lemma TripPending(p: Params, v: Vm, g0: Guest, k: nat, g: Guest)
    requires Tracks(p, v, g0, k, g)
    ensures Misses(p, v) ==> !Pending(p, v) && Pending(p, VmStep(p, v))
    ensures Pending(p, v) && !Translates(p, v) ==> Pending(p, VmStep(p, v))
  {
    hide EngineReaches, EngineMove, WriteXorExecute, Padded, Translate, Run, Return, Enters, BlockCoherent, Entry,
      Allocate, AfterCode, ClearLowBit, CameTo, Blocks;
    if Misses(p, v) {
      MissPending(p, v, g0, k, g);
    } else if Pending(p, v) && v.phase.Dispatching? {
      DispatchTracks(p, v, g0, k, g);
      WaitingPc(v.buffer, v.machine.Pc());
    }
  }

  lemma WaitingPc(b: Buffer, pc: Word)
    requires var at := ClearLowBit(pc); at % 4 == 0 && at / 4 < |b.offsets| && b.offsets[at / 4] == 0
    ensures Find(b, pc) == Absent
  {
  }

  lemma {:induction false} MissesAreTranslated(p: Params, v: Vm, n: nat)
    requires Prepared(p, v)
    ensures MissCount(p, v, n) <= Translations(p, v, n) + Count(Pending(p, VmRun(p, v, n)))
    decreases n
  {
    hide Translates, Misses, VmStep, Pending, Tracks, Prepared;
    if n > 0 {
      var u := VmRun(p, v, n - 1);
      MissesAreTranslated(p, v, n - 1);
      var k, g := RunTracks(p, v, n - 1);
      TripPending(p, u, Waiting(p, v), k, g);
      MissIsNotTranslation(p, u);
    }
  }

  lemma MissIsNotTranslation(p: Params, v: Vm)
    ensures !(Misses(p, v) && Translates(p, v))
  {
    hide Run, VmStep;
  }

  /** However long a run, of whatever guest, BlockNotGenerated comes back at most once for each empty
      entry. */
  lemma BoundedMisses(p: Params, v: Vm, n: nat)
    requires Prepared(p, v)
    ensures MissCount(p, v, n) + Filled(v.buffer.offsets) <= p.config.maxBlocks
  {
    hide Filled, MissCount, Translations, VmRun, Sound, Coherent;
    MissesAreTranslated(p, v, n);
    EachTranslationFills(p, v, n);
    var w := VmRun(p, v, n);
    if Pending(p, w) {
      SomeUnfilled(w.buffer.offsets, ClearLowBit(w.machine.Pc()) / 4);
    }
  }
}
