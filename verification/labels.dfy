/** Labels of a translated block: each exit's label is bound once, after every use, in the exits. */
module Labels {
  import opened Words
  import opened Instructions
  import opened Memories
  import opened Interpreter
  import opened HostMachine
  import opened RegisterCaches
  import opened Translator

  predicate NoBinds(s: Code) {
    forall k :: 0 <= k < |s| ==> !s[k].Bind?
  }

  /** Neither labels nor jumps to them. */
  predicate Plain(s: Code) {
    forall k :: 0 <= k < |s| ==> !s[k].Bind? && !s[k].BCond? && !s[k].Cbz?
  }

  lemma PlainAppend(s: Code, t: Code)
    ensures Plain(s + t) <==> Plain(s) && Plain(t)
  {
    assert forall k :: 0 <= k < |s| ==> (s + t)[k] == s[k];
    assert forall k :: 0 <= k < |t| ==> (s + t)[|s| + k] == t[k];
  }

  lemma NoBindsMeans(s: Code, l: Label)
    requires NoBinds(s)
    ensures !Binds(s, l)
  {
  }

  lemma NoBindsAppend(s: Code, t: Code)
    ensures NoBinds(s + t) <==> NoBinds(s) && NoBinds(t)
  {
    assert forall k :: 0 <= k < |s| ==> (s + t)[k] == s[k];
    assert forall k :: 0 <= k < |t| ==> (s + t)[|s| + k] == t[k];
  }

  // ----- code without labels -----

  lemma {:induction false} FlushPlain(s: Snapshot, i: nat)
    requires i <= CACHE_SIZE
    ensures Plain(FlushFrom(s, i))
    decreases CACHE_SIZE - i
  {
    if i < CACHE_SIZE {
      FlushPlain(s, i + 1);
    }
  }

  lemma {:induction false} EvictPlain(c: Cache, order: seq<SlotId>, count: nat)
    requires Shape(c) && count <= |order|
    ensures Plain(EvictLast(c, order, count).code)
    decreases count
  {
    if count > 0 {
      EvictPlain(EvictSlot(c, order[|order| - 1]), order[..|order| - 1], count - 1);
    }
  }

  lemma {:induction false} LockEachPlain(c: Cache, reqs: seq<Request>, wanted: set<GuestReg>)
    requires Shape(c)
    ensures Plain(LockEach(c, reqs, wanted).code)
    decreases |reqs|
  {
    if reqs != [] {
      var r := reqs[0].reg;
      if r == 0 {
        LockEachPlain(c, reqs[1..], wanted);
      } else if c.toSlot[r] != NONE {
        LockEachPlain(UseSlot(c, r), reqs[1..], wanted);
      } else if c.free != [] {
        LockEachPlain(AssignSlot(c, r), reqs[1..], wanted);
      }
    }
  }

  lemma LockPlain(c: Cache, reqs: seq<Request>)
    requires Shape(c)
    ensures Plain(Lock(c, reqs).code)
  {
    hide MarkCached, EvictionOrder, EvictLast, LockEach;
    var m := MarkCached(c, reqs);
    if Shortage(c, reqs) > 0 && Shortage(c, reqs) <= |EvictionOrder(m.slots)| {
      EvictPlain(m, EvictionOrder(m.slots), Shortage(c, reqs));
    }
    LockEachPlain(Reserve(c, reqs).cache, reqs, Reads(reqs));
  }

  lemma LoadImmediatePlain(cfg: Config, d: HReg, v: Word)
    ensures Plain(LoadImmediate(cfg, d, v))
  {
  }

  lemma AddOffsetPlain(cfg: Config, value: HReg, scratch: HReg, offset: int)
    ensures Plain(AddOffset(cfg, value, scratch, offset).code)
  {
  }

  lemma ExitPlain(cfg: Config, c: Cache, reason: ArchExit, pc: Word)
    requires Shape(c)
    ensures Plain(ExitCode(cfg, c, reason, pc))
  {
    hide TakeSnapshot, LoadImmediate, FlushFrom;
    FlushPlain(TakeSnapshot(c), 0);
    LoadImmediatePlain(cfg, EXIT_PC, pc);
    LoadImmediatePlain(cfg, EXIT_REASON, ArchCode(reason));
  }

  lemma StubPlain(cfg: Config, e: PendingExit)
    ensures Plain(StubBody(cfg, e))
  {
    hide LoadImmediate, FlushFrom;
    FlushPlain(e.snapshot, 0);
    LoadImmediatePlain(cfg, EXIT_PC, e.pcValue);
    LoadImmediatePlain(cfg, EXIT_REASON, ArchCode(e.reason));
  }

  lemma ValidateNoBinds(cfg: Config, address: HReg, fault: Label, w: nat, a: Access)
    ensures NoBinds(ValidateAccess(cfg, address, fault, w, a))
  {
  }

  lemma StaticBranchNoBinds(cfg: Config, c: Cache, n: Label, target: Word, scratch: HReg, pc: Word)
    requires Shape(c)
    ensures NoBinds(StaticBranch(cfg, c, n, target, scratch, pc).code)
  {
    hide TakeSnapshot, LoadImmediate, FlushFrom, ExitCode;
    ExitPlain(cfg, c, ArchUnalignedPc, pc);
    ExitPlain(cfg, c, ArchOutOfBoundsPc, pc);
    FlushPlain(TakeSnapshot(c), 0);
    LoadImmediatePlain(cfg, scratch, target);
  }

  lemma DynamicBranchNoBinds(cfg: Config, c: Cache, n: Label, target: HReg, scratch: HReg)
    requires Shape(c)
    ensures NoBinds(DynamicBranch(cfg, c, n, target, scratch).code)
  {
    hide TakeSnapshot, FlushFrom;
    FlushPlain(TakeSnapshot(c), 0);
  }

  lemma ImmediateBodiesPlain(cfg: Config, op: ImmOp, unsigned: bool, a: HReg, d: HReg, imm: int)
    ensures Plain(ImmBody(cfg, op, a, d, imm)) && Plain(SetImmBody(cfg, unsigned, a, d, imm))
  {
    hide LoadImmediate;
    LoadImmediatePlain(cfg, A_REG, Wrap(imm));
    LoadImmediatePlain(cfg, d, Wrap(imm));
  }

  lemma BodyPlain(cfg: Config, i: Instruction, pc: Word, a: HReg, b: HReg, d: HReg)
    requires IsCompute(i.op)
    ensures Plain(ComputeBody(cfg, i, pc, a, b, d))
  {
    hide LoadImmediate, ImmBody, SetImmBody;
    match i.op
    case Lui => LoadImmediatePlain(cfg, d, Wrap(i.imm));
    case Auipc => LoadImmediatePlain(cfg, d, Wrap(pc + i.imm));
    case Imm(op) => ImmediateBodiesPlain(cfg, op, false, a, d, i.imm);
    case SetImm(unsigned) =>
      ImmediateBodiesPlain(cfg, Addi, unsigned, a, d, i.imm);
      LoadImmediatePlain(cfg, d, BoolWord(if unsigned then 0 < Wrap(i.imm) else 0 < i.imm));
    case _ =>
  }

  lemma LinkPlain(cfg: Config, c: Cache, n: Label, pc: Word, rd: GuestReg)
    requires Shape(c)
    ensures var p := LinkPiece(cfg, c, n, pc, rd); Plain(p.code) && p.exits == [] && p.next == n
  {
    hide Lock, LoadImmediate, Unlock;
    if rd != 0 {
      var l := Lock(c, [WriteOnly(rd)]);
      LockPlain(c, [WriteOnly(rd)]);
      if |l.regs| == 1 {
        LoadImmediatePlain(cfg, l.regs[0], Wrap(pc + 4));
      }
    }
  }

  lemma StaticBranchExits(cfg: Config, c: Cache, n: Label, target: Word, scratch: HReg, pc: Word)
    requires Shape(c)
    ensures var p := StaticBranch(cfg, c, n, target, scratch, pc);
            n <= p.next <= n + 1 && |p.exits| == p.next - n && forall k :: 0 <= k < |p.exits| ==> p.exits[k].target == n
  {
    hide LoadImmediate, FlushFrom, TakeSnapshot, ExitCode, ValidatedBranch;
  }

  // ----- finding a stub -----

  predicate DistinctTargets(exits: seq<PendingExit>) {
    forall j, k :: 0 <= j < k < |exits| ==> exits[j].target != exits[k].target
  }

  /** Each exit's label leads to its stub. */
  ghost predicate Resolves(cfg: Config, rest: Code, exits: seq<PendingExit>) {
    forall k :: 0 <= k < |exits| ==> StubBody(cfg, exits[k]) <= After(rest, exits[k].target)
  }

  lemma {:induction false} StubsResolve(cfg: Config, exits: seq<PendingExit>, rest: Code)
    requires DistinctTargets(exits)
    ensures Resolves(cfg, Stubs(cfg, exits) + rest, exits)
  {
    if exits != [] {
      hide StubBody, After, Stubs;
      var e, others := exits[0], exits[1..];
      var tail := Stubs(cfg, others) + rest;
      StubsResolve(cfg, others, rest);
      FirstStub(cfg, exits, rest);
      forall k | 0 < k < |exits|
        ensures StubBody(cfg, exits[k]) <= After(Stubs(cfg, exits) + rest, exits[k].target)
      {
        LaterStub(cfg, exits, rest, exits[k].target);
        assert exits[k] == others[k - 1];
      }
    }
  }

  lemma FirstStub(cfg: Config, exits: seq<PendingExit>, rest: Code)
    requires exits != []
    ensures StubBody(cfg, exits[0]) <= After(Stubs(cfg, exits) + rest, exits[0].target)
  {
    hide StubBody, After;
    var e := exits[0];
    var tail := Stubs(cfg, exits[1..]) + rest;
    assert Stubs(cfg, exits) + rest == [Bind(e.target)] + (StubBody(cfg, e) + tail);
    AfterHere(StubBody(cfg, e) + tail, e.target);
  }

  lemma LaterStub(cfg: Config, exits: seq<PendingExit>, rest: Code, l: Label)
    requires exits != [] && l != exits[0].target
    ensures After(Stubs(cfg, exits) + rest, l) == After(Stubs(cfg, exits[1..]) + rest, l)
  {
    hide StubBody, After;
    var body, tail := StubBody(cfg, exits[0]), Stubs(cfg, exits[1..]) + rest;
    StubPlain(cfg, exits[0]);
    NoBindsMeans(body, l);
    assert Stubs(cfg, exits) + rest == ([Bind(exits[0].target)] + body) + tail;
    AfterSkips([Bind(exits[0].target)] + body, tail, l);
  }

  /** Exits resolve through code that does not bind their labels. */
  lemma ResolvesThrough(cfg: Config, code: Code, rest: Code, exits: seq<PendingExit>)
    requires Resolves(cfg, rest, exits)
    requires forall k :: 0 <= k < |exits| ==> !Binds(code, exits[k].target)
    ensures Resolves(cfg, code + rest, exits)
  {
    forall k | 0 <= k < |exits|
      ensures After(code + rest, exits[k].target) == After(rest, exits[k].target)
    {
      AfterSkips(code, rest, exits[k].target);
    }
  }
}
