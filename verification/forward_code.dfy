/** Translated code only goes forward: every label allocated for a block is bound exactly once, after all
    its uses, and no other label is used or bound. */
module ForwardCode {
  import opened Words
  import opened Instructions
  import opened Memories
  import opened Interpreter
  import opened HostMachine
  import opened RegisterCaches
  import opened Translator
  import opened TranslationChecks
  import opened Labels

  predicate IsUse(i: HInstr, l: Label) {
    (i.BCond? || i.Cbz?) && i.target == l
  }

  /** No instruction binds the label. */
  predicate Unbound(s: Code, l: Label) {
    forall k :: 0 <= k < |s| ==> s[k] != Bind(l)
  }

  predicate Unused(s: Code, l: Label) {
    forall k :: 0 <= k < |s| ==> !IsUse(s[k], l)
  }

  /** Bound at k and nowhere else, with no use from there on. */
  predicate BoundAt(s: Code, l: Label, k: nat) {
    k < |s| && s[k] == Bind(l) && forall j :: 0 <= j < |s| ==>
      (s[j] == Bind(l) ==> j == k) && (IsUse(s[j], l) ==> j < k)
  }

  ghost predicate BoundAfterUses(s: Code, l: Label) {
    exists k: nat :: BoundAt(s, l, k)
  }

  lemma BoundThenUntouched(s: Code, t: Code, l: Label)
    requires BoundAfterUses(s, l) && Unbound(t, l) && Unused(t, l)
    ensures BoundAfterUses(s + t, l)
  {
    var k: nat :| BoundAt(s, l, k);
    forall j | 0 <= j < |s + t|
      ensures ((s + t)[j] == Bind(l) ==> j == k) && (IsUse((s + t)[j], l) ==> j < k)
    {
      assert (s + t)[j] == if j < |s| then s[j] else t[j - |s|];
    }
    assert BoundAt(s + t, l, k);
  }

  lemma UnboundThenBound(s: Code, t: Code, l: Label)
    requires Unbound(s, l) && BoundAfterUses(t, l)
    ensures BoundAfterUses(s + t, l)
  {
    var k: nat :| BoundAt(t, l, k);
    forall j | 0 <= j < |s + t|
      ensures ((s + t)[j] == Bind(l) ==> j == |s| + k) && (IsUse((s + t)[j], l) ==> j < |s| + k)
    {
      assert (s + t)[j] == if j < |s| then s[j] else t[j - |s|];
    }
    assert BoundAt(s + t, l, |s| + k);
  }

  lemma JoinUntouched(s: Code, t: Code, l: Label)
    ensures Unbound(s, l) && Unbound(t, l) ==> Unbound(s + t, l)
    ensures Unused(s, l) && Unused(t, l) ==> Unused(s + t, l)
  {
    assert forall j :: 0 <= j < |s + t| ==> (s + t)[j] == if j < |s| then s[j] else t[j - |s|];
  }

  predicate IsExit(exits: seq<PendingExit>, l: Label) {
    exists k :: 0 <= k < |exits| && exits[k].target == l
  }

  // ----- the labels of a piece -----

  /** Labels from n up to the next are the piece's own: each is that of one exit and not bound, or bound
      after its uses. The piece touches no other label. */
  ghost predicate Owns(p: Piece, n: Label) {
    && n <= p.next && DistinctTargets(p.exits)
    && (forall l: Label :: !(n <= l < p.next) ==> Unbound(p.code, l) && Unused(p.code, l) && !IsExit(p.exits, l))
    && (forall l: Label :: n <= l < p.next ==>
          if IsExit(p.exits, l) then Unbound(p.code, l) else BoundAfterUses(p.code, l))
  }

  /** All that is used goes to exits. */
  predicate UsesExits(s: Code, exits: seq<PendingExit>) {
    forall k :: 0 <= k < |s| ==> s[k].BCond? || s[k].Cbz? ==> IsExit(exits, s[k].target)
  }

  lemma ExitsOnly(p: Piece, n: Label)
    requires n <= p.next && NoBinds(p.code) && UsesExits(p.code, p.exits) && DistinctTargets(p.exits)
    requires forall l: Label :: IsExit(p.exits, l) <==> n <= l < p.next
    ensures Owns(p, n)
  {
  }

  lemma UsesExitsAppend(s: Code, t: Code, exits: seq<PendingExit>)
    ensures UsesExits(s + t, exits) <==> UsesExits(s, exits) && UsesExits(t, exits)
  {
    hide IsExit;
    assert forall k :: 0 <= k < |s| ==> (s + t)[k] == s[k];
    assert forall k :: 0 <= k < |t| ==> (s + t)[|s| + k] == t[k];
  }

  lemma PlainUses(s: Code, exits: seq<PendingExit>)
    requires Plain(s)
    ensures UsesExits(s, exits) && NoBinds(s)
  {
  }

  lemma EmptyOwns(p: Piece, n: Label)
    requires Plain(p.code) && p.exits == [] && p.next == n
    ensures Owns(p, n)
  {
    PlainUses(p.code, p.exits);
    ExitsOnly(p, n);
  }

  lemma ComputeOwns(cfg: Config, c: Cache, n: Label, pc: Word, i: Instruction)
    requires Shape(c) && IsCompute(i.op)
    ensures Owns(ComputePiece(cfg, c, n, pc, i), n)
  {
    hide Lock, ComputeBody, ExitCode, Unlock, UnlockClean, Owns;
    ExitPlain(cfg, c, ArchUnsupported, pc);
    var l := Lock(c, Requests(i));
    LockPlain(c, Requests(i));
    if i.rd != 0 && l.ok && |l.regs| == |Requests(i)| {
      var k := |l.regs| - 1;
      BodyPlain(cfg, i, pc, l.regs[0], l.regs[if k == 2 then 1 else 0], l.regs[k]);
      PlainAppend(l.code, ComputeBody(cfg, i, pc, l.regs[0], l.regs[if k == 2 then 1 else 0], l.regs[k]));
    }
    EmptyOwns(ComputePiece(cfg, c, n, pc, i), n);
  }

  lemma ValidatedBranchUses(cfg: Config, reg: HReg, n: Label, exits: seq<PendingExit>)
    requires IsExit(exits, n)
    ensures UsesExits(ValidatedBranch(cfg, reg, n), exits)
  {
    hide IsExit;
  }

  lemma StaticBranchUses(cfg: Config, c: Cache, n: Label, target: Word, scratch: HReg, pc: Word)
    requires Shape(c)
    ensures var p := StaticBranch(cfg, c, n, target, scratch, pc);
            NoBinds(p.code) && UsesExits(p.code, p.exits) && DistinctTargets(p.exits) && n <= p.next
            && forall l: Label :: IsExit(p.exits, l) <==> n <= l < p.next
  {
    hide LoadImmediate, FlushFrom, TakeSnapshot, ExitCode, ValidatedBranch, UsesExits, Plain, NoBinds;
    var p := StaticBranch(cfg, c, n, target, scratch, pc);
    StaticBranchNoBinds(cfg, c, n, target, scratch, pc);
    if target % 4 != 0 || target / 4 >= cfg.maxBlocks {
      ExitPlain(cfg, c, ArchUnalignedPc, pc);
      ExitPlain(cfg, c, ArchOutOfBoundsPc, pc);
      PlainUses(p.code, []);
    } else {
      var load, flush, go := LoadImmediate(cfg, scratch, target), Flush(TakeSnapshot(c)),
        ValidatedBranch(cfg, scratch, n);
      LoadImmediatePlain(cfg, scratch, target);
      FlushPlain(TakeSnapshot(c), 0);
      PlainUses(load, p.exits);
      PlainUses(flush, p.exits);
      assert p.exits[0].target == n;
      ValidatedBranchUses(cfg, scratch, n, p.exits);
      UsesExitsAppend(flush, go, p.exits);
      UsesExitsAppend(load, flush + go, p.exits);
    }
  }

  lemma DynamicBranchUses(cfg: Config, c: Cache, n: Label, target: HReg, scratch: HReg)
    requires Shape(c)
    ensures var p := DynamicBranch(cfg, c, n, target, scratch);
            NoBinds(p.code) && UsesExits(p.code, p.exits) && DistinctTargets(p.exits) && p.next == n + 3
            && forall l: Label :: IsExit(p.exits, l) <==> n <= l < n + 3
  {
    hide FlushFrom, TakeSnapshot, ValidatedBranch, UsesExits, Plain, NoBinds;
    var p := DynamicBranch(cfg, c, n, target, scratch);
    DynamicBranchNoBinds(cfg, c, n, target, scratch);
    assert p.exits[0].target == n + 2 && p.exits[1].target == n && p.exits[2].target == n + 1;
    var mask, flush, go := [BitImm(AndOp, scratch, target, -2)], Flush(TakeSnapshot(c)),
      ValidatedBranch(cfg, scratch, n + 2);
    var tests := [TstImm(scratch, 3), BCond(NotEqual, n + 1), CmpReg(true, scratch, MAX_EXECUTABLE_PC),
      BCond(UnsignedGreaterEqual, n)];
    FlushPlain(TakeSnapshot(c), 0);
    PlainUses(flush, p.exits);
    TestsUse(n, mask, tests, scratch, target, p.exits);
    ValidatedBranchUses(cfg, scratch, n + 2, p.exits);
    UsesExitsAppend(tests, go, p.exits);
    UsesExitsAppend(flush, tests + go, p.exits);
    UsesExitsAppend(mask, flush + (tests + go), p.exits);
  }

  lemma TestsUse(n: Label, mask: Code, tests: Code, scratch: HReg, target: HReg, exits: seq<PendingExit>)
    requires mask == [BitImm(AndOp, scratch, target, -2)] && IsExit(exits, n) && IsExit(exits, n + 1)
    requires tests == [TstImm(scratch, 3), BCond(NotEqual, n + 1), CmpReg(true, scratch, MAX_EXECUTABLE_PC),
             BCond(UnsignedGreaterEqual, n)]
    ensures UsesExits(mask, exits) && UsesExits(tests, exits)
  {
    hide IsExit;
  }

  lemma JalOwns(cfg: Config, c: Cache, n: Label, pc: Word, i: Instruction)
    requires Shape(c)
    ensures Owns(JalPiece(cfg, c, n, pc, i), n)
  {
    hide LinkPiece, StaticBranch, UsesExits, Plain, NoBinds, Owns, IsExit;
    var link := LinkPiece(cfg, c, n, pc, i.rd);
    var branch := StaticBranch(cfg, link.cache, n, Wrap(pc + i.imm), A_REG, pc);
    LinkPlain(cfg, c, n, pc, i.rd);
    StaticBranchUses(cfg, link.cache, n, Wrap(pc + i.imm), A_REG, pc);
    PlainUses(link.code, branch.exits);
    NoBindsAppend(link.code, branch.code);
    UsesExitsAppend(link.code, branch.code, branch.exits);
    ExitsOnly(JalPiece(cfg, c, n, pc, i), n);
  }

  lemma JalrOwns(cfg: Config, c: Cache, n: Label, pc: Word, i: Instruction)
    requires Idle(c)
    ensures Owns(JalrPiece(cfg, c, n, pc, i), n)
  {
    hide Lock, AddOffset, LoadImmediate, Unlock, MayUnlock, DynamicBranch, UsesExits, Plain, NoBinds, Owns, IsExit,
      Valid, NoneLocked;
    JalrLocks(c, i.rs1, i.rd);
    var l := Lock(c, [ReadOf(i.rs1)]);
    LockPlain(c, [ReadOf(i.rs1)]);
    var target := AddOffset(cfg, l.regs[0], A_REG, i.imm);
    AddOffsetPlain(cfg, l.regs[0], A_REG, i.imm);
    if i.rd == 0 {
      var branch := DynamicBranch(cfg, l.cache, n, target.reg, B_REG);
      DynamicBranchUses(cfg, l.cache, n, target.reg, B_REG);
      PlainAppend(l.code, target.code);
      assert JalrPiece(cfg, c, n, pc, i).code == (l.code + target.code) + branch.code;
      AfterPlain(l.code + target.code, branch, JalrPiece(cfg, c, n, pc, i), n);
    } else {
      var m := Lock(l.cache, [WriteOnly(i.rd)]);
      var d := m.regs[0];
      var moved := if d == target.reg then [MovReg(A_REG, target.reg)] else [];
      var load := LoadImmediate(cfg, d, Wrap(pc + 4));
      var from := if d == target.reg then A_REG else target.reg;
      var branch := DynamicBranch(cfg, Unlock(m.cache, d, true), n, from, B_REG);
      LockPlain(l.cache, [WriteOnly(i.rd)]);
      LoadImmediatePlain(cfg, d, Wrap(pc + 4));
      DynamicBranchUses(cfg, Unlock(m.cache, d, true), n, from, B_REG);
      MovedPlain(d, target.reg);
      PlainAppend(l.code, target.code);
      PlainAppend(l.code + target.code, m.code);
      PlainAppend((l.code + target.code) + m.code, moved);
      PlainAppend(((l.code + target.code) + m.code) + moved, load);
      var head := (((l.code + target.code) + m.code) + moved) + load;
      assert JalrPiece(cfg, c, n, pc, i).code == head + branch.code;
      AfterPlain(head, branch, JalrPiece(cfg, c, n, pc, i), n);
    }
  }

  lemma MovedPlain(d: HReg, from: HReg)
    ensures Plain(if d == from then [MovReg(A_REG, from)] else [])
  {
  }

  /** Plain code in front of a branch. */
  lemma AfterPlain(head: Code, branch: Piece, p: Piece, n: Label)
    requires Plain(head) && NoBinds(branch.code) && UsesExits(branch.code, branch.exits) && n <= branch.next
    requires DistinctTargets(branch.exits)
    requires forall l: Label :: IsExit(branch.exits, l) <==> n <= l < branch.next
    requires p.code == head + branch.code && p.exits == branch.exits && p.next == branch.next
    ensures Owns(p, n)
  {
    hide UsesExits, Plain, NoBinds, Owns, IsExit;
    PlainUses(head, branch.exits);
    NoBindsAppend(head, branch.code);
    UsesExitsAppend(head, branch.code, branch.exits);
    ExitsOnly(p, n);
  }

  lemma BranchOwns(cfg: Config, c: Cache, n: Label, pc: Word, i: Instruction)
    requires Shape(c) && i.op.Branch?
    ensures Owns(BranchPiece(cfg, c, n, pc, i), n)
  {
    hide Lock, UnlockClean, MayUnlockAll, StaticBranch, UsesExits, Plain, NoBinds, Owns, IsExit;
    var l := Lock(c, [ReadOf(i.rs1), ReadOf(i.rs2)]);
    LockPlain(c, [ReadOf(i.rs1), ReadOf(i.rs2)]);
    var p := BranchPiece(cfg, c, n, pc, i);
    if l.ok && |l.regs| == 2 {
      var taken := StaticBranch(cfg, l.cache, n + 1, Wrap(pc + i.imm), A_REG, pc);
      var cmp, skip := [CmpReg(true, l.regs[0], l.regs[1])], [BCond(Inverted(i.op.branch), n)];
      StaticBranchUses(cfg, l.cache, n + 1, Wrap(pc + i.imm), A_REG, pc);
      ComparePlain(l.regs[0], l.regs[1]);
      PlainAppend(l.code, cmp);
      assert p.code == (((l.code + cmp) + skip) + taken.code) + [Bind(n)] by {
        assert [CmpReg(true, l.regs[0], l.regs[1]), BCond(Inverted(i.op.branch), n)] == cmp + skip;
      }
      SkipOwns(l.code + cmp, Inverted(i.op.branch), taken, p, n);
    } else {
      EmptyOwns(p, n);
    }
  }

  lemma ComparePlain(a: HReg, b: HReg)
    ensures Plain([CmpReg(true, a, b)])
  {
  }

  lemma SkipOwns(head: Code, condition: Condition, taken: Piece, p: Piece, n: Label)
    requires Plain(head) && NoBinds(taken.code) && UsesExits(taken.code, taken.exits) && n + 1 <= taken.next
    requires DistinctTargets(taken.exits)
    requires forall l: Label :: IsExit(taken.exits, l) <==> n + 1 <= l < taken.next
    requires p.code == ((head + [BCond(condition, n)]) + taken.code) + [Bind(n)] && p.exits == taken.exits
             && p.next == taken.next
    ensures Owns(p, n)
  {
    hide IsExit;
    var s := (head + [BCond(condition, n)]) + taken.code;
    assert forall k :: 0 <= k < |s| ==>
      s[k] == if k < |head| then head[k] else if k == |head| then BCond(condition, n) else taken.code[k - |head| - 1];
    assert forall k :: 0 <= k < |p.code| ==> p.code[k] == if k < |s| then s[k] else Bind(n);
    assert BoundAt(p.code, n, |s|);
  }

  lemma ValidateUses(cfg: Config, address: HReg, fault: Label, w: nat, a: Access, exits: seq<PendingExit>)
    requires IsExit(exits, fault)
    ensures UsesExits(ValidateAccess(cfg, address, fault, w, a), exits)
  {
    hide IsExit;
  }

  lemma MemoryOwns(cfg: Config, c: Cache, n: Label, pc: Word, i: Instruction)
    requires Shape(c)
    ensures i.op.Load? ==> Owns(LoadPiece(cfg, c, n, pc, i), n)
    ensures i.op.Store? ==> Owns(StorePiece(cfg, c, n, pc, i), n)
  {
    hide Lock, Unlock, UnlockClean, AddOffset, ValidateAccess, TakeSnapshot, UsesExits, Plain, NoBinds, Owns,
      MayUnlockAll;
    if i.op.Load? || i.op.Store? {
      var reqs := if i.op.Load? then [ReadOf(i.rs1), WriteOnly(i.rd)] else [ReadOf(i.rs1), ReadOf(i.rs2)];
      var p := if i.op.Load? then LoadPiece(cfg, c, n, pc, i) else StorePiece(cfg, c, n, pc, i);
      var l := Lock(c, reqs);
      LockPlain(c, reqs);
      EmptyPlain();
      if (i.op.Store? || i.rd != 0) && l.ok && |l.regs| == 2 {
        var address := AddOffset(cfg, l.regs[0], A_REG, i.imm);
        var w, a := if i.op.Load? then LoadWidth(i.op.load) else StoreWidth(i.op.store), if i.op.Load? then ReadAccess
          else WriteAccess;
        var check := ValidateAccess(cfg, address.reg, n, w, a);
        var last := if i.op.Load? then [LdrMem(w, SignedLoad(i.op.load), l.regs[1], MEMORY_BASE, address.reg)]
                    else [StrMem(w, l.regs[1], MEMORY_BASE, address.reg)];
        AddOffsetPlain(cfg, l.regs[0], A_REG, i.imm);
        ValidateNoBinds(cfg, address.reg, n, w, a);
        assert p.exits[0].target == n;
        ValidateUses(cfg, address.reg, n, w, a, p.exits);
        LastPlain(last);
        PlainAppend(l.code, address.code);
        assert p.code == (l.code + address.code) + (check + last);
        CheckThenAccess(l.code + address.code, check, last, p, n);
      } else {
        EmptyOwns(p, n);
      }
    }
  }

  lemma EmptyPlain()
    ensures Plain([])
  {
  }

  lemma LastPlain(last: Code)
    requires |last| == 1 && (last[0].LdrMem? || last[0].StrMem?)
    ensures Plain(last)
  {
  }

  lemma CheckThenAccess(head: Code, check: Code, last: Code, p: Piece, n: Label)
    requires Plain(head) && NoBinds(check) && UsesExits(check, p.exits) && Plain(last)
    requires p.code == head + (check + last) && |p.exits| == 1 && p.exits[0].target == n && p.next == n + 1
    ensures Owns(p, n)
  {
    hide UsesExits, Plain, NoBinds, Owns;
    PlainUses(head, p.exits);
    PlainUses(last, p.exits);
    NoBindsAppend(check, last);
    NoBindsAppend(head, check + last);
    UsesExitsAppend(check, last, p.exits);
    UsesExitsAppend(head, check + last, p.exits);
    ExitsOnly(p, n);
  }

  lemma InstructionOwns(cfg: Config, c: Cache, n: Label, pc: Word, i: Instruction)
    requires Idle(c)
    ensures Owns(InstructionPiece(cfg, c, n, pc, i), n)
  {
    hide Owns, ComputePiece, JalPiece, JalrPiece, BranchPiece, LoadPiece, StorePiece, ExitCode, Valid, NoneLocked,
      Plain;
    EmptyPlain();
    match i.op
    case Jal => JalOwns(cfg, c, n, pc, i);
    case Jalr => JalrOwns(cfg, c, n, pc, i);
    case Branch(_) => BranchOwns(cfg, c, n, pc, i);
    case Load(_) => MemoryOwns(cfg, c, n, pc, i);
    case Store(_) => MemoryOwns(cfg, c, n, pc, i);
    case MulHigh(_) => ExitOwns(cfg, c, n, ArchUnsupported, pc);
    case Fence => EmptyOwns(Piece(c, n, [], [], true, true), n);
    case Ecall => ExitOwns(cfg, c, n, ArchEcall, pc);
    case Ebreak => ExitOwns(cfg, c, n, ArchEbreak, pc);
    case Undefined => ExitOwns(cfg, c, n, ArchUndefined, pc);
    case _ => ComputeOwns(cfg, c, n, pc, i);
  }

  lemma ExitOwns(cfg: Config, c: Cache, n: Label, reason: ArchExit, pc: Word)
    requires Shape(c)
    ensures Owns(ExitPiece(cfg, c, n, reason, pc), n)
  {
    hide Owns, ExitCode, Plain;
    ExitPlain(cfg, c, reason, pc);
    EmptyOwns(ExitPiece(cfg, c, n, reason, pc), n);
  }

  // ----- the labels of a block -----

  lemma IsExitAppend(a: seq<PendingExit>, b: seq<PendingExit>, l: Label)
    ensures IsExit(a + b, l) <==> IsExit(a, l) || IsExit(b, l)
  {
    assert forall k :: 0 <= k < |a| ==> (a + b)[k] == a[k];
    assert forall k :: 0 <= k < |b| ==> (a + b)[|a| + k] == b[k];
  }

  lemma JoinDistinct(q: Piece, r: Piece, n: Label)
    requires Owns(q, n) && Owns(r, q.next)
    ensures DistinctTargets(q.exits + r.exits)
  {
    hide Unbound, Unused, BoundAfterUses;
    var e := q.exits + r.exits;
    forall j, k | 0 <= j < k < |e|
      ensures e[j].target != e[k].target
    {
      assert e[j] == if j < |q.exits| then q.exits[j] else r.exits[j - |q.exits|];
      assert e[k] == if k < |q.exits| then q.exits[k] else r.exits[k - |q.exits|];
      if j < |q.exits| <= k {
        assert IsExit(q.exits, e[j].target) && IsExit(r.exits, e[k].target);
      }
    }
  }

  lemma JoinOwns(q: Piece, r: Piece, n: Label)
    requires Owns(q, n) && Owns(r, q.next)
    ensures Owns(Piece(r.cache, r.next, q.code + r.code, q.exits + r.exits, r.ok, false), n)
  {
    hide Unbound, Unused, IsExit, BoundAfterUses, DistinctTargets;
    JoinDistinct(q, r, n);
    forall l: Label
      ensures !(n <= l < r.next) ==>
                Unbound(q.code + r.code, l) && Unused(q.code + r.code, l) && !IsExit(q.exits + r.exits, l)
      ensures n <= l < r.next ==>
                if IsExit(q.exits + r.exits, l) then Unbound(q.code + r.code, l) else BoundAfterUses(q.code + r.code, l)
    {
      IsExitAppend(q.exits, r.exits, l);
      JoinUntouched(q.code, r.code, l);
      if n <= l < q.next && !IsExit(q.exits, l) {
        BoundThenUntouched(q.code, r.code, l);
      }
      if q.next <= l < r.next && !IsExit(r.exits, l) {
        UnboundThenBound(q.code, r.code, l);
      }
    }
  }

  lemma {:induction false} BlockOwns(cfg: Config, m: Mem, c: Cache, n: Label, pc: Word)
    requires Idle(c) && |m.perms| >= m.size && |m.bytes| >= m.size && m.size + 8 < TWO64
    ensures Owns(BlockFrom(cfg, m, c, n, pc), n)
    decreases m.size - pc
  {
    hide Owns, InstructionPiece, ExitPiece, Valid, NoneLocked;
    match Fetch(m, pc)
    case None => ExitOwns(cfg, c, n, ArchFetchFault, pc);
    case Some(i) =>
      InstructionOwns(cfg, c, n, pc, i);
      InstructionOk(cfg, c, n, pc, i);
      var p := InstructionPiece(cfg, c, n, pc, i);
      if p.goesOn {
        FinishIdle(p.cache);
        BlockOwns(cfg, m, Finish(p.cache), p.next, pc + 4);
        JoinOwns(p, BlockFrom(cfg, m, Finish(p.cache), p.next, pc + 4), n);
      }
  }

  lemma OwnsDistinct(p: Piece, n: Label)
    requires Owns(p, n)
    ensures DistinctTargets(p.exits)
  {
    hide Unbound, Unused, IsExit, BoundAfterUses, DistinctTargets;
  }

  /** Code that owns later labels binds none of an earlier piece's exits. */
  lemma LaterBindsNone(p: Piece, r: Piece, n: Label)
    requires Owns(p, n) && Owns(r, p.next)
    ensures forall k :: 0 <= k < |p.exits| ==> !Binds(r.code, p.exits[k].target)
  {
    hide Unused, BoundAfterUses;
    forall k | 0 <= k < |p.exits|
      ensures !Binds(r.code, p.exits[k].target)
    {
      assert IsExit(p.exits, p.exits[k].target);
      assert Unbound(r.code, p.exits[k].target);
    }
  }

  // ----- with the exits -----

  lemma {:induction false} StubsBind(cfg: Config, exits: seq<PendingExit>, l: Label)
    requires DistinctTargets(exits)
    ensures Unused(Stubs(cfg, exits), l)
    ensures if IsExit(exits, l) then BoundAfterUses(Stubs(cfg, exits), l) else Unbound(Stubs(cfg, exits), l)
    decreases |exits|
  {
    if exits != [] {
      hide StubBody, Unused, Unbound, BoundAfterUses, Plain, IsExit;
      var first, body, rest := [Bind(exits[0].target)], StubBody(cfg, exits[0]), Stubs(cfg, exits[1..]);
      StubsBind(cfg, exits[1..], l);
      StubPlain(cfg, exits[0]);
      PlainUntouched(body, l);
      FirstBinds(exits, l);
      JoinUntouched(first, body, l);
      JoinUntouched(first + body, rest, l);
      assert [exits[0]] + exits[1..] == exits;
      IsExitAppend([exits[0]], exits[1..], l);
      if exits[0].target == l {
        BoundThenUntouched(first, body, l);
        BoundThenUntouched(first + body, rest, l);
      } else if IsExit(exits[1..], l) {
        UnboundThenBound(first + body, rest, l);
      }
    }
  }

  lemma PlainUntouched(s: Code, l: Label)
    requires Plain(s)
    ensures Unused(s, l) && Unbound(s, l)
  {
  }

  lemma FirstBinds(exits: seq<PendingExit>, l: Label)
    requires exits != [] && DistinctTargets(exits)
    ensures var first := [Bind(exits[0].target)];
            && Unused(first, l) && (if exits[0].target == l then BoundAfterUses(first, l) else Unbound(first, l))
    ensures IsExit([exits[0]], l) <==> exits[0].target == l
    ensures exits[0].target == l ==> !IsExit(exits[1..], l)
  {
    if exits[0].target == l {
      assert BoundAt([Bind(l)], l, 0);
      assert [exits[0]][0].target == l;
    }
  }

  /** In the code of a block every label allocated is bound exactly once and after all its uses, and no
      other label is bound or used; so control only goes forward. */
  lemma EveryLabelBoundOnce(cfg: Config, m: Mem, l: Label)
    requires |m.perms| >= m.size && |m.bytes| >= m.size && m.size + 8 < TWO64
    ensures if l < BlockFrom(cfg, m, NewCache(), 0, cfg.basePc).next then BoundAfterUses(Translate(cfg, m), l)
            else Unbound(Translate(cfg, m), l) && Unused(Translate(cfg, m), l)
  {
    hide BlockFrom, Stubs, Unused, Unbound, BoundAfterUses, IsExit, Valid, NoneLocked;
    NewCacheValid();
    var b := BlockFrom(cfg, m, NewCache(), 0, cfg.basePc);
    var mov, stubs := [MovImm(BASE_PC, cfg.basePc)], Stubs(cfg, b.exits);
    BlockOwns(cfg, m, NewCache(), 0, cfg.basePc);
    OwnsDistinct(b, 0);
    StubsBind(cfg, b.exits, l);
    MovPlain(cfg);
    PlainUntouched(mov, l);
    JoinUntouched(b.code, stubs, l);
    JoinUntouched(mov, b.code + stubs, l);
    if l < b.next {
      if IsExit(b.exits, l) {
        UnboundThenBound(b.code, stubs, l);
      } else {
        BoundThenUntouched(b.code, stubs, l);
      }
      UnboundThenBound(mov, b.code + stubs, l);
    }
  }

  lemma MovPlain(cfg: Config)
    ensures Plain([MovImm(BASE_PC, cfg.basePc)])
  {
  }
}
