/** Translation never fails one of its own checks: locking always succeeds, every lock is released by
    the end of its instruction, and nothing is unlocked that is not a cache register. */
module TranslationChecks {
  import opened Words
  import opened Instructions
  import opened Memories
  import opened Interpreter
  import opened HostMachine
  import opened RegisterCaches
  import opened CacheProperties
  import CacheMeaning
  import opened Translator

  /** Between two instructions. */
  ghost predicate Idle(c: Cache) {
    Shape(c) && Valid(c) && NoneLocked(c)
  }

  lemma {:induction false} RequestedSmall(reqs: seq<Request>)
    ensures |Requested(reqs)| <= |reqs|
  {
    if reqs == [] {
      assert Requested(reqs) == {};
    } else {
      RequestedSmall(reqs[1..]);
      RequestedSplit(reqs);
    }
  }

  lemma NothingLocked(c: Cache)
    requires Idle(c)
    ensures LockedRegs(c) == {}
  {
  }

  /** From an idle cache any instruction can lock its registers. */
  lemma LockFromIdle(c: Cache, reqs: seq<Request>)
    requires Idle(c) && |reqs| <= CACHE_SIZE
    ensures Lock(c, reqs).ok
  {
    hide Valid, Requested, Lock, LockedRegs;
    NothingLocked(c);
    RequestedSmall(reqs);
    assert Pinned(c, reqs) == Requested(reqs);
    LockOk(c, reqs);
  }

  // ----- unlocking -----

  ghost predicate AllHeld(c: Cache, reqs: seq<Request>, ns: seq<HReg>)
    requires Shape(c)
  {
    |reqs| == |ns| && forall k :: 0 <= k < |reqs| ==> HeldBy(c, reqs[k].reg, ns[k])
  }

  predicate Names(reqs: seq<Request>, r: GuestReg) {
    exists k :: 0 <= k < |reqs| && reqs[k].reg == r
  }

  /** The same registers in the same slots; locked still are those slots that were and are not named. */
  ghost predicate Released(c: Cache, d: Cache, reqs: seq<Request>)
    requires Shape(c) && Shape(d)
  {
    && d.toSlot == c.toSlot
    && forall i :: 0 <= i < CACHE_SIZE ==>
         d.slots[i].reg == c.slots[i].reg && (d.slots[i].locked ==> c.slots[i].locked && !Names(reqs, c.slots[i].reg))
  }

  lemma ReleaseOne(c: Cache, r: Request, n: HReg, dirty: bool)
    requires Shape(c) && Valid(c) && HeldBy(c, r.reg, n)
    ensures MayUnlock(n) && Valid(Unlock(c, n, dirty)) && Released(c, Unlock(c, n, dirty), [r])
  {
    hide Valid, Unlock;
    CacheMeaning.UnlockValid(c, r.reg, n, dirty);
    assert forall q: GuestReg :: Names([r], q) ==> q == r.reg;
  }

  lemma ReleasedTwice(c: Cache, d: Cache, e: Cache, some: seq<Request>, more: seq<Request>)
    requires Shape(c) && Shape(d) && Shape(e) && Released(c, d, some) && Released(d, e, more)
    ensures Released(c, e, some + more)
  {
    forall q: GuestReg | Names(some + more, q)
      ensures Names(some, q) || Names(more, q)
    {
      var k :| 0 <= k < |some + more| && (some + more)[k].reg == q;
      if k < |some| {
        assert some[k].reg == q;
      } else {
        assert more[k - |some|].reg == q;
      }
    }
  }

  lemma {:induction false} ReleaseClean(c: Cache, reqs: seq<Request>, ns: seq<HReg>)
    requires Shape(c) && Valid(c) && AllHeld(c, reqs, ns)
    ensures MayUnlockAll(ns) && Valid(UnlockClean(c, ns)) && Released(c, UnlockClean(c, ns), reqs)
    decreases |reqs|
  {
    if reqs != [] {
      hide Valid, Unlock, MayUnlock, Released;
      var d := Unlock(c, ns[0], false);
      ReleaseOne(c, reqs[0], ns[0], false);
      ReleasedKeepsHeld(c, d, [reqs[0]], reqs[1..], ns[1..]);
      ReleaseClean(d, reqs[1..], ns[1..]);
      ReleasedTwice(c, d, UnlockClean(d, ns[1..]), [reqs[0]], reqs[1..]);
      assert [reqs[0]] + reqs[1..] == reqs;
    } else {
      ReleasedNothing(c);
    }
  }

  lemma ReleasedNothing(c: Cache)
    requires Shape(c)
    ensures Released(c, c, [])
  {
  }

  lemma ReleasedKeepsHeld(c: Cache, d: Cache, some: seq<Request>, reqs: seq<Request>, ns: seq<HReg>)
    requires Shape(c) && Shape(d) && Released(c, d, some) && AllHeld(c, reqs, ns)
    ensures AllHeld(d, reqs, ns)
  {
  }

  lemma GivenHeld(c: Cache, reqs: seq<Request>, ns: seq<HReg>)
    requires Shape(c) && |ns| == |reqs| && forall i :: 0 <= i < |reqs| ==> Given(c, reqs[i].reg, ns[i])
    ensures AllHeld(c, reqs, ns)
  {
  }

  lemma RequestedAreNamed(reqs: seq<Request>, r: GuestReg)
    requires r in Requested(reqs)
    ensures Names(reqs, r)
  {
  }

  /** Once everything a lock gave is released, the cache is idle again. */
  lemma ReleasedIsIdle(c: Cache, l: Cache, d: Cache, reqs: seq<Request>)
    requires Idle(c) && Shape(l) && Shape(d) && Valid(d) && LocksOnly(c, l, Requested(reqs)) && Released(l, d, reqs)
    ensures Idle(d)
  {
    hide Valid, Names, Requested;
    forall i | 0 <= i < CACHE_SIZE
      ensures !d.slots[i].locked
    {
      if d.slots[i].locked {
        RequestedAreNamed(reqs, l.slots[i].reg);
        assert false;
      }
    }
  }

  /** What an instruction's single lock gives it. */
  ghost predicate LockedFor(c: Cache, reqs: seq<Request>, l: Locked)
    requires Shape(c) && Shape(l.cache)
  {
    && l == Lock(c, reqs) && l.ok && Valid(l.cache) && |l.regs| == |reqs|
    && LocksOnly(c, l.cache, Requested(reqs)) && AllHeld(l.cache, reqs, l.regs)
  }

  lemma LockAll(c: Cache, reqs: seq<Request>)
    requires Idle(c) && |reqs| <= CACHE_SIZE
    ensures LockedFor(c, reqs, Lock(c, reqs))
  {
    hide Valid, Lock, Requested, LocksOnly, Given, AllHeld;
    LockFromIdle(c, reqs);
    LockIs(c, reqs);
    GivenHeld(Lock(c, reqs).cache, reqs, Lock(c, reqs).regs);
  }

  /** Released as reads only. */
  lemma ReadsReleased(c: Cache, reqs: seq<Request>, l: Locked)
    requires Idle(c) && Shape(l.cache) && LockedFor(c, reqs, l)
    ensures Idle(UnlockClean(l.cache, l.regs)) && MayUnlockAll(l.regs)
  {
    hide Valid, Lock, Requested, AllHeld, NoneLocked, Released, LocksOnly;
    ReleaseClean(l.cache, reqs, l.regs);
    ReleasedIsIdle(c, l.cache, UnlockClean(l.cache, l.regs), reqs);
  }

  lemma {:induction false} MayUnlockLast(ns: seq<HReg>, n: HReg)
    requires MayUnlockAll(ns) && MayUnlock(n)
    ensures MayUnlockAll(ns + [n])
  {
    if ns != [] {
      MayUnlockLast(ns[1..], n);
      assert (ns + [n])[1..] == ns[1..] + [n];
    }
  }

  /** Released with the last register written. */
  lemma WriteReleased(c: Cache, reqs: seq<Request>, l: Locked)
    requires Idle(c) && Shape(l.cache) && LockedFor(c, reqs, l) && reqs != []
    ensures var k := |reqs| - 1;
            var d := UnlockClean(l.cache, l.regs[..k]);
            Valid(d) && HeldBy(d, reqs[k].reg, l.regs[k])
            && Idle(Unlock(d, l.regs[k], true)) && MayUnlockAll(l.regs)
  {
    hide Valid, Lock, Requested, NoneLocked, Released, LocksOnly, MayUnlock, MayUnlockAll, HeldBy, Unlock;
    var k := |reqs| - 1;
    var d := UnlockClean(l.cache, l.regs[..k]);
    ReleaseClean(l.cache, reqs[..k], l.regs[..k]);
    ReleasedKeepsHeld(l.cache, d, reqs[..k], reqs, l.regs);
    ReleaseOne(d, reqs[k], l.regs[k], true);
    ReleasedTwice(l.cache, d, Unlock(d, l.regs[k], true), reqs[..k], [reqs[k]]);
    MayUnlockLast(l.regs[..k], l.regs[k]);
    assert reqs[..k] + [reqs[k]] == reqs && l.regs[..k] + [l.regs[k]] == l.regs;
    ReleasedIsIdle(c, l.cache, Unlock(d, l.regs[k], true), reqs);
  }

  // ----- jalr locks twice -----

  lemma LockedAreRequested(c: Cache, d: Cache, r: set<GuestReg>)
    requires Idle(c) && Shape(d) && Valid(d) && LocksOnly(c, d, r)
    ensures LockedRegs(d) <= r
  {
  }

  lemma OneRequested(q: Request)
    ensures Requested([q]) <= {q.reg}
  {
  }

  /** The second lock of jalr succeeds while the first is held, keeps what that gave, and both can be
      released. */
  lemma JalrLocks(c: Cache, rs1: GuestReg, rd: GuestReg)
    requires Idle(c)
    ensures var l := Lock(c, [ReadOf(rs1)]);
            l.ok && Valid(l.cache) && |l.regs| == 1 && HeldBy(l.cache, rs1, l.regs[0])
            && var m := Lock(l.cache, [WriteOnly(rd)]);
               && m.ok && Valid(m.cache) && |m.regs| == 1 && Given(m.cache, rd, m.regs[0])
                  && Given(m.cache, rs1, l.regs[0])
               && Given(l.cache, rs1, l.regs[0]) && KeepsLocked(l.cache, m.cache)
               && MayUnlock(l.regs[0]) && MayUnlock(m.regs[0])
               && Idle(Unlock(Unlock(m.cache, m.regs[0], true), l.regs[0], false))
  {
    hide Valid, Lock, Requested, NoneLocked, LocksOnly, MayUnlock, KeepsLocked, Pinned, LockedRegs, Unlock, Released,
      HeldBy, Given;
    var first, second := [ReadOf(rs1)], [WriteOnly(rd)];
    var l := Lock(c, first);
    LockFromIdle(c, first);
    LockIs(c, first);
    LockedAreRequested(c, l.cache, Requested(first));
    OneRequested(ReadOf(rs1));
    OneRequested(WriteOnly(rd));
    FewPinned(l.cache, second, rs1, rd);
    LockOk(l.cache, second);
    LockIs(l.cache, second);
    var m := Lock(l.cache, second);
    assert Given(l.cache, first[0].reg, l.regs[0]) && Given(m.cache, second[0].reg, m.regs[0]);
    GivenKept(l.cache, m.cache, rs1, l.regs[0]);
    GivenIsHeld(l.cache, rs1, l.regs[0]);
    GivenIsHeld(m.cache, rs1, l.regs[0]);
    GivenIsHeld(m.cache, rd, m.regs[0]);
    LocksOnlyTwice(c, l.cache, m.cache, Requested(first), Requested(second));
    var d := Unlock(m.cache, m.regs[0], true);
    ReleaseOne(m.cache, second[0], m.regs[0], true);
    HeldAfterUnlock(m.cache, m.regs[0], true, rs1, l.regs[0]);
    ReleaseOne(d, first[0], l.regs[0], false);
    ReleasedTwice(m.cache, d, Unlock(d, l.regs[0], false), second, first);
    BothRequested(second, first);
    ReleasedIsIdle(c, m.cache, Unlock(d, l.regs[0], false), second + first);
  }

  lemma BothRequested(some: seq<Request>, more: seq<Request>)
    ensures Requested(some + more) == Requested(more) + Requested(some)
  {
    assert forall q :: q in some + more <==> q in some || q in more;
  }

  lemma GivenIsHeld(c: Cache, r: GuestReg, n: HReg)
    requires Shape(c) && Given(c, r, n)
    ensures HeldBy(c, r, n)
  {
  }

  lemma HeldAfterUnlock(c: Cache, n: HReg, dirty: bool, r: GuestReg, m: HReg)
    requires Shape(c) && HeldBy(c, r, m)
    ensures HeldBy(Unlock(c, n, dirty), r, m)
  {
  }

  lemma FewPinned(c: Cache, reqs: seq<Request>, a: GuestReg, b: GuestReg)
    requires Shape(c) && LockedRegs(c) <= {a} && Requested(reqs) <= {b}
    ensures |Pinned(c, reqs)| <= CACHE_SIZE
  {
    hide LockedRegs, Requested;
    var p := Pinned(c, reqs);
    assert p <= {a, b};
    if |p| > 2 {
      SubsetSize(p, {a, b});
      assert false;
    }
  }

  lemma {:induction false} SubsetSize(s: set<GuestReg>, t: set<GuestReg>)
    requires s <= t
    ensures |s| <= |t|
  {
    if s != {} {
      var x :| x in s;
      SubsetSize(s - {x}, t - {x});
    }
  }

  // ----- one instruction -----

  lemma ComputeOk(cfg: Config, c: Cache, n: Label, pc: Word, i: Instruction)
    requires Idle(c) && IsCompute(i.op)
    ensures var p := ComputePiece(cfg, c, n, pc, i); p.ok && Idle(p.cache)
  {
    hide Valid, Lock, NoneLocked, Unlock, UnlockClean, ComputeBody, MayUnlockAll, ExitCode, Requested, LocksOnly,
      AllHeld;
    if i.rd != 0 {
      var l := Lock(c, Requests(i));
      LockAll(c, Requests(i));
      WriteReleased(c, Requests(i), l);
    }
  }

  lemma LinkOk(cfg: Config, c: Cache, n: Label, pc: Word, rd: GuestReg)
    requires Idle(c)
    ensures var p := LinkPiece(cfg, c, n, pc, rd); p.ok && Idle(p.cache)
  {
    hide Valid, Lock, NoneLocked, Unlock, LoadImmediate, MayUnlock, Requested, LocksOnly, AllHeld, HeldBy;
    if rd != 0 {
      LockAll(c, [WriteOnly(rd)]);
      WriteReleased(c, [WriteOnly(rd)], Lock(c, [WriteOnly(rd)]));
    }
  }

  lemma StaticBranchKeeps(cfg: Config, c: Cache, n: Label, target: Word, scratch: HReg, pc: Word)
    requires Shape(c)
    ensures var p := StaticBranch(cfg, c, n, target, scratch, pc); p.cache == c && p.ok
  {
    hide ExitCode, LoadImmediate, Flush, TakeSnapshot, ValidatedBranch;
  }

  lemma JalOk(cfg: Config, c: Cache, n: Label, pc: Word, i: Instruction)
    requires Idle(c)
    ensures var p := JalPiece(cfg, c, n, pc, i); p.ok && Idle(p.cache)
  {
    hide Valid, NoneLocked, LinkPiece, StaticBranch;
    var link := LinkPiece(cfg, c, n, pc, i.rd);
    LinkOk(cfg, c, n, pc, i.rd);
    StaticBranchKeeps(cfg, link.cache, link.next, Wrap(pc + i.imm), A_REG, pc);
  }

  lemma JalrOk(cfg: Config, c: Cache, n: Label, pc: Word, i: Instruction)
    requires Idle(c)
    ensures var p := JalrPiece(cfg, c, n, pc, i); p.ok && Idle(p.cache)
  {
    hide Valid, Lock, NoneLocked, Unlock, LoadImmediate, MayUnlock, AddOffset, Requested, LocksOnly, AllHeld, HeldBy,
      Given, KeepsLocked, ValidatedBranch, Flush, TakeSnapshot;
    if i.rd == 0 {
      LockAll(c, [ReadOf(i.rs1)]);
      ReadsReleased(c, [ReadOf(i.rs1)], Lock(c, [ReadOf(i.rs1)]));
    } else {
      JalrLocks(c, i.rs1, i.rd);
    }
  }

  lemma BranchOk(cfg: Config, c: Cache, n: Label, pc: Word, i: Instruction)
    requires Idle(c) && i.op.Branch?
    ensures var p := BranchPiece(cfg, c, n, pc, i); p.ok && Idle(p.cache)
  {
    hide Valid, Lock, NoneLocked, UnlockClean, StaticBranch, MayUnlockAll, Requested, LocksOnly, AllHeld;
    var reqs := [ReadOf(i.rs1), ReadOf(i.rs2)];
    LockAll(c, reqs);
    ReadsReleased(c, reqs, Lock(c, reqs));
  }

  lemma LoadOk(cfg: Config, c: Cache, n: Label, pc: Word, i: Instruction)
    requires Idle(c) && i.op.Load?
    ensures var p := LoadPiece(cfg, c, n, pc, i); p.ok && Idle(p.cache)
  {
    hide Valid, Lock, NoneLocked, Unlock, AddOffset, ValidateAccess, MayUnlockAll, Requested, LocksOnly, AllHeld,
      HeldBy, TakeSnapshot;
    if i.rd != 0 {
      var reqs := [ReadOf(i.rs1), WriteOnly(i.rd)];
      var l := Lock(c, reqs);
      LockAll(c, reqs);
      WriteReleased(c, reqs, l);
      assert l.regs[..1] == [l.regs[0]];
    }
  }

  lemma StoreOk(cfg: Config, c: Cache, n: Label, pc: Word, i: Instruction)
    requires Idle(c) && i.op.Store?
    ensures var p := StorePiece(cfg, c, n, pc, i); p.ok && Idle(p.cache)
  {
    hide Valid, Lock, NoneLocked, UnlockClean, AddOffset, ValidateAccess, MayUnlockAll, Requested, LocksOnly, AllHeld,
      TakeSnapshot;
    var reqs := [ReadOf(i.rs1), ReadOf(i.rs2)];
    LockAll(c, reqs);
    ReadsReleased(c, reqs, Lock(c, reqs));
  }

  /** Translating any instruction from an idle cache passes every check and leaves the cache idle. */
  lemma InstructionOk(cfg: Config, c: Cache, n: Label, pc: Word, i: Instruction)
    requires Idle(c)
    ensures var p := InstructionPiece(cfg, c, n, pc, i); p.ok && Idle(p.cache)
  {
    hide Valid, NoneLocked, ComputePiece, JalPiece, JalrPiece, BranchPiece, LoadPiece, StorePiece, ExitCode;
    match i.op
    case Jal => JalOk(cfg, c, n, pc, i);
    case Jalr => JalrOk(cfg, c, n, pc, i);
    case Branch(_) => BranchOk(cfg, c, n, pc, i);
    case Load(_) => LoadOk(cfg, c, n, pc, i);
    case Store(_) => StoreOk(cfg, c, n, pc, i);
    case MulHigh(_) =>
    case Fence =>
    case Ecall =>
    case Ebreak =>
    case Undefined =>
    case _ => ComputeOk(cfg, c, n, pc, i);
  }

  lemma FinishIdle(c: Cache)
    requires Idle(c)
    ensures Idle(Finish(c))
  {
    assert CachedRegs(Finish(c)) == CachedRegs(c);
  }

  /** A whole block is translated without failing a check. */
  lemma {:induction false} BlockOk(cfg: Config, m: Mem, c: Cache, n: Label, pc: Word)
    requires Idle(c) && |m.perms| >= m.size && |m.bytes| >= m.size && m.size + 8 < TWO64
    ensures BlockFrom(cfg, m, c, n, pc).ok
    decreases m.size - pc
  {
    hide Valid, NoneLocked, InstructionPiece, ExitCode;
    match Fetch(m, pc)
    case None =>
    case Some(i) =>
      InstructionOk(cfg, c, n, pc, i);
      var p := InstructionPiece(cfg, c, n, pc, i);
      if p.goesOn {
        FinishIdle(p.cache);
        BlockOk(cfg, m, Finish(p.cache), p.next, pc + 4);
      }
  }
}
