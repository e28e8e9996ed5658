/** The register cache over whole sequences of operations: whatever is locked, written and unlocked, in
    whatever order, the structure holds and the guest registers are what was written. */
module CacheRuns {
  import opened Words
  import opened Instructions
  import opened Interpreter
  import opened HostMachine
  import opened RegisterCaches
  import opened CacheProperties
  import opened CacheMeaning

  /** What a code generator does with the cache: lock registers, write one through the host register
      given for it and unlock it dirty, unlock one unwritten, or finish an instruction. */
  datatype CacheOp = LockAll(reqs: seq<Request>) | Write(reg: GuestReg, value: Word) | UnlockOne(host: HReg) | FinishOne

  /** The cache, a host state it describes, the guest registers, and those whose host register is unknown:
      taken in only for writing, not written since, and still cached. */
  datatype Moment = Moment(cache: Cache, host: Host, regs: Registers, junk: set<GuestReg>)

  /** The operations whose checks pass: at most 17 registers locked at once, and only cached registers
      written and cache registers unlocked. */
  predicate Allowed(m: Moment, op: CacheOp)
    requires Shape(m.cache)
  {
    match op
    case LockAll(reqs) => |Pinned(m.cache, reqs)| <= CACHE_SIZE
    case Write(reg, _) => reg != 0 && m.cache.toSlot[reg] != NONE
    case UnlockOne(host) => MayUnlock(host)
    case FinishOne => NoneLocked(m.cache)
  }

  /** Registers of unknown value are cached and clean: their value is in the table. */
  predicate Clean(c: Cache, junk: set<GuestReg>)
    requires Shape(c)
  {
    forall r :: r in junk ==> c.toSlot[r] != NONE && !c.slots[c.toSlot[r]].dirty
  }

  ghost predicate ValidMoment(env: Env, m: Moment) {
    && Shape(m.cache) && Valid(m.cache) && Agree(m.cache, m.host, m.regs, m.junk) && Ready(env, m.host)
    && Clean(m.cache, m.junk)
  }

  /** The operation, and the host running the code it emits. */
  function Next(env: Env, m: Moment, op: CacheOp): (n: Moment)
    requires Shape(m.cache) && Allowed(m, op)
    ensures Shape(n.cache)
  {
    match op
    case LockAll(reqs) =>
      var l := Lock(m.cache, reqs);
      (match ExecAll(env, l.code, m.host)
       case Some(h) => Moment(l.cache, h, m.regs, Unknown(m.cache, m.junk, reqs))
       case None => m.(cache := l.cache))
    case Write(reg, value) =>
      var n := CacheReg(m.cache.toSlot[reg]);
      Moment(Unlock(m.cache, n, true), Put(m.host, n, value), m.regs[reg := value], m.junk - {reg})
    case UnlockOne(host) => m.(cache := Unlock(m.cache, host, false))
    case FinishOne => m.(cache := Finish(m.cache))
  }

  lemma UnlockAnyValid(c: Cache, n: HReg, dirty: bool)
    requires Shape(c) && Valid(c) && (dirty ==> SlotOfHost(n) != NONE && c.slots[SlotOfHost(n)].reg != 0)
    ensures Valid(Unlock(c, n, dirty))
  {
    assert CachedRegs(Unlock(c, n, dirty)) == CachedRegs(c);
  }

  lemma FinishValid(c: Cache)
    requires Shape(c) && Valid(c)
    ensures Valid(Finish(c))
  {
    assert CachedRegs(Finish(c)) == CachedRegs(c);
  }

  lemma PutWrites(h: Host, t: SlotId, v: Word)
    ensures var g := Put(h, CacheReg(t), v);
            g.table == h.table && g.r[CacheReg(t)] == v && g.r[REGISTER_STATE] == h.r[REGISTER_STATE]
            && forall u: SlotId :: CacheReg(u) != CacheReg(t) ==> g.r[CacheReg(u)] == h.r[CacheReg(u)]
  {
  }

  lemma FinishAgrees(c: Cache, h: Host, x: Registers, junk: set<GuestReg>)
    requires Shape(c) && Agree(c, h, x, junk)
    ensures Agree(Finish(c), h, x, junk)
  {
    forall r: GuestReg
      ensures AgreeAt(Finish(c), h, x, junk, r)
    {
      assert AgreeAt(c, h, x, junk, r);
    }
  }

  lemma CacheOnlyReady(env: Env, h: Host, g: Host)
    requires CacheOnly(h, g) && Ready(env, h)
    ensures Ready(env, g)
  {
  }

  // ----- what a lock does to registers that are cached -----

  /** The slot of a register, and whether it is dirty, from one cache to another. */
  predicate KeepsSlot(c: Cache, d: Cache, r: GuestReg)
    requires Shape(c) && Shape(d)
  {
    c.toSlot[r] != NONE ==> d.toSlot[r] == c.toSlot[r] && d.slots[d.toSlot[r]].dirty == c.slots[c.toSlot[r]].dirty
  }

  lemma FirstKeepsSlot(c: Cache, q: GuestReg, r: GuestReg)
    requires Valid(c) && (q == 0 || c.toSlot[q] != NONE || c.free != [])
    ensures Shape(AfterFirst(c, q)) && KeepsSlot(c, AfterFirst(c, q), r)
    ensures q != 0 && c.toSlot[q] == NONE ==>
              AfterFirst(c, q).toSlot[q] != NONE
              && !AfterFirst(c, q).slots[AfterFirst(c, q).toSlot[q]].dirty
  {
    if q != 0 && c.toSlot[q] == NONE && c.toSlot[r] != NONE {
      SlotHolds(c, r);
    }
  }

  lemma {:induction false} LockEachKeepsSlot(c: Cache, reqs: seq<Request>, wanted: set<GuestReg>, r: GuestReg)
    requires Shape(c) && Valid(c) && LockEach(c, reqs, wanted).ok
    ensures KeepsSlot(c, LockEach(c, reqs, wanted).cache, r)
    ensures var d := LockEach(c, reqs, wanted).cache;
            r in Missing(c, reqs) ==> d.toSlot[r] != NONE && !d.slots[d.toSlot[r]].dirty
    decreases |reqs|
  {
    hide Valid, LockEach, AfterFirst, UseSlot, AssignSlot, FillCode, Given, KeepsLocked, LocksOnly;
    if reqs != [] {
      var q := reqs[0].reg;
      LockEachUnfold(c, reqs, wanted);
      AfterFirstIs(c, q);
      FirstKeepsSlot(c, q, r);
      FirstKeepsSlot(c, q, q);
      LockEachKeepsSlot(AfterFirst(c, q), reqs[1..], wanted, r);
      MissingSplit(c, reqs, r);
    } else {
      LockNothing(c, wanted);
    }
  }

  lemma MissingSplit(c: Cache, reqs: seq<Request>, r: GuestReg)
    requires Valid(c) && reqs != [] && (reqs[0].reg == 0 || c.toSlot[reqs[0].reg] != NONE || c.free != [])
    ensures var q := reqs[0].reg;
            r in Missing(c, reqs) ==>
              (r == q && q != 0 && c.toSlot[q] == NONE)
              || r in Missing(AfterFirst(c, q), reqs[1..])
  {
    hide Missing, UseSlot, AssignSlot;
    MissingStep(c, reqs);
  }

  lemma LockNothing(c: Cache, wanted: set<GuestReg>)
    requires Shape(c)
    ensures LockEach(c, [], wanted).cache == c
  {
  }

  /** Reserving evicts registers or leaves them as they are. */
  lemma ReserveKeepsSlot(c: Cache, reqs: seq<Request>, r: GuestReg)
    requires Shape(c) && Valid(c) && Reserve(c, reqs).ok && Reserve(c, reqs).cache.toSlot[r] != NONE
    ensures KeepsSlot(Reserve(c, reqs).cache, c, r)
  {
    hide Valid, MarkCached, Reserve, Victims, Requested, Shortage;
    var e, m := Reserve(c, reqs).cache, MarkCached(c, reqs);
    MarkCachedLocks(c, reqs);
    ReserveIs(c, reqs);
    SlotHolds(e, r);
    HeldSlot(m, e.toSlot[r]);
  }

  /** What a lock leaves unknown is clean. */
  lemma UnknownIsClean(c: Cache, junk: set<GuestReg>, reqs: seq<Request>)
    requires Shape(c) && Valid(c) && Lock(c, reqs).ok && Clean(c, junk)
    ensures Clean(Lock(c, reqs).cache, Unknown(c, junk, reqs))
  {
    hide Valid, Reserve, LockEach, Missing, Junk, CachedRegs;
    var e, d := Reserve(c, reqs).cache, Lock(c, reqs).cache;
    ReserveIs(c, reqs);
    MissingAfterReserve(c, reqs);
    forall r | r in Unknown(c, junk, reqs)
      ensures d.toSlot[r] != NONE && !d.slots[d.toSlot[r]].dirty
    {
      LockEachKeepsSlot(e, reqs, Reads(reqs), r);
      if r in junk * CachedRegs(e) {
        CachedMeans(e, r);
        ReserveKeepsSlot(c, reqs, r);
      }
    }
  }

  lemma CachedMeans(c: Cache, r: GuestReg)
    requires Shape(c)
    ensures r in CachedRegs(c) <==> c.toSlot[r] != NONE
  {
  }

  lemma WriteClean(c: Cache, junk: set<GuestReg>, r: GuestReg)
    requires Valid(c) && Clean(c, junk) && r != 0 && c.toSlot[r] != NONE
    ensures Clean(Unlock(c, CacheReg(c.toSlot[r]), true), junk - {r})
  {
    CacheRegInverse(c.toSlot[r]);
    forall q | q in junk - {r}
      ensures c.toSlot[q] != c.toSlot[r]
    {
      SlotHolds(c, q);
      SlotHolds(c, r);
    }
  }

  lemma UnlockClean(c: Cache, junk: set<GuestReg>, n: HReg)
    requires Shape(c) && Clean(c, junk)
    ensures Clean(Unlock(c, n, false), junk)
  {
  }

  /** One operation keeps the structure and the view, and the code it emits does not fault. */
  lemma NextValid(env: Env, m: Moment, op: CacheOp)
    requires ValidMoment(env, m) && Allowed(m, op)
    ensures ValidMoment(env, Next(env, m, op))
    ensures op.LockAll? ==> Lock(m.cache, op.reqs).ok && ExecAll(env, Lock(m.cache, op.reqs).code, m.host).Some?
  {
    hide Valid, Agree, Lock, Unlock, Pinned, Unknown, LocksOnly, Given, Clean;
    match op
    case LockAll(reqs) =>
      LockOk(m.cache, reqs);
      LockIs(m.cache, reqs);
      LockMeaning(env, m.cache, reqs, m.host, m.regs, m.junk);
      UnknownIsClean(m.cache, m.junk, reqs);
      CacheOnlyReady(env, m.host, ExecAll(env, Lock(m.cache, reqs).code, m.host).value);
    case Write(reg, value) =>
      var t := m.cache.toSlot[reg];
      PutWrites(m.host, t, value);
      CacheRegInverse(t);
      SlotHolds(m.cache, reg);
      UnlockAnyValid(m.cache, CacheReg(t), true);
      WriteMeaning(m.cache, m.host, Put(m.host, CacheReg(t), value), m.regs, reg, CacheReg(t), value, m.junk);
      WriteClean(m.cache, m.junk, reg);
    case UnlockOne(host) =>
      UnlockAnyValid(m.cache, host, false);
      UnlockAgrees(m.cache, host, m.host, m.regs, m.junk);
      UnlockClean(m.cache, m.junk, host);
    case FinishOne =>
      FinishValid(m.cache);
      FinishAgrees(m.cache, m.host, m.regs, m.junk);
      FinishClean(m.cache, m.junk);
  }

  lemma FinishClean(c: Cache, junk: set<GuestReg>)
    requires Shape(c) && Clean(c, junk)
    ensures Clean(Finish(c), junk)
  {
  }

  predicate AllAllowed(env: Env, m: Moment, ops: seq<CacheOp>)
    requires Shape(m.cache)
    decreases |ops|
  {
    ops != [] ==> Allowed(m, ops[0]) && AllAllowed(env, Next(env, m, ops[0]), ops[1..])
  }

  function After(env: Env, m: Moment, ops: seq<CacheOp>): (n: Moment)
    requires Shape(m.cache) && AllAllowed(env, m, ops)
    ensures Shape(n.cache)
    decreases |ops|
  {
    if ops == [] then m else After(env, Next(env, m, ops[0]), ops[1..])
  }

  /** The guest registers as the writes among the operations leave them. */
  function Written(x: Registers, ops: seq<CacheOp>): Registers
    decreases |ops|
  {
    if ops == [] then x
    else Written(if ops[0].Write? && ops[0].reg != 0 then x[ops[0].reg := ops[0].value] else x, ops[1..])
  }

  /** Over any sequence of operations on any register lists, the register maps stay inverse to each
      other and the free list exact, and the view of the guest registers is what was written, nothing
      else: loads, stores and evictions never change it. */
  lemma {:induction false} ViewPreserved(env: Env, m: Moment, ops: seq<CacheOp>)
    requires ValidMoment(env, m) && AllAllowed(env, m, ops)
    ensures ValidMoment(env, After(env, m, ops)) && After(env, m, ops).regs == Written(m.regs, ops)
    decreases |ops|
  {
    hide ValidMoment, Allowed, Next;
    if ops != [] {
      ShapeOf(env, m);
      NextValid(env, m, ops[0]);
      NextRegs(env, m, ops[0]);
      ViewPreserved(env, Next(env, m, ops[0]), ops[1..]);
    }
  }

  lemma ShapeOf(env: Env, m: Moment)
    requires ValidMoment(env, m)
    ensures Shape(m.cache)
  {
  }

  lemma NextRegs(env: Env, m: Moment, op: CacheOp)
    requires Shape(m.cache) && Allowed(m, op)
    ensures Next(env, m, op).regs == if op.Write? && op.reg != 0 then m.regs[op.reg := op.value] else m.regs
  {
    hide Lock, Unlock, Pinned;
  }

  /** So a register locked for reading, unless it is in the cache with an unknown value, is given in a host
      register that holds what was last written to it, or what it held at the start. */
  lemma ReadsWhatWasWritten(env: Env, m: Moment, ops: seq<CacheOp>, reqs: seq<Request>, k: nat)
    requires ValidMoment(env, m) && AllAllowed(env, m, ops) && k < |reqs| && (reqs[k].reg == 0 || !reqs[k].writeOnly)
    requires var n := After(env, m, ops); Allowed(n, LockAll(reqs)) && reqs[k].reg !in n.junk
    ensures var n := After(env, m, ops);
            var l := Lock(n.cache, reqs);
            && l.ok && |l.regs| == |reqs|
            && Get(Next(env, n, LockAll(reqs)).host, l.regs[k]) == Written(m.regs, ops)[reqs[k].reg]
  {
    hide Valid, Lock, Pinned, AllAllowed, After, Written, Agree, Given, HeldBy, LocksOnly, Reads, Requested, Missing,
      Reserve, Clean;
    ViewPreserved(env, m, ops);
    var n := After(env, m, ops);
    NextValid(env, n, LockAll(reqs));
    LockIs(n.cache, reqs);
    var l, after := Lock(n.cache, reqs), Next(env, n, LockAll(reqs));
    NotJunk(reqs, k);
    GivenHolds(l.cache, reqs[k].reg, l.regs[k]);
    GivenValue(l.cache, after.host, n.regs, Unknown(n.cache, n.junk, reqs), reqs[k].reg, l.regs[k]);
  }

  /** And only then: of an unknown register the host register may hold anything, everything else being as
      it is, and a lock for reading hands out just that. */
  lemma UnknownHoldsAnything(env: Env, m: Moment, r: GuestReg, v: Word) returns (n: Moment)
    requires ValidMoment(env, m) && r in m.junk
    ensures n == m.(host := Put(m.host, CacheReg(m.cache.toSlot[r]), v)) && ValidMoment(env, n)
    ensures var l := Lock(n.cache, [ReadOf(r)]);
            Allowed(n, LockAll([ReadOf(r)])) ==>
              l.ok && |l.regs| == 1 && Get(Next(env, n, LockAll([ReadOf(r)])).host, l.regs[0]) == v
  {
    hide Valid, Lock, Pinned, Given, LocksOnly, Missing, Reserve;
    var t := m.cache.toSlot[r];
    n := m.(host := Put(m.host, CacheReg(t), v));
    SlotHolds(m.cache, r);
    CacheRegInverse(t);
    PutWrites(m.host, t, v);
    forall q: GuestReg
      ensures AgreeAt(n.cache, n.host, n.regs, n.junk, q)
    {
      assert AgreeAt(m.cache, m.host, m.regs, m.junk, q);
      if q != r && m.cache.toSlot[q] != NONE {
        DistinctHostRegisters(m.cache, q, r);
      }
    }
    var reqs := [ReadOf(r)];
    if Allowed(n, LockAll(reqs)) {
      ReadKeeps(env, n, r);
    }
  }

  /** A cached register is given where it is, and its host register left alone. */
  lemma ReadKeeps(env: Env, n: Moment, r: GuestReg)
    requires ValidMoment(env, n) && r != 0 && n.cache.toSlot[r] != NONE && Allowed(n, LockAll([ReadOf(r)]))
    ensures var l := Lock(n.cache, [ReadOf(r)]);
            && l.ok && |l.regs| == 1
            && Get(Next(env, n, LockAll([ReadOf(r)])).host, l.regs[0]) == Get(n.host, CacheReg(n.cache.toSlot[r]))
  {
    hide Valid, Pinned, Given, LocksOnly, Reserve, Agree, Clean, Exec;
    var reqs := [ReadOf(r)];
    LockOk(n.cache, reqs);
    LockIs(n.cache, reqs);
    var e := Reserve(n.cache, reqs);
    ReserveIs(n.cache, reqs);
    ReserveMeaning(env, n.cache, reqs, n.host, n.regs, n.junk);
    RequestedOne(r);
    RequestedStays(n.cache, reqs, r);
    ReserveKeepsSlot(n.cache, reqs, r);
    CacheRegInverse(n.cache.toSlot[r]);
    LockCached(e.cache, r, Reads(reqs));
    assert e.code + [] == e.code;
  }

  lemma RequestedOne(r: GuestReg)
    requires r != 0
    ensures r in Requested([ReadOf(r)])
  {
    assert ReadOf(r) in [ReadOf(r)];
  }

  lemma LockCached(c: Cache, r: GuestReg, wanted: set<GuestReg>)
    requires Shape(c) && r != 0 && c.toSlot[r] != NONE
    ensures var l := LockEach(c, [ReadOf(r)], wanted);
            l.ok && l.code == [] && l.regs == [CacheReg(c.toSlot[r])]
  {
    var reqs := [ReadOf(r)];
    assert reqs[1..] == [];
    LockNothing(UseSlot(c, r), wanted);
  }

  lemma GivenHolds(c: Cache, r: GuestReg, n: HReg)
    requires Shape(c) && Given(c, r, n)
    ensures HeldBy(c, r, n)
  {
  }

  lemma NotJunk(reqs: seq<Request>, k: nat)
    requires k < |reqs| && (reqs[k].reg == 0 || !reqs[k].writeOnly)
    ensures reqs[k].reg !in Junk(reqs)
  {
    assert reqs[k] in reqs;
  }
}
