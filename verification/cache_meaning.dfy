/** What cached registers mean at run time: the guest register view behind a translation-time cache
    and a host state, and that evictions, loads and flushes never change it. */
module CacheMeaning {
  import opened Words
  import opened Instructions
  import opened Memories
  import opened Interpreter
  import opened HostMachine
  import opened RegisterCaches
  import opened CacheProperties

  /** The table entry of a register is its value unless its slot is dirty; the host register of a slot
      is its value unless the slot is clean and the register was only locked for writing (junk). */
  predicate AgreeAt(c: Cache, h: Host, x: Registers, junk: set<GuestReg>, r: GuestReg)
    requires Shape(c)
  {
    var t := c.toSlot[r];
    if t == NONE then h.table[r] == x[r]
    else
      && (c.slots[t].dirty || h.table[r] == x[r])
      && (c.slots[t].dirty || r !in junk ==> h.r[CacheReg(t)] == x[r])
  }

  ghost predicate Agree(c: Cache, h: Host, x: Registers, junk: set<GuestReg>)
    requires Shape(c)
  {
    x[0] == 0 && forall r: GuestReg :: AgreeAt(c, h, x, junk, r)
  }

  ghost predicate Ready(env: Env, h: Host) {
    h.r[REGISTER_STATE] == env.statePtr
  }

  /** Nothing changed but the register table and host registers of the cache. */
  ghost predicate CacheOnly(h: Host, g: Host) {
    && g.flags == h.flags && g.mem == h.mem
    && forall n: HReg :: SlotOfHost(n) == NONE ==> g.r[n] == h.r[n]
  }

  /** The host registers of the locked slots are untouched. */
  ghost predicate LockedHeld(c: Cache, h: Host, g: Host)
    requires Shape(c)
  {
    forall t: SlotId :: c.slots[t].locked ==> g.r[CacheReg(t)] == h.r[CacheReg(t)]
  }

  lemma SameContentsAgree(c: Cache, d: Cache, h: Host, x: Registers, junk: set<GuestReg>)
    requires Shape(c) && Shape(d) && SameContents(c, d) && Agree(c, h, x, junk)
    ensures Agree(d, h, x, junk)
  {
    forall r: GuestReg
      ensures AgreeAt(d, h, x, junk, r)
    {
      assert AgreeAt(c, h, x, junk, r);
    }
  }

  // ----- eviction -----

  lemma EvictSlotMeaning(env: Env, c: Cache, v: SlotId, h: Host, x: Registers, junk: set<GuestReg>)
    requires Shape(c) && Valid(c) && c.slots[v].reg != 0 && Agree(c, h, x, junk) && Ready(env, h)
    ensures ExecAll(env, EvictCode(c, v), h).Some?
    ensures var g := ExecAll(env, EvictCode(c, v), h).value;
            g.r == h.r && g.flags == h.flags && g.mem == h.mem && Agree(EvictSlot(c, v), g, x, junk)
  {
    var q := c.slots[v].reg;
    HeldSlot(c, v);
    assert AgreeAt(c, h, x, junk, q);
    if c.slots[v].dirty {
      ExecOne(env, Spill(v, q), h);
      CacheRegInverse(v);
    }
    var g := ExecAll(env, EvictCode(c, v), h).value;
    forall r: GuestReg
      ensures AgreeAt(EvictSlot(c, v), g, x, junk, r)
    {
      assert AgreeAt(c, h, x, junk, r);
      if r != q && c.toSlot[r] != NONE {
        SlotHolds(c, r);
      }
    }
  }

  lemma {:induction false} EvictLastMeaning(env: Env, c: Cache, order: seq<SlotId>, count: nat, h: Host, x: Registers,
                                            junk: set<GuestReg>)
    requires Shape(c) && Valid(c) && count <= |order| && AllEvictable(c, order) && Agree(c, h, x, junk) && Ready(env, h)
    ensures var e := EvictLast(c, order, count);
            ExecAll(env, e.code, h).Some?
            && var g := ExecAll(env, e.code, h).value;
               g.r == h.r && g.flags == h.flags && g.mem == h.mem && Agree(e.cache, g, x, junk)
    decreases count
  {
    hide Valid, Agree, EvictCode, Exec;
    if count > 0 {
      var n := |order| - 1;
      var v := order[n];
      EvictSlotValid(c, v);
      EvictSlotMeaning(env, c, v, h, x, junk);
      assert AllEvictable(EvictSlot(c, v), order[..n]);
      var g := ExecAll(env, EvictCode(c, v), h).value;
      EvictLastMeaning(env, EvictSlot(c, v), order[..n], count - 1, g, x, junk);
      ExecAllAppend(env, EvictCode(c, v), EvictLast(EvictSlot(c, v), order[..n], count - 1).code, h);
    }
  }

  lemma ReserveMeaning(env: Env, c: Cache, reqs: seq<Request>, h: Host, x: Registers, junk: set<GuestReg>)
    requires Shape(c) && Valid(c) && Reserve(c, reqs).ok && Agree(c, h, x, junk) && Ready(env, h)
    ensures var e := Reserve(c, reqs);
            ExecAll(env, e.code, h).Some?
            && var g := ExecAll(env, e.code, h).value;
               g.r == h.r && g.flags == h.flags && g.mem == h.mem && Agree(e.cache, g, x, junk)
  {
    hide Valid, Agree, MarkCached, EvictionOrder, EvictLast;
    var m := MarkCached(c, reqs);
    MarkCachedLocks(c, reqs);
    SameContentsAgree(c, m, h, x, junk);
    OrderIs(m.slots);
    if Shortage(c, reqs) > 0 {
      EvictLastMeaning(env, m, EvictionOrder(m.slots), Shortage(c, reqs), h, x, junk);
    }
  }

  // ----- locking -----

  /** Registers locked only for writing. */
  function Junk(reqs: seq<Request>): set<GuestReg> {
    Requested(reqs) - Reads(reqs)
  }

  lemma AssignMeaning(env: Env, c: Cache, r: GuestReg, wanted: set<GuestReg>, junk: set<GuestReg>, h: Host,
                      x: Registers)
    requires Shape(c) && Valid(c) && r != 0 && c.toSlot[r] == NONE && c.free != []
    requires Agree(c, h, x, junk) && Ready(env, h) && (r in wanted || r in junk)
    ensures ExecAll(env, FillCode(c, r, wanted), h).Some?
    ensures var g := ExecAll(env, FillCode(c, r, wanted), h).value;
            Agree(AssignSlot(c, r), g, x, junk) && CacheOnly(h, g) && LockedHeld(c, h, g) && g.table == h.table
  {
    var t := c.free[|c.free| - 1];
    assert c.slots[t] == EMPTY;
    CacheRegInverse(t);
    if r in wanted {
      ExecOne(env, LdrState(CacheReg(t), REGISTER_STATE, r), h);
    }
    var g := ExecAll(env, FillCode(c, r, wanted), h).value;
    assert AgreeAt(c, h, x, junk, r);
    forall q: GuestReg
      ensures AgreeAt(AssignSlot(c, r), g, x, junk, q)
    {
      assert AgreeAt(c, h, x, junk, q);
      if q != r && c.toSlot[q] != NONE {
        SlotHolds(c, q);
      }
    }
  }

  lemma FirstMeaning(env: Env, c: Cache, r: GuestReg, wanted: set<GuestReg>, junk: set<GuestReg>, h: Host, x: Registers)
    requires Shape(c) && Valid(c) && (r == 0 || c.toSlot[r] != NONE || c.free != [])
    requires Agree(c, h, x, junk) && Ready(env, h) && (r == 0 || c.toSlot[r] != NONE || r in wanted || r in junk)
    ensures var code := if r != 0 && c.toSlot[r] == NONE then FillCode(c, r, wanted) else [];
            ExecAll(env, code, h).Some?
            && var g := ExecAll(env, code, h).value;
               Agree(AfterFirst(c, r), g, x, junk) && CacheOnly(h, g) && LockedHeld(c, h, g) && g.table == h.table
  {
    hide Valid, Agree, FillCode;
    if r != 0 && c.toSlot[r] == NONE {
      AssignMeaning(env, c, r, wanted, junk, h, x);
    } else if r != 0 {
      LockSlotValid(c, r);
      SameContentsAgree(c, UseSlot(c, r), h, x, junk);
    }
  }

  lemma {:induction false} LockEachMeaning(env: Env, c: Cache, reqs: seq<Request>, wanted: set<GuestReg>,
                                           junk: set<GuestReg>, h: Host, x: Registers)
    requires Shape(c) && Valid(c) && LockEach(c, reqs, wanted).ok
    requires Agree(c, h, x, junk) && Ready(env, h) && Missing(c, reqs) <= wanted + junk
    ensures var l := LockEach(c, reqs, wanted);
            ExecAll(env, l.code, h).Some?
            && var g := ExecAll(env, l.code, h).value;
               Agree(l.cache, g, x, junk) && CacheOnly(h, g) && LockedHeld(c, h, g) && g.table == h.table
    decreases |reqs|
  {
    if reqs != [] {
      hide Valid, Agree, Given, FillCode, LockEach, AfterFirst, Exec, Missing;
      var r := reqs[0].reg;
      var d := AfterFirst(c, r);
      var code := if r != 0 && c.toSlot[r] == NONE then FillCode(c, r, wanted) else [];
      MissingLater(c, reqs);
      LockEachUnfold(c, reqs, wanted);
      AfterFirstIs(c, r);
      FirstMeaning(env, c, r, wanted, junk, h, x);
      var g := ExecAll(env, code, h).value;
      LockEachMeaning(env, d, reqs[1..], wanted, junk, g, x);
      ExecAllAppend(env, code, LockEach(d, reqs[1..], wanted).code, h);
    }
  }

  lemma MissingLater(c: Cache, reqs: seq<Request>)
    requires Valid(c) && reqs != [] && (reqs[0].reg == 0 || c.toSlot[reqs[0].reg] != NONE || c.free != [])
    ensures Shape(AfterFirst(c, reqs[0].reg)) && Missing(AfterFirst(c, reqs[0].reg), reqs[1..]) <= Missing(c, reqs)
    ensures reqs[0].reg != 0 && c.toSlot[reqs[0].reg] == NONE ==> reqs[0].reg in Missing(c, reqs)
  {
    hide Missing, UseSlot, AssignSlot;
    MissingStep(c, reqs);
  }

  lemma AgreeWeaken(c: Cache, h: Host, x: Registers, junk: set<GuestReg>, more: set<GuestReg>)
    requires Shape(c) && Agree(c, h, x, junk) && junk <= more
    ensures Agree(c, h, x, more)
  {
    forall r: GuestReg
      ensures AgreeAt(c, h, x, more, r)
    {
      assert AgreeAt(c, h, x, junk, r);
    }
  }

  /** What a lock leaves unknown: registers that were and are still in the cache, and those it takes in
      only for writing. One that is cached already keeps its value, and one that is evicted has it in the
      table. */
  function Unknown(c: Cache, junk: set<GuestReg>, reqs: seq<Request>): set<GuestReg>
    requires Shape(c)
  {
    junk * CachedRegs(Reserve(c, reqs).cache) + Junk(reqs) * Missing(c, reqs)
  }

  lemma AgreeCached(c: Cache, h: Host, x: Registers, junk: set<GuestReg>)
    requires Shape(c) && Agree(c, h, x, junk)
    ensures Agree(c, h, x, junk * CachedRegs(c))
  {
    var fewer := junk * CachedRegs(c);
    forall r: GuestReg
      ensures AgreeAt(c, h, x, fewer, r)
    {
      assert AgreeAt(c, h, x, junk, r);
    }
  }

  lemma MissingIsRequested(c: Cache, reqs: seq<Request>)
    requires Shape(c)
    ensures Missing(c, reqs) <= Reads(reqs) + Junk(reqs) * Missing(c, reqs)
  {
  }

  /** The code a lock emits changes nothing of the guest view, and slots locked before keep their
      values. */
  lemma LockMeaning(env: Env, c: Cache, reqs: seq<Request>, h: Host, x: Registers, junk: set<GuestReg>)
    requires Shape(c) && Valid(c) && Lock(c, reqs).ok && Agree(c, h, x, junk) && Ready(env, h)
    ensures var l := Lock(c, reqs);
            ExecAll(env, l.code, h).Some?
            && var g := ExecAll(env, l.code, h).value;
               Agree(l.cache, g, x, Unknown(c, junk, reqs)) && CacheOnly(h, g) && LockedHeld(c, h, g)
  {
    hide Valid, Agree, Reserve, LockEach, Exec, Missing, Reads, Junk, CachedRegs;
    var e, unknown := Reserve(c, reqs), Unknown(c, junk, reqs);
    ReserveMeaning(env, c, reqs, h, x, junk);
    ReserveIs(c, reqs);
    MarkCachedLocks(c, reqs);
    MissingAfterReserve(c, reqs);
    MissingIsRequested(c, reqs);
    var g := ExecAll(env, e.code, h).value;
    AgreeCached(e.cache, g, x, junk);
    AgreeWeaken(e.cache, g, x, junk * CachedRegs(e.cache), unknown);
    LockEachMeaning(env, e.cache, reqs, Reads(reqs), unknown, g, x);
    ExecAllAppend(env, e.code, LockEach(e.cache, reqs, Reads(reqs)).code, h);
  }

  /** In particular nothing is unknown but what was, and registers locked only for writing. */
  lemma LockKeepsView(env: Env, c: Cache, reqs: seq<Request>, h: Host, x: Registers, junk: set<GuestReg>)
    requires Shape(c) && Valid(c) && Lock(c, reqs).ok && Agree(c, h, x, junk) && Ready(env, h)
    ensures var l := Lock(c, reqs);
            ExecAll(env, l.code, h).Some?
            && var g := ExecAll(env, l.code, h).value;
               Agree(l.cache, g, x, junk + Junk(reqs)) && CacheOnly(h, g) && LockedHeld(c, h, g)
  {
    hide Valid, Agree, Lock, Exec, Missing, Junk, CachedRegs, Reserve;
    LockMeaning(env, c, reqs, h, x, junk);
    AgreeWeaken(Lock(c, reqs).cache, ExecAll(env, Lock(c, reqs).code, h).value, x, Unknown(c, junk, reqs), junk
      + Junk(reqs));
  }

  /** A register given for reading holds its guest value. */
  lemma GivenValue(c: Cache, h: Host, x: Registers, junk: set<GuestReg>, r: GuestReg, n: HReg)
    requires Shape(c) && Agree(c, h, x, junk) && HeldBy(c, r, n) && r !in junk
    ensures Get(h, n) == x[r]
  {
    assert AgreeAt(c, h, x, junk, r);
    if r != 0 {
      CacheRegInverse(c.toSlot[r]);
    }
  }

  // ----- writing, unlocking, flushing -----

  lemma UnlockValid(c: Cache, r: GuestReg, n: HReg, dirty: bool)
    requires Shape(c) && Valid(c) && HeldBy(c, r, n)
    ensures MayUnlock(n) && Valid(Unlock(c, n, dirty))
    ensures Unlock(c, n, dirty).toSlot == c.toSlot && Unlock(c, n, dirty).pc == c.pc
    ensures forall i :: 0 <= i < CACHE_SIZE ==>
              (Unlock(c, n, dirty).slots[i].locked <==> c.slots[i].locked && c.slots[i].reg != r)
              && Unlock(c, n, dirty).slots[i].reg == c.slots[i].reg
  {
    if r != 0 {
      CacheRegInverse(c.toSlot[r]);
      assert CachedRegs(Unlock(c, n, dirty)) == CachedRegs(c);
    }
  }

  lemma UnlockAgrees(c: Cache, n: HReg, h: Host, x: Registers, junk: set<GuestReg>)
    requires Shape(c) && Agree(c, h, x, junk)
    ensures Agree(Unlock(c, n, false), h, x, junk)
  {
    forall r: GuestReg
      ensures AgreeAt(Unlock(c, n, false), h, x, junk, r)
    {
      assert AgreeAt(c, h, x, junk, r);
    }
  }

  /** Writing a register through the host register given for it, then unlocking it dirty. */
  lemma WriteMeaning(c: Cache, h: Host, g: Host, x: Registers, r: GuestReg, n: HReg, v: Word, junk: set<GuestReg>)
    requires Shape(c) && Valid(c) && r != 0 && HeldBy(c, r, n) && Agree(c, h, x, junk)
    requires g.table == h.table && g.r[n] == v
    requires forall t: SlotId :: CacheReg(t) != n ==> g.r[CacheReg(t)] == h.r[CacheReg(t)]
    ensures Agree(Unlock(c, n, true), g, x[r := v], junk - {r})
  {
    CacheRegInverse(c.toSlot[r]);
    var d, y, less := Unlock(c, n, true), x[r := v], junk - {r};
    forall q: GuestReg
      ensures AgreeAt(d, g, y, less, q)
    {
      assert AgreeAt(c, h, x, junk, q);
      if q != r && c.toSlot[q] != NONE {
        DistinctHostRegisters(c, q, r);
      }
    }
  }

  /** Storing every dirty register leaves the whole guest state in the table, whatever is locked. */
  lemma FlushMeaning(env: Env, c: Cache, h: Host, x: Registers, junk: set<GuestReg>)
    requires Shape(c) && Valid(c) && Agree(c, h, x, junk) && Ready(env, h)
    ensures ExecAll(env, Flush(TakeSnapshot(c)), h).Some?
    ensures var g := ExecAll(env, Flush(TakeSnapshot(c)), h).value;
            g.r == h.r && g.flags == h.flags && g.mem == h.mem && InTable(g, x)
  {
    forall r: GuestReg
      ensures FlushedUpTo(c, h, x, r, 0)
    {
      assert AgreeAt(c, h, x, junk, r);
    }
    FlushFromMeaning(env, c, h, x, junk, h, 0);
  }

  ghost predicate InTable(h: Host, x: Registers) {
    forall r: GuestReg :: h.table[r] == x[r]
  }

  /** Either in the table already, or dirty in a slot still to be stored. */
  predicate FlushedUpTo(c: Cache, g: Host, x: Registers, r: GuestReg, i: nat)
    requires Shape(c)
  {
    g.table[r] == x[r] || (c.toSlot[r] != NONE && c.toSlot[r] >= i && c.slots[c.toSlot[r]].dirty)
  }

  ghost predicate AllFlushedUpTo(c: Cache, g: Host, x: Registers, i: nat)
    requires Shape(c)
  {
    forall r: GuestReg :: FlushedUpTo(c, g, x, r, i)
  }

  function FlushSlot(c: Cache, g: Host, i: SlotId): Host
    requires Shape(c)
  {
    var q := TakeSnapshot(c)[i];
    if q != 0 then g.(table := g.table[q := g.r[CacheReg(i)]]) else g
  }

  lemma {:induction false} FlushFromMeaning(env: Env, c: Cache, h: Host, x: Registers, junk: set<GuestReg>, g: Host,
                                            i: nat)
    requires Shape(c) && Valid(c) && Agree(c, h, x, junk) && Ready(env, h) && i <= CACHE_SIZE
    requires g.r == h.r && AllFlushedUpTo(c, g, x, i)
    ensures ExecAll(env, FlushFrom(TakeSnapshot(c), i), g).Some?
    ensures var f := ExecAll(env, FlushFrom(TakeSnapshot(c), i), g).value;
            f.r == h.r && f.flags == g.flags && f.mem == g.mem && InTable(f, x)
    decreases CACHE_SIZE - i
  {
    if i == CACHE_SIZE {
      assert forall r: GuestReg :: FlushedUpTo(c, g, x, r, i) ==> g.table[r] == x[r];
    } else {
      hide Valid, Agree, TakeSnapshot, Exec, AllFlushedUpTo, InTable;
      FlushStep(env, c, h, x, junk, g, i);
      FlushFromMeaning(env, c, h, x, junk, FlushSlot(c, g, i), i + 1);
      if TakeSnapshot(c)[i] != 0 {
        ExecAllAppend(env, [Spill(i, TakeSnapshot(c)[i])], FlushFrom(TakeSnapshot(c), i + 1), g);
      }
    }
  }

  lemma FlushStep(env: Env, c: Cache, h: Host, x: Registers, junk: set<GuestReg>, g: Host, i: SlotId)
    requires Shape(c) && Valid(c) && Agree(c, h, x, junk) && Ready(env, h)
    requires g.r == h.r && AllFlushedUpTo(c, g, x, i)
    ensures AllFlushedUpTo(c, FlushSlot(c, g, i), x, i + 1)
    ensures TakeSnapshot(c)[i] != 0 ==> ExecAll(env, [Spill(i, TakeSnapshot(c)[i])], g) == Some(FlushSlot(c, g, i))
  {
    var q, f, j := TakeSnapshot(c)[i], FlushSlot(c, g, i), i + 1;
    if q != 0 {
      ExecOne(env, Spill(i, q), g);
      CacheRegInverse(i);
      HeldSlot(c, i);
      assert AgreeAt(c, h, x, junk, q);
    }
    forall r: GuestReg
      ensures FlushedUpTo(c, f, x, r, j)
    {
      assert FlushedUpTo(c, g, x, r, i);
      if c.toSlot[r] != NONE {
        SlotHolds(c, r);
      }
    }
  }
}
