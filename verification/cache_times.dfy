/** When registers were used: the times the cache keeps are those of the operations themselves, so that over
    any run of operations the registers evicted are the least recently used. */
module CacheTimes {
  import opened Words
  import opened Instructions
  import HostMachine
  import opened RegisterCaches
  import opened CacheProperties
  import CacheMeaning
  import opened CacheRuns

  // ----- times, read off the operations -----

  predicate Locks(op: CacheOp, r: GuestReg) { op.LockAll? && r in Requested(op.reqs) }

  /** How many instructions have been finished: the number of the instruction under way. */
  function Finished(ops: seq<CacheOp>): nat {
    if ops == [] then 0 else Finished(ops[..|ops| - 1]) + if ops[|ops| - 1].FinishOne? then 1 else 0
  }

  /** The number of the instruction under way as the cache keeps it, in 32 bits. */
  function Clock(ops: seq<CacheOp>): nat { Finished(ops) % TWO32 }

  /** The last operation that locked a register, or -1. */
  function LastLock(ops: seq<CacheOp>, r: GuestReg): (k: int)
    ensures -1 <= k < |ops| && (k >= 0 ==> Locks(ops[k], r))
    ensures forall j :: 0 <= j < |ops| && Locks(ops[j], r) ==> j <= k
  {
    if ops == [] then -1
    else if Locks(ops[|ops| - 1], r) then |ops| - 1
    else LastLock(ops[..|ops| - 1], r)
  }

  lemma FinishedMore(ops: seq<CacheOp>, op: CacheOp)
    ensures Finished(ops + [op]) == Finished(ops) + if op.FinishOne? then 1 else 0
  {
    assert (ops + [op])[..|ops|] == ops;
  }

  lemma ClockMore(ops: seq<CacheOp>, op: CacheOp)
    ensures Clock(ops + [op]) == if op.FinishOne? then (Clock(ops) + 1) % TWO32 else Clock(ops)
  {
    FinishedMore(ops, op);
    var n := Finished(ops);
    assert n == TWO32 * (n / TWO32) + n % TWO32;
    DivUnique(n + 1, TWO32, if n % TWO32 == TWO32 - 1 then n / TWO32 + 1 else n / TWO32, (n % TWO32 + 1) % TWO32);
  }

  lemma LastLockMore(ops: seq<CacheOp>, op: CacheOp, r: GuestReg)
    ensures LastLock(ops + [op], r) == if Locks(op, r) then |ops| else LastLock(ops, r)
  {
    assert (ops + [op])[..|ops|] == ops;
  }

  lemma {:induction false} FinishedLater(ops: seq<CacheOp>, j: nat, k: nat)
    requires j <= k <= |ops|
    ensures Finished(ops[..j]) <= Finished(ops[..k])
    decreases k - j
  {
    if j < k {
      FinishedLater(ops, j, k - 1);
      assert ops[..k] == ops[..k - 1] + [ops[k - 1]];
      FinishedMore(ops[..k - 1], ops[k - 1]);
    }
  }

  // ----- what a lock does to the times -----

  /** The slot of a register and the time in it, from one cache to another. */
  predicate KeepsTime(c: Cache, d: Cache, r: GuestReg)
    requires Shape(c) && Shape(d)
  {
    d.toSlot[r] != NONE ==>
      d.toSlot[r] == c.toSlot[r] && d.slots[d.toSlot[r]].lastUse == c.slots[c.toSlot[r]].lastUse
  }

  /** The register sits in a slot used now. */
  predicate UsedNow(d: Cache, r: GuestReg)
    requires Shape(d)
  {
    d.toSlot[r] != NONE && d.slots[d.toSlot[r]].lastUse == d.pc
  }

  lemma FirstTimes(c: Cache, q: GuestReg, r: GuestReg)
    requires Valid(c) && (q == 0 || c.toSlot[q] != NONE || c.free != [])
    ensures var d := AfterFirst(c, q);
            d.pc == c.pc && (if r == q && r != 0 then UsedNow(d, r) else KeepsTime(c, d, r))
  {
    if r != q && c.toSlot[r] != NONE {
      SlotHolds(c, r);
      if q != 0 && c.toSlot[q] != NONE {
        SlotHolds(c, q);
      }
    }
  }

  lemma {:induction false} EachTimes(c: Cache, reqs: seq<Request>, wanted: set<GuestReg>, r: GuestReg)
    requires Shape(c) && Valid(c) && LockEach(c, reqs, wanted).ok
    ensures var d := LockEach(c, reqs, wanted).cache;
            d.pc == c.pc && (if r in Requested(reqs) then UsedNow(d, r) else KeepsTime(c, d, r))
    decreases |reqs|
  {
    hide Valid, LockEach, AfterFirst, UseSlot, AssignSlot, FillCode, Given, KeepsLocked, LocksOnly, Requested;
    if reqs != [] {
      var q := reqs[0].reg;
      var d := AfterFirst(c, q);
      RequestedSplit(reqs);
      LockEachUnfold(c, reqs, wanted);
      AfterFirstIs(c, q);
      FirstTimes(c, q, r);
      EachTimes(d, reqs[1..], wanted, r);
      LockEachKeepsSlot(d, reqs[1..], wanted, r);
    } else {
      LockNothing(c, wanted);
      assert Requested([]) == {} by { NothingRequested(); }
    }
  }

  lemma NothingRequested()
    ensures Requested([]) == {}
  {
  }

  lemma ReserveTimes(c: Cache, reqs: seq<Request>, r: GuestReg)
    requires Shape(c) && Valid(c) && Reserve(c, reqs).ok
    ensures Reserve(c, reqs).cache.pc == c.pc && KeepsTime(c, Reserve(c, reqs).cache, r)
  {
    hide Valid, MarkCached, Reserve, Victims, Requested, Shortage;
    var e, m := Reserve(c, reqs).cache, MarkCached(c, reqs);
    MarkCachedLocks(c, reqs);
    MarkCachedPc(c, reqs);
    ReserveIs(c, reqs);
    if e.toSlot[r] != NONE {
      SlotHolds(e, r);
      HeldSlot(m, e.toSlot[r]);
    }
  }

  lemma {:induction false} MarkCachedPc(c: Cache, reqs: seq<Request>)
    requires Shape(c)
    ensures MarkCached(c, reqs).pc == c.pc
    decreases |reqs|
  {
    if reqs != [] {
      var r := reqs[0].reg;
      MarkCachedPc(if r != 0 && c.toSlot[r] != NONE then LockSlot(c, r) else c, reqs[1..]);
    }
  }

  /** A successful lock puts every register it was asked for into a slot whose last use is now, and leaves
      every other register it keeps the slot and the time it had. */
  lemma LockTimes(c: Cache, reqs: seq<Request>, r: GuestReg)
    requires Shape(c) && Valid(c) && Lock(c, reqs).ok
    ensures var d := Lock(c, reqs).cache;
            d.pc == c.pc && (if r in Requested(reqs) then UsedNow(d, r) else KeepsTime(c, d, r))
  {
    hide Valid, Reserve, LockEach, Requested, Missing;
    ReserveIs(c, reqs);
    ReserveTimes(c, reqs, r);
    EachTimes(Reserve(c, reqs).cache, reqs, Reads(reqs), r);
  }

  lemma UnlockTimes(c: Cache, n: HostMachine.HReg, dirty: bool, r: GuestReg)
    requires Shape(c)
    ensures Unlock(c, n, dirty).pc == c.pc && KeepsTime(c, Unlock(c, n, dirty), r)
  {
  }

  // ----- runs -----

  /** The counter is the number of the instruction under way, and each cached register's time is that of the
      last operation that locked it. */
  ghost predicate Timed(c: Cache, ops: seq<CacheOp>)
    requires Shape(c)
  {
    c.pc == Clock(ops)
    && forall r: GuestReg :: c.toSlot[r] != NONE ==>
         LastLock(ops, r) >= 0 && c.slots[c.toSlot[r]].lastUse == Clock(ops[..LastLock(ops, r)])
  }

  lemma StillTimed(c: Cache, d: Cache, ops: seq<CacheOp>, op: CacheOp, r: GuestReg)
    requires Shape(c) && Shape(d) && Timed(c, ops) && KeepsTime(c, d, r) && d.toSlot[r] != NONE && !Locks(op, r)
    ensures var k := LastLock(ops + [op], r);
            k >= 0 && d.slots[d.toSlot[r]].lastUse == Clock((ops + [op])[..k])
  {
    LastLockMore(ops, op, r);
    var k := LastLock(ops, r);
    assert (ops + [op])[..k] == ops[..k];
  }

  lemma NextTimes(env: HostMachine.Env, m: Moment, op: CacheOp, r: GuestReg)
    requires ValidMoment(env, m) && Allowed(m, op)
    ensures var c, d := m.cache, Next(env, m, op).cache;
            && d.pc == (if op.FinishOne? then (c.pc + 1) % TWO32 else c.pc)
            && (if Locks(op, r) then UsedNow(d, r) else KeepsTime(c, d, r))
  {
    hide Valid, CacheMeaning.Agree, Lock, Unlock, Pinned, Clean, KeepsTime, Requested;
    NextValid(env, m, op);
    match op
    case LockAll(reqs) => LockTimes(m.cache, reqs, r);
    case Write(reg, _) => UnlockTimes(m.cache, CacheReg(m.cache.toSlot[reg]), true, r);
    case UnlockOne(host) => UnlockTimes(m.cache, host, false, r);
    case FinishOne => FinishTimes(m.cache, r);
  }

  lemma NextTimed(env: HostMachine.Env, m: Moment, op: CacheOp, ops: seq<CacheOp>)
    requires ValidMoment(env, m) && Allowed(m, op) && Timed(m.cache, ops)
    ensures Timed(Next(env, m, op).cache, ops + [op])
  {
    hide ValidMoment, Next, Allowed, Timed, Clock, KeepsTime;
    ShapeOf(env, m);
    var c, d := m.cache, Next(env, m, op).cache;
    ClockMore(ops, op);
    TimedPc(c, ops);
    NextTimes(env, m, op, 0);
    forall r: GuestReg
      ensures if Locks(op, r) then UsedNow(d, r) else KeepsTime(c, d, r)
    {
      NextTimes(env, m, op, r);
    }
    TimedFrom(c, d, ops, op);
  }

  lemma TimedPc(c: Cache, ops: seq<CacheOp>)
    requires Shape(c) && Timed(c, ops)
    ensures c.pc == Clock(ops)
  {
  }

  lemma FinishTimes(c: Cache, r: GuestReg)
    requires Shape(c)
    ensures Finish(c).pc == (c.pc + 1) % TWO32 && KeepsTime(c, Finish(c), r)
  {
  }

  lemma TimedFrom(c: Cache, d: Cache, ops: seq<CacheOp>, op: CacheOp)
    requires Shape(c) && Shape(d) && Timed(c, ops) && d.pc == Clock(ops + [op])
    requires forall r: GuestReg :: if Locks(op, r) then UsedNow(d, r) else KeepsTime(c, d, r)
    ensures Timed(d, ops + [op])
  {
    hide KeepsTime, Requested, Clock;
    var all := ops + [op];
    forall r: GuestReg | d.toSlot[r] != NONE
      ensures LastLock(all, r) >= 0 && d.slots[d.toSlot[r]].lastUse == Clock(all[..LastLock(all, r)])
    {
      LastLockMore(ops, op, r);
      if Locks(op, r) {
        ClockMore(ops, op);
        assert all[..|ops|] == ops && UsedNow(d, r);
      } else {
        StillTimed(c, d, ops, op, r);
      }
    }
  }

  lemma {:induction false} RunTimed(env: HostMachine.Env, m: Moment, past: seq<CacheOp>, ops: seq<CacheOp>)
    requires ValidMoment(env, m) && Timed(m.cache, past) && AllAllowed(env, m, ops)
    ensures Timed(After(env, m, ops).cache, past + ops)
    decreases |ops|
  {
    hide ValidMoment, Allowed, Next, Timed;
    if ops == [] {
      assert past + ops == past;
    } else {
      var all := past + ops;
      ShapeOf(env, m);
      assert all[..|past| + 1] == past + [ops[0]] && all[..|all|] == all;
      NextValid(env, m, ops[0]);
      NextTimed(env, m, ops[0], past);
      assert past + [ops[0]] + ops[1..] == all;
      RunTimed(env, Next(env, m, ops[0]), past + [ops[0]], ops[1..]);
    }
  }

  lemma StartTimed()
    ensures Timed(NewCache(), [])
  {
  }

  /** A victim's time is no later than that of any unlocked register kept. */
  lemma VictimTime(env: HostMachine.Env, m: Moment, ops: seq<CacheOp>, reqs: seq<Request>, v: SlotId, kept: SlotId)
    requires ValidMoment(env, m) && m.cache == NewCache() && AllAllowed(env, m, ops)
    requires var c := After(env, m, ops).cache;
             Allowed(After(env, m, ops), LockAll(reqs)) && Reserve(c, reqs).ok && v in Victims(c, reqs)
             && Evictable(Reserve(c, reqs).cache.slots[kept])
    ensures var c := After(env, m, ops).cache;
            var j, k := LastLock(ops, c.slots[v].reg), LastLock(ops, c.slots[kept].reg);
            j >= 0 && k >= 0 && Clock(ops[..j]) <= Clock(ops[..k])
  {
    hide ValidMoment, Victims, Reserve, Allowed, LastLock, Clock;
    var c := After(env, m, ops).cache;
    ViewPreserved(env, m, ops);
    ValidOf(env, After(env, m, ops));
    ShapeOf(env, m);
    StartTimed();
    assert [] + ops == ops;
    RunTimed(env, m, [], ops);
    EvictionChoice(c, reqs, v, kept);
    KeptSlot(c, reqs, kept);
    HeldSlot(c, v);
    HeldSlot(c, kept);
  }

  lemma InTime(ops: seq<CacheOp>, j: nat, k: nat)
    requires j <= |ops| && k <= |ops| && Clock(ops[..j]) <= Clock(ops[..k]) && Finished(ops) < TWO32
    ensures Finished(ops[..j]) <= Finished(ops[..k])
    ensures k < j ==> Finished(ops[..j]) == Finished(ops[..k])
  {
    hide Finished;
    assert ops[..|ops|] == ops;
    FinishedLater(ops, j, |ops|);
    FinishedLater(ops, k, |ops|);
    SmallClock(Finished(ops[..j]));
    SmallClock(Finished(ops[..k]));
    if k < j {
      FinishedLater(ops, k, j);
    }
  }

  lemma SmallClock(n: nat)
    requires n < TWO32
    ensures n % TWO32 == n
  {
    DivUnique(n, TWO32, 0, n);
  }

  /** From a new cache, over any sequence of operations, and for a lock that then evicts: the last operation
      that locked a victim's register belongs to no later instruction than that of any unlocked register kept,
      as far as 32 bits tell; so it does for fewer than 2^32 instructions, and is then the later operation
      only within one instruction. */
  lemma LeastRecentlyUsed(env: HostMachine.Env, m: Moment, ops: seq<CacheOp>, reqs: seq<Request>, v: SlotId,
                          kept: SlotId)
    requires ValidMoment(env, m) && m.cache == NewCache() && AllAllowed(env, m, ops)
    requires var c := After(env, m, ops).cache;
             Allowed(After(env, m, ops), LockAll(reqs)) && Reserve(c, reqs).ok && v in Victims(c, reqs)
             && Evictable(Reserve(c, reqs).cache.slots[kept])
    ensures var c := After(env, m, ops).cache;
            var j, k := LastLock(ops, c.slots[v].reg), LastLock(ops, c.slots[kept].reg);
            && j >= 0 && k >= 0 && Finished(ops[..j]) % TWO32 <= Finished(ops[..k]) % TWO32
            && (Finished(ops) < TWO32 ==>
                  && Finished(ops[..j]) <= Finished(ops[..k])
                  && (k < j ==> Finished(ops[..j]) == Finished(ops[..k])))
  {
    hide ValidMoment, Victims, Reserve, Allowed, LastLock, Finished, After, AllAllowed, Evictable;
    VictimTime(env, m, ops, reqs, v, kept);
    var c := After(env, m, ops).cache;
    var j, k := LastLock(ops, c.slots[v].reg), LastLock(ops, c.slots[kept].reg);
    if Finished(ops) < TWO32 {
      InTime(ops, j, k);
    }
  }

  lemma ValidOf(env: HostMachine.Env, m: Moment)
    requires ValidMoment(env, m)
    ensures Shape(m.cache) && Valid(m.cache)
  {
  }

  lemma KeptSlot(c: Cache, reqs: seq<Request>, kept: SlotId)
    requires Shape(c) && Valid(c) && Reserve(c, reqs).ok && Evictable(Reserve(c, reqs).cache.slots[kept])
    ensures c.slots[kept].reg != 0
  {
    hide Valid, MarkCached, Reserve, Victims, Requested, Shortage;
    MarkCachedLocks(c, reqs);
    ReserveIs(c, reqs);
  }

  // ----- within one instruction -----

  lemma {:induction false} AfterAppend(env: HostMachine.Env, m: Moment, a: seq<CacheOp>, b: seq<CacheOp>)
    requires Shape(m.cache) && AllAllowed(env, m, a) && AllAllowed(env, After(env, m, a), b)
    ensures AllAllowed(env, m, a + b) && After(env, m, a + b) == After(env, After(env, m, a), b)
    decreases |a|
  {
    hide Allowed, Next;
    if a == [] {
      assert a + b == b;
    } else {
      assert (a + b)[0] == a[0] && (a + b)[1..] == a[1..] + b;
      AfterAppend(env, Next(env, m, a[0]), a[1..], b);
    }
  }

  function UnlocksFrom(i: nat): (ops: seq<CacheOp>)
    requires i <= CACHE_SIZE
    ensures |ops| == CACHE_SIZE - i && forall k :: 0 <= k < |ops| ==> ops[k].UnlockOne?
    decreases CACHE_SIZE - i
  {
    if i == CACHE_SIZE then [] else [UnlockOne(CacheReg(i))] + UnlocksFrom(i + 1)
  }

  /** Only locks differ. */
  predicate Frees(c: Cache, d: Cache, i: nat)
    requires Shape(c) && Shape(d)
  {
    && d.pc == c.pc && d.toSlot == c.toSlot && d.free == c.free
    && forall j: SlotId :: d.slots[j] == if j >= i then c.slots[j].(locked := false) else c.slots[j]
  }

  lemma {:induction false} UnlocksAll(env: HostMachine.Env, m: Moment, i: nat)
    requires Shape(m.cache) && i <= CACHE_SIZE
    ensures AllAllowed(env, m, UnlocksFrom(i)) && Frees(m.cache, After(env, m, UnlocksFrom(i)).cache, i)
    decreases CACHE_SIZE - i
  {
    if i < CACHE_SIZE {
      CacheRegInverse(i);
      var op, n := UnlockOne(CacheReg(i)), Next(env, m, UnlockOne(CacheReg(i)));
      UnlocksAll(env, n, i + 1);
      assert UnlocksFrom(i)[1..] == UnlocksFrom(i + 1);
    }
  }

  function Upto(n: nat): (reqs: seq<Request>)
    requires n < 32
  {
    if n == 0 then [] else Upto(n - 1) + [ReadOf(n)]
  }

  function Firsts(n: nat): (s: set<GuestReg>)
    requires n < 32
    ensures |s| == n && forall r: GuestReg :: r in s <==> 1 <= r <= n
  {
    if n == 0 then {} else Firsts(n - 1) + {n}
  }

  lemma {:induction false} UptoIs(n: nat)
    requires n < 32
    ensures Requested(Upto(n)) == Firsts(n)
  {
    if n > 0 {
      UptoIs(n - 1);
      RequestedMore(Upto(n - 1), n);
    } else {
      NothingRequested();
    }
  }

  lemma RequestedMore(a: seq<Request>, r: GuestReg)
    requires r != 0
    ensures Requested(a + [ReadOf(r)]) == Requested(a) + {r}
  {
    forall q: Request
      ensures q in a + [ReadOf(r)] <==> q in a || q == ReadOf(r)
    {
    }
  }

  /** All slots are taken and unlocked, and were used in the first instruction. */
  ghost predicate FullAtStart(c: Cache) {
    && Shape(c) && Valid(c) && c.pc == 0 && c.free == [] && c.toSlot[18] == NONE
    && forall j: SlotId :: c.slots[j].reg != 0 && !c.slots[j].locked && c.slots[j].lastUse == 0
  }

  function FillUp(): seq<CacheOp> { [LockAll(Upto(17))] + UnlocksFrom(0) }

  lemma FirstLock(env: HostMachine.Env, m: Moment)
    requires ValidMoment(env, m) && m.cache == NewCache()
    ensures Shape(m.cache) && Allowed(m, LockAll(Upto(17)))
    ensures var n := Next(env, m, LockAll(Upto(17)));
            ValidMoment(env, n) && Lock(m.cache, Upto(17)).ok && n.cache == Lock(m.cache, Upto(17)).cache
  {
    hide Lock, CacheMeaning.Agree, Valid, Clean, Upto, Firsts;
    UptoIs(17);
    assert |Firsts(17)| == 17;
    assert Pinned(m.cache, Upto(17)) == Firsts(17) by { NothingLocked(); }
    NextValid(env, m, LockAll(Upto(17)));
  }

  lemma NothingLocked()
    ensures LockedRegs(NewCache()) == {}
  {
  }

  lemma AfterCons(env: HostMachine.Env, m: Moment, op: CacheOp, rest: seq<CacheOp>)
    requires Shape(m.cache) && Allowed(m, op) && AllAllowed(env, Next(env, m, op), rest)
    ensures AllAllowed(env, m, [op] + rest) && After(env, m, [op] + rest) == After(env, Next(env, m, op), rest)
  {
    hide Allowed, Next;
    assert ([op] + rest)[1..] == rest;
  }

  lemma FillsUp(env: HostMachine.Env, m: Moment)
    requires ValidMoment(env, m) && m.cache == NewCache()
    ensures AllAllowed(env, m, FillUp()) && FullAtStart(After(env, m, FillUp()).cache)
  {
    hide Lock, ValidMoment, Valid, UnlocksFrom, Next, Allowed, Upto, After, AllAllowed, FullAtStart, Frees, NewCache;
    FirstLock(env, m);
    var n := Next(env, m, LockAll(Upto(17)));
    ValidOf(env, n);
    FullHouse(m.cache, n.cache);
    UnlocksAll(env, n, 0);
    ViewPreserved(env, n, UnlocksFrom(0));
    ValidOf(env, After(env, n, UnlocksFrom(0)));
    AfterCons(env, m, LockAll(Upto(17)), UnlocksFrom(0));
    Unlocked(n.cache, After(env, n, UnlocksFrom(0)).cache);
  }

  lemma Unlocked(d: Cache, e: Cache)
    requires Shape(d) && Shape(e) && Valid(e) && Frees(d, e, 0) && d.free == [] && d.pc == 0 && d.toSlot[18] == NONE
    requires forall j: SlotId :: d.slots[j].reg != 0 && d.slots[j].lastUse == 0
    ensures FullAtStart(e)
  {
    hide Valid;
  }

  lemma FullHouse(c: Cache, d: Cache)
    requires c == NewCache() && Shape(d) && Lock(c, Upto(17)).ok && d == Lock(c, Upto(17)).cache && Valid(d)
    ensures d.free == [] && d.pc == 0 && forall r: GuestReg :: d.toSlot[r] != NONE <==> 1 <= r <= 17
    ensures forall j: SlotId :: d.slots[j].reg != 0 && d.slots[j].lastUse == 0
  {
    hide Lock, Requested, Upto, Valid, Firsts;
    UptoIs(17);
    NewCacheValid();
    LockTimes(c, Upto(17), 0);
    forall r: GuestReg
      ensures d.toSlot[r] != NONE <==> 1 <= r <= 17
      ensures 1 <= r <= 17 ==> d.slots[d.toSlot[r]].lastUse == 0
    {
      LockTimes(c, Upto(17), r);
    }
    assert CachedRegs(d) == Firsts(17);
    NoneFree(d);
  }

  lemma NoneFree(d: Cache)
    requires Shape(d) && Valid(d) && |CachedRegs(d)| == CACHE_SIZE
    ensures d.free == [] && forall j: SlotId :: d.slots[j].reg != 0 && d.toSlot[d.slots[j].reg] == j
  {
  }

  /** One register is locked and unlocked again: in the same instruction that leaves no trace. */
  lemma UsedAgain(env: HostMachine.Env, m: Moment, v: SlotId)
    requires ValidMoment(env, m) && FullAtStart(m.cache)
    ensures var p, c := m.cache.slots[v].reg, m.cache;
            var ops := [LockAll([ReadOf(p)]), UnlockOne(CacheReg(v))];
            AllAllowed(env, m, ops) && After(env, m, ops).cache == c
  {
    hide CacheMeaning.Agree, Clean, Lock, Valid, Pinned;
    var p, c := m.cache.slots[v].reg, m.cache;
    var lock, unlock := LockAll([ReadOf(p)]), UnlockOne(CacheReg(v));
    HeldSlot(c, v);
    LocksAgain(c, v);
    CacheRegInverse(v);
    var n := Next(env, m, lock);
    assert Unlock(n.cache, CacheReg(v), false).slots == c.slots;
    AfterCons(env, n, unlock, []);
    assert [unlock] + [] == [unlock];
    AfterCons(env, m, lock, [unlock]);
    assert [lock] + [unlock] == [lock, unlock];
  }

  lemma LocksAgain(c: Cache, v: SlotId)
    requires FullAtStart(c) && c.toSlot[c.slots[v].reg] == v
    ensures var reqs := [ReadOf(c.slots[v].reg)];
            && |Pinned(c, reqs)| <= CACHE_SIZE
            && Lock(c, reqs).cache == c.(slots := c.slots[v := c.slots[v].(locked := true)])
  {
    hide Valid;
    var p := c.slots[v].reg;
    var reqs := [ReadOf(p)];
    assert reqs[1..] == [];
    RequestedOne(p);
    assert Requested(reqs) == {p};
    assert LockedRegs(c) == {};
    assert Pinned(c, reqs) == {p};
    assert Missing(c, reqs) == {};
    var m := LockSlot(c, p);
    assert MarkCached(c, reqs) == m;
    LockNothing(UseSlot(m, p), Reads(reqs));
  }

  lemma OneVictim(env: HostMachine.Env, n: Moment) returns (v: SlotId)
    requires ValidMoment(env, n) && FullAtStart(n.cache)
    ensures Allowed(n, LockAll([ReadOf(18)])) && Victims(n.cache, [ReadOf(18)]) == [v]
  {
    hide CacheMeaning.Agree, Clean, Reserve, Victims, Valid;
    var c, reqs := n.cache, [ReadOf(18)];
    RequestedOne(18);
    assert Requested(reqs) == {18};
    assert LockedRegs(c) == {};
    assert Pinned(c, reqs) == {18};
    assert Missing(c, reqs) == {18};
    ReserveOk(c, reqs);
    ReserveIs(c, reqs);
    v := Victims(c, reqs)[0];
  }

  lemma {:induction false} NoneFinished(ops: seq<CacheOp>)
    requires forall k :: 0 <= k < |ops| ==> !ops[k].FinishOne?
    ensures Finished(ops) == 0
  {
    if ops != [] {
      NoneFinished(ops[..|ops| - 1]);
    }
  }

  /** After these operations p has been locked last. */
  lemma LockedLast(before: seq<CacheOp>, p: GuestReg, host: HostMachine.HReg, q: GuestReg)
    requires p != 0
    ensures var ops := before + [LockAll([ReadOf(p)]), UnlockOne(host)];
            LastLock(ops, p) == |before| && (q != p ==> LastLock(ops, q) < |before|)
  {
    hide Requested, LastLock;
    var first, second := LockAll([ReadOf(p)]), UnlockOne(host);
    assert before + [first, second] == (before + [first]) + [second];
    RequestedOne(p);
    NotRequested(p, q);
    LastLockMore(before, first, p);
    LastLockMore(before, first, q);
    LastLockMore(before + [first], second, p);
    LastLockMore(before + [first], second, q);
  }

  lemma NotRequested(p: GuestReg, q: GuestReg)
    ensures p != q ==> q !in Requested([ReadOf(p)])
  {
  }

  /** Within one instruction the order of operations does not decide: there is a run in which the register
      locked last of all is the one evicted next, and every other one is kept. */
  lemma LastUsedMayGo(env: HostMachine.Env, m: Moment) returns (ops: seq<CacheOp>, v: SlotId)
    requires ValidMoment(env, m) && m.cache == NewCache()
    ensures AllAllowed(env, m, ops) && Finished(ops) == 0
    ensures var n := After(env, m, ops);
            && Allowed(n, LockAll([ReadOf(18)])) && Victims(n.cache, [ReadOf(18)]) == [v]
            && forall k: SlotId :: k != v ==> LastLock(ops, n.cache.slots[k].reg) < LastLock(ops, n.cache.slots[v].reg)
  {
    hide ValidMoment, Allowed, Next, Valid, Victims, FillUp, LastLock, Finished;
    FillsUp(env, m);
    ViewPreserved(env, m, FillUp());
    var n := After(env, m, FillUp());
    var c := n.cache;
    v := OneVictim(env, n);
    UsedAgain(env, n, v);
    var p := c.slots[v].reg;
    var more := [LockAll([ReadOf(p)]), UnlockOne(CacheReg(v))];
    ops := FillUp() + more;
    AfterAppend(env, m, FillUp(), more);
    assert After(env, m, ops).cache == c;
    SameAllowed(n, After(env, m, ops), LockAll([ReadOf(18)]));
    NoFinishes(more);
    forall k: SlotId | k != v
      ensures LastLock(ops, c.slots[k].reg) < LastLock(ops, p)
    {
      HeldSlot(c, k);
      HeldSlot(c, v);
      LockedLast(FillUp(), p, CacheReg(v), c.slots[k].reg);
    }
  }

  lemma SameAllowed(m: Moment, n: Moment, op: CacheOp)
    requires m.cache == n.cache && Shape(m.cache)
    ensures Allowed(m, op) <==> Allowed(n, op)
  {
  }

  lemma NoFinishes(more: seq<CacheOp>)
    requires forall k :: 0 <= k < |more| ==> !more[k].FinishOne?
    ensures Finished(FillUp() + more) == 0
  {
    hide Finished, Upto, UnlocksFrom;
    NoneFinished(FillUp() + more);
  }
}
