/** What locking registers does to the cache: which slots are evicted, when it fails, and what the
    caller is given. */
module CacheProperties {
  import opened Instructions
  import opened HostMachine
  import opened RegisterCaches

  // ----- the eviction order -----

  predicate Distinct(s: seq<SlotId>) {
    forall j, k :: 0 <= j < k < |s| ==> s[j] != s[k]
  }

  predicate SortedByUse(slots: seq<Slot>, s: seq<SlotId>)
    requires |slots| == CACHE_SIZE
  {
    forall j, k :: 0 <= j < k < |s| ==> slots[s[j]].lastUse >= slots[s[k]].lastUse
  }

  lemma AvailableUnfold(slots: seq<Slot>, i: nat)
    requires i < |slots| == CACHE_SIZE
    ensures AvailableFrom(slots, i) == (if Evictable(slots[i]) then [i] else []) + AvailableFrom(slots, i + 1)
  {
  }

  lemma {:induction false} AvailableIs(slots: seq<Slot>, i: nat)
    requires i <= |slots| == CACHE_SIZE
    ensures forall v: SlotId :: v in AvailableFrom(slots, i) <==> i <= v < CACHE_SIZE && Evictable(slots[v])
    decreases CACHE_SIZE - i
  {
    if i < CACHE_SIZE {
      hide AvailableFrom, Evictable;
      AvailableIs(slots, i + 1);
      AvailableUnfold(slots, i);
    }
  }

  lemma {:induction false} AvailableOnce(slots: seq<Slot>, i: nat)
    requires i <= |slots| == CACHE_SIZE
    ensures forall v: SlotId :: multiset(AvailableFrom(slots, i))[v] <= 1
    decreases CACHE_SIZE - i
  {
    if i < CACHE_SIZE {
      hide AvailableFrom, Evictable;
      var rest := AvailableFrom(slots, i + 1);
      AvailableIs(slots, i + 1);
      AvailableOnce(slots, i + 1);
      AvailableUnfold(slots, i);
      assert i !in rest;
      assert multiset([i] + rest) == multiset{i} + multiset(rest);
      assert [] + rest == rest;
    }
  }

  lemma {:induction false} InsertKeepsElements(slots: seq<Slot>, v: SlotId, s: seq<SlotId>)
    requires |slots| == CACHE_SIZE
    ensures multiset(InsertByUse(slots, v, s)) == multiset(s) + multiset{v}
  {
    if s == [] || slots[v].lastUse > slots[s[0]].lastUse {
    } else {
      InsertKeepsElements(slots, v, s[1..]);
      assert s == [s[0]] + s[1..];
    }
  }

  lemma {:induction false} InsertSorts(slots: seq<Slot>, v: SlotId, s: seq<SlotId>)
    requires |slots| == CACHE_SIZE && SortedByUse(slots, s)
    ensures SortedByUse(slots, InsertByUse(slots, v, s))
  {
    if s == [] || slots[v].lastUse > slots[s[0]].lastUse {
    } else {
      var t := InsertByUse(slots, v, s[1..]);
      InsertSorts(slots, v, s[1..]);
      InsertKeepsElements(slots, v, s[1..]);
      forall k | 0 <= k < |t|
        ensures slots[s[0]].lastUse >= slots[t[k]].lastUse
      {
        assert t[k] in multiset(t);
        assert t[k] == v || t[k] in s[1..];
      }
    }
  }

  lemma {:induction false} SortIs(slots: seq<Slot>, a: seq<SlotId>)
    requires |slots| == CACHE_SIZE
    ensures multiset(SortByUse(slots, a)) == multiset(a) && SortedByUse(slots, SortByUse(slots, a))
  {
    if a != [] {
      SortIs(slots, a[1..]);
      InsertKeepsElements(slots, a[0], SortByUse(slots, a[1..]));
      InsertSorts(slots, a[0], SortByUse(slots, a[1..]));
      assert a == [a[0]] + a[1..];
    }
  }

  lemma CountedTwice(s: seq<SlotId>, j: nat, k: nat)
    requires j < k < |s| && s[j] == s[k]
    ensures multiset(s)[s[j]] >= 2
  {
    assert s == s[..k] + [s[k]] + s[k + 1..];
    assert s[j] in s[..k];
  }

  lemma OncePerElement(s: seq<SlotId>)
    requires forall v: SlotId :: multiset(s)[v] <= 1
    ensures Distinct(s)
  {
    if !Distinct(s) {
      var j, k :| 0 <= j < k < |s| && s[j] == s[k];
      CountedTwice(s, j, k);
      assert false;
    }
  }

  /** The order lists every unlocked slot in use exactly once, most recently used first. */
  lemma OrderIs(slots: seq<Slot>)
    requires |slots| == CACHE_SIZE
    ensures var order := EvictionOrder(slots);
            Distinct(order) && SortedByUse(slots, order)
            && (forall v: SlotId :: v in order <==> Evictable(slots[v]))
            && |order| == |AvailableFrom(slots, 0)|
  {
    var a, order := AvailableFrom(slots, 0), EvictionOrder(slots);
    AvailableIs(slots, 0);
    AvailableOnce(slots, 0);
    SortIs(slots, a);
    OncePerElement(order);
    forall v: SlotId
      ensures v in order <==> v in a
    {
      assert v in multiset(order) <==> v in multiset(a);
    }
    assert |multiset(order)| == |multiset(a)|;
  }

  // ----- eviction -----

  ghost predicate AllEvictable(c: Cache, order: seq<SlotId>)
    requires Shape(c)
  {
    Distinct(order) && forall k :: 0 <= k < |order| ==> Evictable(c.slots[order[k]])
  }

  /** Eviction empties the last `count` slots of the order and touches no other. */
  lemma {:induction false} EvictLastIs(c: Cache, order: seq<SlotId>, count: nat)
    requires Shape(c) && Valid(c) && count <= |order| && AllEvictable(c, order)
    ensures var e := EvictLast(c, order, count).cache;
            Valid(e) && KeepsLocked(c, e) && e.pc == c.pc && |e.free| == |c.free| + count
            && forall i: SlotId :: e.slots[i] == if i in order[|order| - count..] then EMPTY else c.slots[i]
    decreases count
  {
    hide Valid, EvictCode;
    if count > 0 {
      hide EvictSlot, AllEvictable, EvictLast, KeepsLocked;
      var n := |order| - 1;
      var v := order[n];
      var d := EvictSlot(c, v);
      FirstVictim(c, order, count);
      EvictLastIs(d, order[..n], count - 1);
      KeepsLockedTwice(c, d, EvictLast(d, order[..n], count - 1).cache);
      var e := EvictLast(c, order, count).cache;
      forall i: SlotId
        ensures e.slots[i] == if i in order[|order| - count..] then EMPTY else c.slots[i]
      {
        TailElement(order, count, i);
      }
    }
  }

  lemma TailElement(order: seq<SlotId>, count: nat, i: SlotId)
    requires 0 < count <= |order|
    ensures var n := |order| - 1;
            i in order[|order| - count..] <==> i == order[n] || i in order[..n][n - (count - 1)..]
  {
    var n := |order| - 1;
    assert order[|order| - count..] == order[..n][n - (count - 1)..] + [order[n]];
  }

  lemma FirstVictim(c: Cache, order: seq<SlotId>, count: nat)
    requires Shape(c) && Valid(c) && 0 < count <= |order| && AllEvictable(c, order)
    ensures var n := |order| - 1;
            var d := EvictSlot(c, order[n]);
            Valid(d) && KeepsLocked(c, d) && AllEvictable(d, order[..n]) && d.pc == c.pc && |d.free| == |c.free| + 1
            && d.slots == c.slots[order[n] := EMPTY]
            && EvictLast(c, order, count).cache == EvictLast(d, order[..n], count - 1).cache
  {
    hide Valid, EvictCode;
    EvictSlotValid(c, order[|order| - 1]);
  }

  lemma KeepsLockedTwice(c: Cache, d: Cache, e: Cache)
    requires Shape(c) && Shape(d) && Shape(e) && KeepsLocked(c, d) && KeepsLocked(d, e)
    ensures KeepsLocked(c, e)
  {
  }

  /** The slots reserve_registers evicts. */
  function Victims(c: Cache, reqs: seq<Request>): seq<SlotId>
    requires Shape(c)
  {
    var order := EvictionOrder(MarkCached(c, reqs).slots);
    if Shortage(c, reqs) <= |order| then order[|order| - Shortage(c, reqs)..] else []
  }

  lemma ReserveIs(c: Cache, reqs: seq<Request>)
    requires Shape(c) && Valid(c) && Reserve(c, reqs).ok
    ensures var e, m := Reserve(c, reqs).cache, MarkCached(c, reqs);
            Valid(e) && KeepsLocked(m, e) && e.pc == m.pc && |e.free| == |c.free| + Shortage(c, reqs)
            && |Victims(c, reqs)| == Shortage(c, reqs) && Distinct(Victims(c, reqs))
            && forall i: SlotId :: e.slots[i] == if i in Victims(c, reqs) then EMPTY else m.slots[i]
  {
    hide Valid, MarkCached, EvictionOrder, EvictLast, Missing, Requested;
    var m := MarkCached(c, reqs);
    MarkCachedLocks(c, reqs);
    OrderIs(m.slots);
    if Shortage(c, reqs) > 0 {
      EvictLastIs(m, EvictionOrder(m.slots), Shortage(c, reqs));
    }
  }

  lemma VictimIs(c: Cache, reqs: seq<Request>, v: SlotId)
    requires Shape(c) && Valid(c) && Reserve(c, reqs).ok && v in Victims(c, reqs)
    ensures Evictable(MarkCached(c, reqs).slots[v])
  {
    hide Valid, MarkCached, EvictionOrder, Reserve, Missing, Shortage, Requested;
    var order := EvictionOrder(MarkCached(c, reqs).slots);
    OrderIs(MarkCached(c, reqs).slots);
    assert v in order;
  }

  lemma TailUsedEarlier(slots: seq<Slot>, order: seq<SlotId>, n: nat, v: SlotId, kept: SlotId)
    requires |slots| == CACHE_SIZE && SortedByUse(slots, order) && n <= |order|
    requires v in order[n..] && kept in order && kept !in order[n..]
    ensures slots[v].lastUse <= slots[kept].lastUse
  {
    forall j | n <= j < |order|
      ensures order[j] in order[n..]
    {
      assert order[n..][j - n] == order[j];
    }
    var k :| 0 <= k < |order[n..]| && order[n..][k] == v;
    var j :| 0 <= j < |order| && order[j] == kept;
    assert order[n + k] == v;
  }

  lemma VictimUsedEarlier(c: Cache, reqs: seq<Request>, v: SlotId, kept: SlotId)
    requires Shape(c) && Valid(c) && Reserve(c, reqs).ok && v in Victims(c, reqs)
    requires Evictable(MarkCached(c, reqs).slots[kept]) && kept !in Victims(c, reqs)
    ensures MarkCached(c, reqs).slots[v].lastUse <= MarkCached(c, reqs).slots[kept].lastUse
  {
    hide Valid, MarkCached, EvictionOrder, Reserve, Missing, Shortage, Requested, Evictable;
    var order := EvictionOrder(MarkCached(c, reqs).slots);
    OrderIs(MarkCached(c, reqs).slots);
    TailUsedEarlier(MarkCached(c, reqs).slots, order, |order| - Shortage(c, reqs), v, kept);
  }

  /** Exactly the missing number of slots is evicted; no victim was locked or holds a requested
      register; and every victim's last use is no later than that of any unlocked slot kept. */
  lemma EvictionChoice(c: Cache, reqs: seq<Request>, v: SlotId, kept: SlotId)
    requires Shape(c) && Valid(c) && Reserve(c, reqs).ok
    requires v in Victims(c, reqs)
    ensures |Victims(c, reqs)| == Shortage(c, reqs)
    ensures c.slots[v].reg != 0 && !c.slots[v].locked && c.slots[v].reg !in Requested(reqs)
    ensures Reserve(c, reqs).cache.slots[v] == EMPTY
    ensures Evictable(Reserve(c, reqs).cache.slots[kept]) ==> c.slots[v].lastUse <= c.slots[kept].lastUse
  {
    hide Valid, MarkCached, EvictionOrder, Reserve, Missing, Shortage, Requested, Victims;
    MarkCachedLocks(c, reqs);
    ReserveIs(c, reqs);
    VictimIs(c, reqs, v);
    if Evictable(Reserve(c, reqs).cache.slots[kept]) {
      VictimUsedEarlier(c, reqs, v, kept);
    }
  }

  // ----- when locking fails -----

  function LockedRegs(c: Cache): set<GuestReg>
    requires Shape(c)
  {
    set r: GuestReg | r < 32 && c.toSlot[r] != NONE && c.slots[c.toSlot[r]].locked
  }

  function UnlockedFrom(c: Cache, i: nat): set<GuestReg>
    requires Shape(c)
  {
    set r: GuestReg | r < 32 && c.toSlot[r] != NONE && c.toSlot[r] >= i && !c.slots[c.toSlot[r]].locked
  }

  lemma UnlockedStep(c: Cache, i: SlotId)
    requires Valid(c)
    ensures UnlockedFrom(c, i) == UnlockedFrom(c, i + 1) + (if Evictable(c.slots[i]) then {c.slots[i].reg} else {})
    ensures c.slots[i].reg !in UnlockedFrom(c, i + 1)
  {
  }

  lemma {:induction false} AvailableCount(c: Cache, i: nat)
    requires Shape(c) && Valid(c) && i <= CACHE_SIZE
    ensures |AvailableFrom(c.slots, i)| == |UnlockedFrom(c, i)|
    decreases CACHE_SIZE - i
  {
    hide Valid;
    if i == CACHE_SIZE {
      assert UnlockedFrom(c, i) == {};
    } else {
      AvailableCount(c, i + 1);
      UnlockedStep(c, i);
    }
  }

  lemma OrderCount(c: Cache)
    requires Valid(c)
    ensures |EvictionOrder(c.slots)| + |LockedRegs(c)| + |c.free| == CACHE_SIZE
  {
    hide EvictionOrder, AvailableFrom;
    assert |EvictionOrder(c.slots)| == |AvailableFrom(c.slots, 0)| by { OrderIs(c.slots); }
    AvailableCount(c, 0);
    assert CachedRegs(c) == UnlockedFrom(c, 0) + LockedRegs(c);
  }

  /** Registers that must sit in the cache at once: those already locked and those requested. */
  function Pinned(c: Cache, reqs: seq<Request>): set<GuestReg>
    requires Shape(c)
  {
    LockedRegs(c) + Requested(reqs)
  }

  lemma PinnedIs(c: Cache, reqs: seq<Request>)
    requires Valid(c)
    ensures Shape(MarkCached(c, reqs))
    ensures Pinned(c, reqs) == LockedRegs(MarkCached(c, reqs)) + Missing(c, reqs)
    ensures LockedRegs(MarkCached(c, reqs)) !! Missing(c, reqs)
    ensures MarkCached(c, reqs).free == c.free
  {
    hide MarkCached, Requested;
    MarkCachedLocks(c, reqs);
  }

  lemma ReserveOk(c: Cache, reqs: seq<Request>)
    requires Shape(c) && Valid(c)
    ensures Reserve(c, reqs).ok <==> |Pinned(c, reqs)| <= CACHE_SIZE
  {
    hide Valid, MarkCached, EvictionOrder, Requested, Missing, Pinned, LockedRegs, EvictLast;
    var m := MarkCached(c, reqs);
    MarkCachedLocks(c, reqs);
    OrderCount(m);
    PinnedIs(c, reqs);
  }

  lemma SlotHolds(c: Cache, r: GuestReg)
    requires Shape(c) && Valid(c) && c.toSlot[r] != NONE
    ensures r != 0 && c.slots[c.toSlot[r]].reg == r
  {
  }

  lemma HeldSlot(c: Cache, i: SlotId)
    requires Shape(c) && Valid(c) && c.slots[i].reg != 0
    ensures c.toSlot[c.slots[i].reg] == i
  {
  }

  lemma RequestedStays(c: Cache, reqs: seq<Request>, r: GuestReg)
    requires Shape(c) && Valid(c) && Reserve(c, reqs).ok && r in Requested(reqs)
    ensures Reserve(c, reqs).cache.toSlot[r] == NONE <==> c.toSlot[r] == NONE
  {
    hide Valid, MarkCached, Reserve, Victims, Requested, Shortage;
    var e, m := Reserve(c, reqs).cache, MarkCached(c, reqs);
    MarkCachedLocks(c, reqs);
    ReserveIs(c, reqs);
    if m.toSlot[r] != NONE {
      SlotHolds(m, r);
      HeldSlot(e, m.toSlot[r]);
    }
    if e.toSlot[r] != NONE {
      SlotHolds(e, r);
      HeldSlot(m, e.toSlot[r]);
    }
  }

  lemma MissingAfterReserve(c: Cache, reqs: seq<Request>)
    requires Shape(c) && Valid(c) && Reserve(c, reqs).ok
    ensures var e := Reserve(c, reqs).cache; Missing(e, reqs) == Missing(c, reqs) && |Missing(e, reqs)| <= |e.free|
  {
    hide Valid, MarkCached, Reserve, Victims, Requested;
    ReserveIs(c, reqs);
    forall r | r in Requested(reqs) {
      RequestedStays(c, reqs, r);
    }
  }

  lemma MissingStep(c: Cache, reqs: seq<Request>)
    requires Valid(c) && reqs != []
    ensures var r, rest := reqs[0].reg, reqs[1..];
            && (r == 0 ==> Missing(c, reqs) == Missing(c, rest))
            && (r != 0 && c.toSlot[r] != NONE ==> Missing(c, reqs) == Missing(UseSlot(c, r), rest))
            && (r != 0 && c.toSlot[r] == NONE ==> r in Missing(c, reqs))
            && (r != 0 && c.toSlot[r] == NONE && c.free != [] ==>
                  Missing(c, reqs) == Missing(AssignSlot(c, r), rest) + {r} && r !in Missing(AssignSlot(c, r), rest))
  {
    RequestedSplit(reqs);
  }

  lemma {:induction false} LockEachOk(c: Cache, reqs: seq<Request>, wanted: set<GuestReg>)
    requires Shape(c) && Valid(c) && |Missing(c, reqs)| <= |c.free|
    ensures LockEach(c, reqs, wanted).ok
    decreases |reqs|
  {
    hide Valid, Missing;
    if reqs != [] {
      var r := reqs[0].reg;
      MissingStep(c, reqs);
      if r == 0 {
        LockEachOk(c, reqs[1..], wanted);
      } else if c.toSlot[r] != NONE {
        LockSlotValid(c, r);
        LockEachOk(UseSlot(c, r), reqs[1..], wanted);
      } else {
        AssignSlotValid(c, r);
        LockEachOk(AssignSlot(c, r), reqs[1..], wanted);
      }
    }
  }

  /** Locking passes every verify exactly when the registers already locked and those requested are at
      most 17 in all. */
  lemma LockOk(c: Cache, reqs: seq<Request>)
    requires Shape(c) && Valid(c)
    ensures Lock(c, reqs).ok <==> |Pinned(c, reqs)| <= CACHE_SIZE
  {
    hide Valid, Reserve, Missing, Pinned;
    ReserveOk(c, reqs);
    if Reserve(c, reqs).ok {
      ReserveIs(c, reqs);
      MissingAfterReserve(c, reqs);
      LockEachOk(Reserve(c, reqs).cache, reqs, Reads(reqs));
    }
  }

  // ----- what the caller is given -----

  /** The host register that stands for a guest register. */
  predicate HeldBy(c: Cache, r: GuestReg, h: HReg)
    requires Shape(c)
  {
    if r == 0 then h == XZR else c.toSlot[r] != NONE && h == CacheReg(c.toSlot[r])
  }

  /** The same, locked. */
  predicate Given(c: Cache, r: GuestReg, h: HReg)
    requires Shape(c)
  {
    HeldBy(c, r, h) && (r == 0 || c.slots[c.toSlot[r]].locked)
  }

  ghost predicate LocksOnly(c: Cache, d: Cache, regs: set<GuestReg>)
    requires Shape(c) && Shape(d)
  {
    forall i :: 0 <= i < CACHE_SIZE && d.slots[i].locked ==> c.slots[i].locked || d.slots[i].reg in regs
  }

  lemma GivenKept(c: Cache, d: Cache, r: GuestReg, h: HReg)
    requires Shape(c) && Shape(d) && Valid(c) && Valid(d) && KeepsLocked(c, d) && Given(c, r, h)
    ensures Given(d, r, h)
  {
  }

  /** The cache after the first request of LockEach. */
  function AfterFirst(c: Cache, r: GuestReg): (d: Cache)
    requires Shape(c)
    ensures Shape(d)
  {
    if r == 0 || (c.toSlot[r] == NONE && c.free == []) then c
    else if c.toSlot[r] != NONE then UseSlot(c, r)
    else AssignSlot(c, r)
  }

  lemma LockEachUnfold(c: Cache, reqs: seq<Request>, wanted: set<GuestReg>)
    requires Shape(c) && reqs != [] && LockEach(c, reqs, wanted).ok
    ensures var r, l := reqs[0].reg, LockEach(c, reqs, wanted);
            var d := AfterFirst(c, r);
            var rest := LockEach(d, reqs[1..], wanted);
            rest.ok && l.cache == rest.cache && (r == 0 || c.toSlot[r] != NONE || c.free != [])
            && l.regs == [if r == 0 then XZR else CacheReg(d.toSlot[r])] + rest.regs
            && l.code == (if r != 0 && c.toSlot[r] == NONE then FillCode(c, r, wanted) else []) + rest.code
  {
  }

  lemma LocksOnlyTwice(c: Cache, d: Cache, e: Cache, r: set<GuestReg>, q: set<GuestReg>)
    requires Shape(c) && Shape(d) && Shape(e) && LocksOnly(c, d, r) && KeepsLocked(d, e) && LocksOnly(d, e, q)
    ensures LocksOnly(c, e, r + q)
  {
  }

  lemma {:induction false} LockEachIs(c: Cache, reqs: seq<Request>, wanted: set<GuestReg>)
    requires Shape(c) && Valid(c) && LockEach(c, reqs, wanted).ok
    ensures var l := LockEach(c, reqs, wanted);
            Valid(l.cache) && KeepsLocked(c, l.cache) && LocksOnly(c, l.cache, Requested(reqs)) && |l.regs| == |reqs|
            && forall i :: 0 <= i < |reqs| ==> Given(l.cache, reqs[i].reg, l.regs[i])
    decreases |reqs|
  {
    if reqs != [] {
      hide Valid, Given, Requested, FillCode, LockEach, AfterFirst, KeepsLocked, LocksOnly;
      var r, l := reqs[0].reg, LockEach(c, reqs, wanted);
      var d := AfterFirst(c, r);
      RequestedSplit(reqs);
      LockEachUnfold(c, reqs, wanted);
      AfterFirstIs(c, r);
      LockEachIs(d, reqs[1..], wanted);
      KeepsLockedTwice(c, d, l.cache);
      LocksOnlyTwice(c, d, l.cache, if r == 0 then {} else {r}, Requested(reqs[1..]));
      GivenKept(d, l.cache, r, l.regs[0]);
      assert forall i :: 0 < i < |reqs| ==> reqs[i] == reqs[1..][i - 1] && l.regs[i] == l.regs[1..][i - 1];
    }
  }

  lemma AfterFirstIs(c: Cache, r: GuestReg)
    requires Valid(c) && (r == 0 || c.toSlot[r] != NONE || c.free != [])
    ensures var d := AfterFirst(c, r);
            Valid(d) && KeepsLocked(c, d) && LocksOnly(c, d, if r == 0 then {} else {r})
            && Given(d, r, if r == 0 then XZR else CacheReg(d.toSlot[r]))
  {
    if r != 0 && c.toSlot[r] != NONE {
      LockSlotValid(c, r);
    } else if r != 0 {
      AssignSlotValid(c, r);
    }
  }

  /** A successful lock keeps the structure and every slot locked before, locks nothing but what was
      asked for, and answers each request with the register that caches it. */
  lemma LockIs(c: Cache, reqs: seq<Request>)
    requires Shape(c) && Valid(c) && Lock(c, reqs).ok
    ensures var l := Lock(c, reqs);
            Valid(l.cache) && KeepsLocked(c, l.cache) && LocksOnly(c, l.cache, Requested(reqs)) && |l.regs| == |reqs|
            && forall i :: 0 <= i < |reqs| ==> Given(l.cache, reqs[i].reg, l.regs[i])
  {
    hide Valid, Given, Requested, Reserve, LockEach, MarkCached, Victims, Shortage;
    MarkCachedLocks(c, reqs);
    ReserveIs(c, reqs);
    LockEachIs(Reserve(c, reqs).cache, reqs, Reads(reqs));
  }
}
