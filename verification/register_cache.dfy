/** The translation-time cache of guest registers in host registers. */
module RegisterCaches {
  import opened Words
  import opened Instructions
  import opened HostMachine

  const CACHE_SIZE: nat := 17

  /** invalid_id */
  const NONE: nat := 65535

  type SlotId = i: nat | i < 17

  /** RegisterAllocation::cache: X11 to X17 and X19 to X28. */
  function CacheReg(i: SlotId): HReg {
    if i < 7 then 11 + i else 12 + i
  }

  /** platform_register_to_slot */
  function SlotOfHost(r: HReg): nat {
    if 11 <= r <= 17 then r - 11 else if 19 <= r <= 28 then r - 12 else NONE
  }

  datatype Slot = Slot(lastUse: nat, reg: GuestReg, locked: bool, dirty: bool)

  const EMPTY: Slot := Slot(0, 0, false, false)

  /** The fields of the RegisterCache object that change. */
  datatype Cache = Cache(pc: nat, slots: seq<Slot>, toSlot: seq<nat>, free: seq<SlotId>)

  predicate Shape(c: Cache) {
    && |c.slots| == CACHE_SIZE && |c.toSlot| == 32
    && forall r :: 0 <= r < 32 ==> c.toSlot[r] == NONE || c.toSlot[r] < CACHE_SIZE
  }

  /** RegisterToLock */
  datatype Request = Request(reg: GuestReg, writeOnly: bool)

  function ReadOf(r: GuestReg): Request { Request(r, false) }
  function WriteOnly(r: GuestReg): Request { Request(r, true) }

  function NewCache(): (c: Cache)
    ensures Shape(c)
  {
    Cache(0, seq(CACHE_SIZE, _ => EMPTY), seq(32, _ => NONE),
      seq(CACHE_SIZE, i requires 0 <= i < CACHE_SIZE => i as SlotId))
  }

  /** A step of the cache: its new state, the code it emitted, and whether every verify passed. */
  datatype Emitted = Emitted(cache: Cache, code: Code, ok: bool)

  datatype Locked = Locked(cache: Cache, code: Code, regs: seq<HReg>, ok: bool)

  // ----- free_cache_slots -----

  predicate Evictable(s: Slot) { !s.locked && s.reg != 0 }

  function AvailableFrom(slots: seq<Slot>, i: nat): (r: seq<SlotId>)
    requires i <= |slots| == CACHE_SIZE
    decreases CACHE_SIZE - i
  {
    if i == CACHE_SIZE then []
    else (if Evictable(slots[i]) then [i] else []) + AvailableFrom(slots, i + 1)
  }

  /** std::sort with the most recently used slot first. */
  function InsertByUse(slots: seq<Slot>, v: SlotId, sorted: seq<SlotId>): seq<SlotId>
    requires |slots| == CACHE_SIZE
  {
    if sorted == [] || slots[v].lastUse > slots[sorted[0]].lastUse then [v] + sorted
    else [sorted[0]] + InsertByUse(slots, v, sorted[1..])
  }

  function SortByUse(slots: seq<Slot>, a: seq<SlotId>): seq<SlotId>
    requires |slots| == CACHE_SIZE
  {
    if a == [] then [] else InsertByUse(slots, a[0], SortByUse(slots, a[1..]))
  }

  function EvictionOrder(slots: seq<Slot>): seq<SlotId>
    requires |slots| == CACHE_SIZE
  {
    SortByUse(slots, AvailableFrom(slots, 0))
  }

  function Spill(slot: SlotId, reg: GuestReg): HInstr { StrState(CacheReg(slot), REGISTER_STATE, reg) }

  function EvictSlot(c: Cache, v: SlotId): (e: Cache)
    requires Shape(c)
    ensures Shape(e)
  {
    c.(toSlot := c.toSlot[c.slots[v].reg := NONE], slots := c.slots[v := EMPTY], free := c.free + [v])
  }

  function EvictCode(c: Cache, v: SlotId): Code
    requires Shape(c)
  {
    if c.slots[v].dirty then [Spill(v, c.slots[v].reg)] else []
  }

  /** Evicts the last `count` slots of the order, last first. */
  function EvictLast(c: Cache, order: seq<SlotId>, count: nat): (e: Emitted)
    requires Shape(c) && count <= |order|
    ensures Shape(e.cache) && e.ok
    decreases count
  {
    if count == 0 then Emitted(c, [], true)
    else
      var v := order[|order| - 1];
      var rest := EvictLast(EvictSlot(c, v), order[..|order| - 1], count - 1);
      Emitted(rest.cache, EvictCode(c, v) + rest.code, true)
  }

  function FreeSlots(c: Cache, count: nat): (e: Emitted)
    requires Shape(c)
    ensures Shape(e.cache)
  {
    var order := EvictionOrder(c.slots);
    if |order| < count then Emitted(c, [], false) else EvictLast(c, order, count)
  }

  // ----- reserve_registers -----

  function LockSlot(c: Cache, r: GuestReg): (e: Cache)
    requires Shape(c) && c.toSlot[r] != NONE
    ensures Shape(e)
  {
    var t := c.toSlot[r];
    c.(slots := c.slots[t := c.slots[t].(locked := true)])
  }

  function MarkCached(c: Cache, reqs: seq<Request>): (e: Cache)
    requires Shape(c)
    ensures Shape(e)
    decreases |reqs|
  {
    if reqs == [] then c
    else
      var r := reqs[0].reg;
      MarkCached(if r != 0 && c.toSlot[r] != NONE then LockSlot(c, r) else c, reqs[1..])
  }

  function Requested(reqs: seq<Request>): set<GuestReg> {
    set q | q in reqs && q.reg != 0 :: q.reg
  }

  /** missing_registers_set */
  function Missing(c: Cache, reqs: seq<Request>): set<GuestReg>
    requires Shape(c)
  {
    set r | r in Requested(reqs) && c.toSlot[r] == NONE
  }

  function Shortage(c: Cache, reqs: seq<Request>): nat
    requires Shape(c)
  {
    if |Missing(c, reqs)| > |c.free| then |Missing(c, reqs)| - |c.free| else 0
  }

  function Reserve(c: Cache, reqs: seq<Request>): (e: Emitted)
    requires Shape(c)
    ensures Shape(e.cache)
  {
    var marked := MarkCached(c, reqs);
    if Shortage(c, reqs) > 0 then FreeSlots(marked, Shortage(c, reqs)) else Emitted(marked, [], true)
  }

  // ----- lock_registers_internal -----

  /** read_registers_set */
  function Reads(reqs: seq<Request>): set<GuestReg> {
    set q | q in reqs && q.reg != 0 && !q.writeOnly :: q.reg
  }

  function UseSlot(c: Cache, r: GuestReg): (e: Cache)
    requires Shape(c) && c.toSlot[r] != NONE
    ensures Shape(e)
  {
    var t := c.toSlot[r];
    c.(slots := c.slots[t := c.slots[t].(locked := true, lastUse := c.pc)])
  }

  /** Takes the free slot released last for a register that has none. */
  function AssignSlot(c: Cache, r: GuestReg): (e: Cache)
    requires Shape(c) && c.free != []
    ensures Shape(e)
  {
    var t := c.free[|c.free| - 1];
    c.(free := c.free[..|c.free| - 1], toSlot := c.toSlot[r := t],
       slots := c.slots[t := c.slots[t].(reg := r, locked := true, lastUse := c.pc)])
  }

  function FillCode(c: Cache, r: GuestReg, wanted: set<GuestReg>): Code
    requires Shape(c) && c.free != []
  {
    if r in wanted then [LdrState(CacheReg(c.free[|c.free| - 1]), REGISTER_STATE, r)] else []
  }

  function LockEach(c: Cache, reqs: seq<Request>, wanted: set<GuestReg>): (l: Locked)
    requires Shape(c)
    ensures Shape(l.cache)
    decreases |reqs|
  {
    if reqs == [] then Locked(c, [], [], true)
    else
      var r := reqs[0].reg;
      if r == 0 then
        var rest := LockEach(c, reqs[1..], wanted);
        rest.(regs := [XZR] + rest.regs)
      else if c.toSlot[r] != NONE then
        var rest := LockEach(UseSlot(c, r), reqs[1..], wanted);
        rest.(regs := [CacheReg(c.toSlot[r])] + rest.regs)
      else if c.free == [] then Locked(c, [], [], false)
      else
        var rest := LockEach(AssignSlot(c, r), reqs[1..], wanted);
        rest.(code := FillCode(c, r, wanted) + rest.code, regs := [CacheReg(c.free[|c.free| - 1])] + rest.regs)
  }

  function Lock(c: Cache, reqs: seq<Request>): (l: Locked)
    requires Shape(c)
    ensures Shape(l.cache)
  {
    var reserved := Reserve(c, reqs);
    if !reserved.ok then Locked(reserved.cache, reserved.code, [], false)
    else
      var l := LockEach(reserved.cache, reqs, Reads(reqs));
      l.(code := reserved.code + l.code)
  }

  // ----- unlock_register, take_state_snapshot, flush_registers, finish_instruction -----

  predicate MayUnlock(r: HReg) { r == XZR || SlotOfHost(r) != NONE }

  function Unlock(c: Cache, r: HReg, dirty: bool): (e: Cache)
    requires Shape(c)
    ensures Shape(e)
  {
    var t := SlotOfHost(r);
    if t == NONE then c
    else c.(slots := c.slots[t := c.slots[t].(locked := false, dirty := c.slots[t].dirty || dirty)])
  }

  type Snapshot = s: seq<GuestReg> | |s| == 17 witness seq(17, _ => 0)

  function TakeSnapshot(c: Cache): Snapshot
    requires Shape(c)
  {
    seq(CACHE_SIZE, i requires 0 <= i < CACHE_SIZE => if c.slots[i].dirty then c.slots[i].reg else 0)
  }

  const NO_SNAPSHOT: Snapshot := [0, 0, 0, 0, 0, 0, 0, 0, 0, 0, 0, 0, 0, 0, 0, 0, 0]

  function FlushFrom(s: Snapshot, i: nat): Code
    requires i <= CACHE_SIZE
    decreases CACHE_SIZE - i
  {
    if i == CACHE_SIZE then []
    else if s[i] == 0 then FlushFrom(s, i + 1)
    else [Spill(i, s[i])] + FlushFrom(s, i + 1)
  }

  function Flush(s: Snapshot): Code { FlushFrom(s, 0) }

  predicate NoneLocked(c: Cache)
    requires Shape(c)
  {
    forall i :: 0 <= i < CACHE_SIZE ==> !c.slots[i].locked
  }

  function Finish(c: Cache): Cache { c.(pc := (c.pc + 1) % TWO32) }

  lemma ShapeFinish(c: Cache)
    requires Shape(c)
    ensures Shape(Finish(c))
  {
  }

  // ----- the structural invariant -----

  function CachedRegs(c: Cache): set<GuestReg>
    requires Shape(c)
  {
    set r: GuestReg | r < 32 && c.toSlot[r] != NONE
  }

  /** The two maps are inverse to each other, x0 is never cached, an empty slot is as good as new, and
      the free list holds each empty slot once; so slots in use and free slots add up. */
  ghost predicate Valid(c: Cache) {
    && Shape(c)
    && (forall r :: 0 <= r < 32 && c.toSlot[r] != NONE ==> r != 0 && c.slots[c.toSlot[r]].reg == r)
    && (forall i :: 0 <= i < CACHE_SIZE && c.slots[i].reg != 0 ==> c.toSlot[c.slots[i].reg] == i)
    && (forall i :: 0 <= i < CACHE_SIZE && c.slots[i].reg == 0 ==> c.slots[i] == EMPTY && i in c.free)
    && (forall k :: 0 <= k < |c.free| ==> c.slots[c.free[k]].reg == 0)
    && (forall j, k :: 0 <= j < k < |c.free| ==> c.free[j] != c.free[k])
    && |CachedRegs(c)| + |c.free| == CACHE_SIZE
  }

  lemma NewCacheValid()
    ensures Valid(NewCache()) && NoneLocked(NewCache())
  {
    var c := NewCache();
    assert forall r :: 0 <= r < 32 ==> c.toSlot[r] == NONE;
    assert forall i :: 0 <= i < CACHE_SIZE ==> c.slots[i] == EMPTY;
    forall i | 0 <= i < CACHE_SIZE
      ensures i in c.free
    {
      assert c.free[i] == i;
    }
    assert CachedRegs(c) == {};
  }

  /** Distinct cached guest registers sit in distinct host registers. */
  lemma DistinctHostRegisters(c: Cache, q: GuestReg, r: GuestReg)
    requires Valid(c) && q != r && c.toSlot[q] != NONE && c.toSlot[r] != NONE
    ensures CacheReg(c.toSlot[q]) != CacheReg(c.toSlot[r])
  {
  }

  lemma CacheRegInverse(i: SlotId)
    ensures SlotOfHost(CacheReg(i)) == i && CacheReg(i) > C_REG && CacheReg(i) != XZR && CacheReg(i) != 18
  {
  }

  /** Slots locked before are exactly as they were, apart from the time of their last use. */
  predicate KeepsLocked(c: Cache, d: Cache)
    requires Shape(c) && Shape(d)
  {
    forall i :: 0 <= i < CACHE_SIZE && c.slots[i].locked ==>
      d.slots[i].locked && d.slots[i].reg == c.slots[i].reg && d.slots[i].dirty == c.slots[i].dirty
  }

  /** Only the lock bits and times of use differ. */
  predicate SameContents(c: Cache, d: Cache)
    requires Shape(c) && Shape(d)
  {
    && d.toSlot == c.toSlot && d.free == c.free
    && forall i :: 0 <= i < CACHE_SIZE ==> d.slots[i].reg == c.slots[i].reg && d.slots[i].dirty == c.slots[i].dirty
  }

  lemma LockSlotValid(c: Cache, r: GuestReg)
    requires Valid(c) && c.toSlot[r] != NONE
    ensures Valid(LockSlot(c, r)) && Valid(UseSlot(c, r))
    ensures SameContents(c, LockSlot(c, r)) && SameContents(c, UseSlot(c, r))
    ensures KeepsLocked(c, LockSlot(c, r)) && KeepsLocked(c, UseSlot(c, r))
  {
    assert CachedRegs(LockSlot(c, r)) == CachedRegs(c) == CachedRegs(UseSlot(c, r));
  }

  /** Marking locks exactly the requested slots, beyond those already locked. */
  lemma {:induction false} MarkCachedLocks(c: Cache, reqs: seq<Request>)
    requires Valid(c)
    ensures var m := MarkCached(c, reqs);
            Valid(m) && SameContents(c, m) && KeepsLocked(c, m)
            && (forall i :: 0 <= i < CACHE_SIZE ==>
                  (m.slots[i].locked <==> c.slots[i].locked || m.slots[i].reg in Requested(reqs)))
            && (forall i :: 0 <= i < CACHE_SIZE ==> m.slots[i].lastUse == c.slots[i].lastUse)
    decreases |reqs|
  {
    if reqs != [] {
      var r := reqs[0].reg;
      var d := if r != 0 && c.toSlot[r] != NONE then LockSlot(c, r) else c;
      if r != 0 && c.toSlot[r] != NONE {
        LockSlotValid(c, r);
      }
      MarkCachedLocks(d, reqs[1..]);
      RequestedSplit(reqs);
    }
  }

  lemma RequestedSplit(reqs: seq<Request>)
    requires reqs != []
    ensures Requested(reqs) == (if reqs[0].reg != 0 then {reqs[0].reg} else {}) + Requested(reqs[1..])
    ensures Reads(reqs) == (if reqs[0].reg != 0 && !reqs[0].writeOnly then {reqs[0].reg} else {}) + Reads(reqs[1..])
  {
    assert reqs == [reqs[0]] + reqs[1..];
    assert forall q :: q in reqs <==> q == reqs[0] || q in reqs[1..];
  }

  lemma EvictSlotValid(c: Cache, v: SlotId)
    requires Valid(c) && c.slots[v].reg != 0
    ensures Valid(EvictSlot(c, v))
    ensures !c.slots[v].locked ==> KeepsLocked(c, EvictSlot(c, v))
  {
    var e := EvictSlot(c, v);
    assert CachedRegs(c) == CachedRegs(e) + {c.slots[v].reg};
    assert e.free[|c.free|] == v;
    assert forall i :: i in c.free ==> i in e.free;
  }

  lemma AssignSlotValid(c: Cache, r: GuestReg)
    requires Valid(c) && r != 0 && c.toSlot[r] == NONE && c.free != []
    ensures Valid(AssignSlot(c, r)) && KeepsLocked(c, AssignSlot(c, r))
  {
    var e := AssignSlot(c, r);
    var n := |c.free| - 1;
    assert CachedRegs(e) == CachedRegs(c) + {r};
    forall i | 0 <= i < CACHE_SIZE && e.slots[i].reg == 0
      ensures i in e.free
    {
      var k :| 0 <= k < |c.free| && c.free[k] == i;
      assert e.free[k] == i;
    }
  }
}
