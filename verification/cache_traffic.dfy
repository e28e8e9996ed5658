/** Which loads and stores the cache emits: no more than it must. */
module CacheTraffic {
  import opened Instructions
  import opened HostMachine
  import opened RegisterCaches
  import opened CacheProperties
  import CacheRuns

  /** A store of a dirty victim, to the place of its own register. */
  ghost predicate StoresVictim(c: Cache, victims: seq<SlotId>, i: HInstr)
    requires Shape(c)
  {
    exists v: SlotId :: v in victims && c.slots[v].dirty && i == Spill(v, c.slots[v].reg)
  }

  lemma {:induction false} EvictTraffic(c: Cache, order: seq<SlotId>, count: nat, i: HInstr)
    requires Shape(c) && Valid(c) && count <= |order| && AllEvictable(c, order)
    ensures i in EvictLast(c, order, count).code <==> StoresVictim(c, order[|order| - count..], i)
    decreases count
  {
    hide Valid, EvictSlot, AllEvictable, KeepsLocked, Spill, EvictLast, StoresVictim;
    if count == 0 {
      NoVictims(c, order, i);
    } else {
      var n := |order| - 1;
      var d, tail, rest := EvictSlot(c, order[n]), order[|order| - count..], order[..n][n - (count - 1)..];
      FirstVictim(c, order, count);
      EvictTraffic(d, order[..n], count - 1, i);
      EvictUnfold(c, order, count, i);
      NotAgain(c, order, count);
      TailElements(order, count, tail, rest);
      TailStores(c, d, tail, rest, order[n], i);
    }
  }

  lemma NoVictims(c: Cache, order: seq<SlotId>, i: HInstr)
    requires Shape(c)
    ensures i !in EvictLast(c, order, 0).code && order[|order|..] == [] && !StoresVictim(c, order[|order|..], i)
  {
  }

  lemma TailElements(order: seq<SlotId>, count: nat, tail: seq<SlotId>, rest: seq<SlotId>)
    requires 0 < count <= |order| && tail == order[|order| - count..]
    requires var n := |order| - 1; rest == order[..n][n - (count - 1)..]
    ensures forall v: SlotId :: v in tail <==> v == order[|order| - 1] || v in rest
  {
    forall v: SlotId
      ensures v in tail <==> v == order[|order| - 1] || v in rest
    {
      TailElement(order, count, v);
    }
  }

  lemma TailStores(c: Cache, d: Cache, tail: seq<SlotId>, rest: seq<SlotId>, last: SlotId, i: HInstr)
    requires Shape(c) && Shape(d) && d.slots == c.slots[last := EMPTY] && last !in rest
    requires forall v: SlotId :: v in tail <==> v == last || v in rest
    ensures StoresVictim(c, tail, i)
       <==> (c.slots[last].dirty && i == Spill(last, c.slots[last].reg)) || StoresVictim(d, rest, i)
  {
    hide Spill;
  }

  lemma EvictUnfold(c: Cache, order: seq<SlotId>, count: nat, i: HInstr)
    requires Shape(c) && 0 < count <= |order|
    ensures var n := |order| - 1;
            var v := order[n];
            i in EvictLast(c, order, count).code
            <==> (c.slots[v].dirty && i == Spill(v, c.slots[v].reg))
                 || i in EvictLast(EvictSlot(c, v), order[..n], count - 1).code
  {
    hide EvictSlot, Spill;
  }

  lemma NotAgain(c: Cache, order: seq<SlotId>, count: nat)
    requires Shape(c) && 0 < count <= |order| && AllEvictable(c, order)
    ensures var n := |order| - 1; order[n] !in order[..n][n - (count - 1)..]
  {
  }

  /** A load of a register that had none, into the slot it then has. */
  ghost predicate LoadsMissing(c: Cache, d: Cache, reqs: seq<Request>, wanted: set<GuestReg>, i: HInstr)
    requires Shape(c) && Shape(d)
  {
    exists r: GuestReg :: Fills(c, d, reqs, wanted, r, i)
  }

  predicate Fills(c: Cache, d: Cache, reqs: seq<Request>, wanted: set<GuestReg>, r: GuestReg, i: HInstr)
    requires Shape(c) && Shape(d)
  {
    r in Missing(c, reqs) && r in wanted && d.toSlot[r] != NONE
    && i == LdrState(CacheReg(d.toSlot[r]), REGISTER_STATE, r)
  }

  lemma {:induction false} FillTraffic(c: Cache, reqs: seq<Request>, wanted: set<GuestReg>, i: HInstr)
    requires Shape(c) && Valid(c) && LockEach(c, reqs, wanted).ok
    ensures i in LockEach(c, reqs, wanted).code
       <==> LoadsMissing(c, LockEach(c, reqs, wanted).cache, reqs, wanted, i)
    decreases |reqs|
  {
    if reqs == [] {
      NothingMissing(c);
    } else {
      hide Valid, Missing, LockEach, AfterFirst, UseSlot, AssignSlot, Given, KeepsLocked, LocksOnly, LoadsMissing,
        Fills;
      var q := reqs[0].reg;
      var d, e := AfterFirst(c, q), LockEach(c, reqs, wanted).cache;
      LockEachUnfold(c, reqs, wanted);
      AfterFirstIs(c, q);
      FillTraffic(d, reqs[1..], wanted, i);
      MissingStep(c, reqs);
      FirstSlot(c, q);
      CacheRuns.LockEachKeepsSlot(d, reqs[1..], wanted, q);
      MissingSlots(c, d, e, reqs, wanted, i);
    }
  }

  /** The first request's register is filled if it was missing, and the others as before. */
  lemma MissingSlots(c: Cache, d: Cache, e: Cache, reqs: seq<Request>, wanted: set<GuestReg>, i: HInstr)
    requires Shape(c) && Shape(d) && Shape(e) && reqs != []
    requires var q := reqs[0].reg;
             Missing(c, reqs) == Missing(d, reqs[1..]) + (if q != 0 && c.toSlot[q] == NONE then {q} else {})
             && (q != 0 && c.toSlot[q] == NONE ==> d.toSlot[q] != NONE && e.toSlot[q] == d.toSlot[q])
    ensures var q := reqs[0].reg;
            LoadsMissing(c, e, reqs, wanted, i)
            <==> LoadsMissing(d, e, reqs[1..], wanted, i)
                 || (q != 0 && c.toSlot[q] == NONE && q in wanted
                     && i == LdrState(CacheReg(d.toSlot[q]), REGISTER_STATE, q))
  {
    hide Missing;
    var q := reqs[0].reg;
    if LoadsMissing(c, e, reqs, wanted, i) {
      var r: GuestReg :| Fills(c, e, reqs, wanted, r, i);
      if r != q || q == 0 || c.toSlot[q] != NONE {
        assert Fills(d, e, reqs[1..], wanted, r, i);
      }
    }
    if LoadsMissing(d, e, reqs[1..], wanted, i) {
      var r: GuestReg :| Fills(d, e, reqs[1..], wanted, r, i);
      assert Fills(c, e, reqs, wanted, r, i);
    }
    if q != 0 && c.toSlot[q] == NONE && q in wanted && i == LdrState(CacheReg(d.toSlot[q]), REGISTER_STATE, q) {
      assert Fills(c, e, reqs, wanted, q, i);
    }
  }

  lemma FirstSlot(c: Cache, q: GuestReg)
    requires Shape(c) && (q == 0 || c.toSlot[q] != NONE || c.free != [])
    ensures q == 0 ==> AfterFirst(c, q) == c
    ensures q != 0 && c.toSlot[q] != NONE ==> AfterFirst(c, q) == UseSlot(c, q)
    ensures q != 0 && c.toSlot[q] == NONE ==>
              AfterFirst(c, q) == AssignSlot(c, q) && AfterFirst(c, q).toSlot[q] == c.free[|c.free| - 1]
  {
  }

  lemma NothingMissing(c: Cache)
    requires Shape(c)
    ensures Missing(c, []) == {}
  {
  }

  lemma ReadsAre(reqs: seq<Request>, r: GuestReg)
    ensures r in Reads(reqs) <==> r != 0 && ReadOf(r) in reqs
    ensures r in Requested(reqs) <==> r != 0 && (ReadOf(r) in reqs || WriteOnly(r) in reqs)
  {
    assert forall q: Request :: q == ReadOf(q.reg) || q == WriteOnly(q.reg);
  }

  /** A register asked for to be read that the cache did not have, and the slot it is given. */
  predicate LoadsRead(c: Cache, d: Cache, reqs: seq<Request>, r: GuestReg, i: HInstr)
    requires Shape(c) && Shape(d)
  {
    r != 0 && ReadOf(r) in reqs && c.toSlot[r] == NONE && d.toSlot[r] != NONE
    && i == LdrState(CacheReg(d.toSlot[r]), REGISTER_STATE, r)
  }

  /** The code of a lock is made of just these: for each dirty register evicted its store, for each register
      asked for to be read and not cached its load. Clean victims are not stored, and registers asked for
      only to be written are not loaded. */
  lemma LockTraffic(c: Cache, reqs: seq<Request>, i: HInstr)
    requires Shape(c) && Valid(c) && Lock(c, reqs).ok
    ensures i in Lock(c, reqs).code
       <==> StoresVictim(c, Victims(c, reqs), i)
            || exists r: GuestReg :: LoadsRead(c, Lock(c, reqs).cache, reqs, r, i)
  {
    hide Valid, Reserve, LockEach, Victims, Missing, StoresVictim;
    var e, d := Reserve(c, reqs).cache, Lock(c, reqs).cache;
    ReserveIs(c, reqs);
    MissingAfterReserve(c, reqs);
    FillTraffic(e, reqs, Reads(reqs), i);
    ReserveTraffic(c, reqs, i);
    if LoadsMissing(e, d, reqs, Reads(reqs), i) {
      var r: GuestReg :| Fills(e, d, reqs, Reads(reqs), r, i);
      ReadsAre(reqs, r);
      MissingMeans(c, reqs, r);
      assert LoadsRead(c, d, reqs, r, i);
    }
    if r: GuestReg :| LoadsRead(c, d, reqs, r, i) {
      ReadsAre(reqs, r);
      MissingMeans(c, reqs, r);
      assert Fills(e, d, reqs, Reads(reqs), r, i);
    }
  }

  lemma MissingMeans(c: Cache, reqs: seq<Request>, r: GuestReg)
    requires Shape(c)
    ensures r in Missing(c, reqs) <==> r in Requested(reqs) && c.toSlot[r] == NONE
  {
  }

  lemma ReserveTraffic(c: Cache, reqs: seq<Request>, i: HInstr)
    requires Shape(c) && Valid(c) && Reserve(c, reqs).ok
    ensures i in Reserve(c, reqs).code <==> StoresVictim(c, Victims(c, reqs), i)
  {
    hide Valid, MarkCached, EvictionOrder, EvictLast, Missing, Requested, Spill;
    var m := MarkCached(c, reqs);
    var order := EvictionOrder(m.slots);
    MarkCachedLocks(c, reqs);
    OrderIs(m.slots);
    assert StoresVictim(c, Victims(c, reqs), i) <==> StoresVictim(m, Victims(c, reqs), i);
    if Shortage(c, reqs) > 0 {
      EvictTraffic(m, order, Shortage(c, reqs), i);
    } else {
      assert Victims(c, reqs) == [];
    }
  }
}
